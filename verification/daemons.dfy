/** The file paths and shell commands of `start_zebra`, `stop_zebra`,
    `start_ripd`, `stop_ripd`, `start_bgpd` and `stop_bgpd`
    (bgpbase.py:102-156). Every daemon of a router keeps its files in
    `<DIRPREFIX>/<router>/`, and all of them talk over one socket there. */
module Daemons {
  import opened Wrappers
  import opened Decimal
  import Text

  /** The routing-table manager (zebra) and the two protocol speakers. */
  datatype Role = Zebra | Ripd | Bgpd

  /** The files a router directory holds. Only zebra gets a log file. */
  datatype FileKind = Config(role: Role) | PidFile(role: Role) | ZebraLog | Socket

  /** Base directory of all router directories (bgpbase.py:102). */
  const DirPrefix := "/home/mininet/loyola/bgp"

  function RoleName(role: Role): (s: string) {
    match role
    case Zebra => "zebra"
    case Ripd => "ripd"
    case Bgpd => "bgpd"
  }

  /** The name of each file inside a router directory. */
  function FileName(kind: FileKind): (s: string) {
    match kind
    case Config(role) => RoleName(role) + ".conf"
    case PidFile(role) => RoleName(role) + ".pid"
    case ZebraLog => "zebra.log"
    case Socket => "zserv.api"
  }

  /** `'{}/{}/'.format(DIRPREFIX, name)`. */
  function RouterDir(prefix: string, name: string): (s: string) {
    prefix + "/" + name + "/"
  }

  function FilePath(prefix: string, name: string, kind: FileKind): (s: string) {
    RouterDir(prefix, name) + FileName(kind)
  }

  /** The argument words of the daemon invocation of bgpbase.py:114, 132, 148. */
  function LaunchArgs(prefix: string, name: string, role: Role): (words: seq<string>) {
    [ "/usr/sbin/" + RoleName(role), "--daemon",
      "--config_file", FilePath(prefix, name, Config(role)),
      "--pid_file", FilePath(prefix, name, PidFile(role)),
      "--socket", FilePath(prefix, name, Socket) ]
  }

  /** The command line `start_<role>` hands to the shell: the format string
      `'/usr/sbin/<role> --daemon --config_file {} --pid_file {} --socket {}'`
      is these words with one blank between neighbours. */
  function LaunchCommand(prefix: string, name: string, role: Role): (s: string) {
    Text.Join(LaunchArgs(prefix, name, role), ' ')
  }

  /** The shell commands `start_<role>` runs, in order: zebra truncates its log
      and deletes a stale pid file before launching (bgpbase.py:112-114); ripd
      and bgpd only launch (bgpbase.py:132, 148). */
  function StartCommands(prefix: string, name: string, role: Role): (cmds: seq<string>) {
    match role
    case Zebra =>
      [ "> " + FilePath(prefix, name, ZebraLog),
        "rm -f " + FilePath(prefix, name, PidFile(Zebra)),
        LaunchCommand(prefix, name, Zebra) ]
    case _ => [LaunchCommand(prefix, name, role)]
  }

  /** What `stop_<role>` fails with: `open` on a pid file that is not there. */
  datatype StopError = MissingPidFile(path: string)

  /** The shell commands `stop_<role>` runs. `pids` stands for the pid files on
      disk: a path that is a key holds the process id the daemon wrote there.
      The daemon is sent `kill`; zebra's stop also removes the socket
      (bgpbase.py:116-124, 134-140, 150-156). */
  function StopCommands(prefix: string, name: string, role: Role, pids: map<string, int>)
    : (r: Result<seq<string>, StopError>)
  {
    var pidfile := FilePath(prefix, name, PidFile(role));
    if pidfile !in pids then Err(MissingPidFile(pidfile))
    else
      var kill := "kill " + IntToString(pids[pidfile]);
      match role
      case Zebra => Ok([kill, "rm " + FilePath(prefix, name, Socket)])
      case _ => Ok([kill])
  }

  lemma FileNameFree(kind: FileKind, c: char)
    requires c == '/' || c == ' '
    ensures Text.Free(FileName(kind), c)
  {
  }

  lemma FilePathFree(prefix: string, name: string, kind: FileKind)
    requires Text.Free(prefix, ' ') && Text.Free(name, ' ')
    ensures Text.Free(FilePath(prefix, name, kind), ' ')
  {
    FileNameFree(kind, ' ');
    Text.FreeConcat(prefix, "/", ' ');
    Text.FreeConcat(prefix + "/", name, ' ');
    Text.FreeConcat(prefix + "/" + name, "/", ' ');
    Text.FreeConcat(RouterDir(prefix, name), FileName(kind), ' ');
  }

  /** Kinds of file told apart by the first and last letter of their name. */
  function FirstLetter(kind: FileKind): (c: char) {
    match kind
    case Config(role) => RoleName(role)[0]
    case PidFile(role) => RoleName(role)[0]
    case ZebraLog => 'z'
    case Socket => 'z'
  }

  function LastLetter(kind: FileKind): (c: char) {
    match kind
    case Config(_) => 'f'
    case PidFile(_) => 'd'
    case ZebraLog => 'g'
    case Socket => 'i'
  }

  lemma FileNameLetters(kind: FileKind)
    ensures |FileName(kind)| >= 2
    ensures FileName(kind)[0] == FirstLetter(kind)
    ensures FileName(kind)[|FileName(kind)| - 1] == LastLetter(kind)
  {
  }

  /** Each file of a router directory has its own name. */
  lemma FileNameInjective(a: FileKind, b: FileKind)
    ensures FileName(a) == FileName(b) <==> a == b
  {
    FileNameLetters(a);
    FileNameLetters(b);
  }

  /** `<prefix>/<a>/<fa>` determines `a` and `fa` when `a` holds no `/`. */
  lemma DirPathInjective(prefix: string, a: string, b: string, fa: string, fb: string)
    requires Text.Free(a, '/') && Text.Free(b, '/')
    requires prefix + "/" + a + "/" + fa == prefix + "/" + b + "/" + fb
    ensures a == b && fa == fb
  {
    var p := prefix + "/";
    var ta, tb := a + "/" + fa, b + "/" + fb;
    assert prefix + "/" + a + "/" + fa == p + ta;
    assert prefix + "/" + b + "/" + fb == p + tb;
    assert ta == (p + ta)[|p|..];
    assert tb == (p + tb)[|p|..];
    Text.CutInjective(a, fa, b, fb, '/');
  }

  /** Two file paths under one base directory coincide exactly when they name
      the same file of the same router, provided router names hold no `/`. So
      the three daemons of a router never share a config or pid file, and
      daemons of different routers share no file at all. */
  lemma FilePathInjective(prefix: string, a: string, b: string, ka: FileKind, kb: FileKind)
    requires Text.Free(a, '/') && Text.Free(b, '/')
    ensures FilePath(prefix, a, ka) == FilePath(prefix, b, kb) <==> a == b && ka == kb
  {
    if FilePath(prefix, a, ka) == FilePath(prefix, b, kb) {
      DirPathInjective(prefix, a, b, FileName(ka), FileName(kb));
      FileNameInjective(ka, kb);
    }
  }

  lemma FlagsFree(role: Role)
    ensures Text.Free("/usr/sbin/" + RoleName(role), ' ')
    ensures Text.Free("--daemon", ' ') && Text.Free("--config_file", ' ')
    ensures Text.Free("--pid_file", ' ') && Text.Free("--socket", ' ')
  {
  }

  lemma ArgsFree(prefix: string, name: string, role: Role)
    requires Text.Free(prefix, ' ') && Text.Free(name, ' ')
    ensures forall k :: 0 <= k < |LaunchArgs(prefix, name, role)| ==>
      Text.Free(LaunchArgs(prefix, name, role)[k], ' ')
  {
    var args := LaunchArgs(prefix, name, role);
    FlagsFree(role);
    FilePathFree(prefix, name, Config(role));
    FilePathFree(prefix, name, PidFile(role));
    FilePathFree(prefix, name, Socket);
    forall k | 0 <= k < |args| ensures Text.Free(args[k], ' ') {
      if k == 0 {
      } else if k % 2 == 1 {
      } else {
        assert k == 2 || k == 4 || k == 6;
      }
    }
  }

  /** A blank in the base directory or router name is a blank in the path. */
  lemma BlankInDirPath(prefix: string, name: string, file: string)
    requires !(Text.Free(prefix, ' ') && Text.Free(name, ' '))
    ensures !Text.Free(prefix + "/" + name + "/" + file, ' ')
  {
    var path := prefix + "/" + name + "/" + file;
    if !Text.Free(prefix, ' ') {
      var k :| 0 <= k < |prefix| && prefix[k] == ' ';
      assert path == prefix + ("/" + name + "/" + file);
      assert path[k] == ' ';
    } else {
      var k :| 0 <= k < |name| && name[k] == ' ';
      assert path == (prefix + "/") + name + ("/" + file);
      assert path[|prefix| + 1 + k] == ' ';
    }
  }

  lemma LaunchWordsOk(prefix: string, name: string, role: Role)
    requires Text.Free(prefix, ' ') && Text.Free(name, ' ')
    ensures Text.Split(LaunchCommand(prefix, name, role), ' ') == LaunchArgs(prefix, name, role)
  {
    ArgsFree(prefix, name, role);
    Text.SplitJoin(LaunchArgs(prefix, name, role), ' ');
  }

  /** The launch command a shell splits into words is exactly the intended
      argument vector if and only if neither the base directory nor the router
      name contains a blank. */
  lemma LaunchWords(prefix: string, name: string, role: Role)
    ensures Text.Split(LaunchCommand(prefix, name, role), ' ') == LaunchArgs(prefix, name, role)
        <==> Text.Free(prefix, ' ') && Text.Free(name, ' ')
  {
    var args := LaunchArgs(prefix, name, role);
    if Text.Free(prefix, ' ') && Text.Free(name, ' ') {
      LaunchWordsOk(prefix, name, role);
    } else {
      BlankInDirPath(prefix, name, FileName(Config(role)));
      assert !Text.Free(args[3], ' ');
    }
  }

  /** Every daemon of a router is launched with the same socket, and no two
      daemons of a router share a config or pid file (bgpbase.py:107-111,
      128-131, 144-147). */
  lemma SharedSocketOwnFiles(prefix: string, name: string, r1: Role, r2: Role)
    ensures var w1, w2 := LaunchArgs(prefix, name, r1), LaunchArgs(prefix, name, r2);
      && w1[6] == w2[6] == "--socket"
      && w1[7] == w2[7] == FilePath(prefix, name, Socket)
      && (r1 != r2 <==> w1[3] != w2[3])
      && (r1 != r2 <==> w1[5] != w2[5])
  {
    var d := RouterDir(prefix, name);
    if FilePath(prefix, name, Config(r1)) == FilePath(prefix, name, Config(r2)) {
      assert FileName(Config(r1)) == FilePath(prefix, name, Config(r1))[|d|..];
      assert FileName(Config(r2)) == FilePath(prefix, name, Config(r2))[|d|..];
      FileNameInjective(Config(r1), Config(r2));
    }
    if FilePath(prefix, name, PidFile(r1)) == FilePath(prefix, name, PidFile(r2)) {
      assert FileName(PidFile(r1)) == FilePath(prefix, name, PidFile(r1))[|d|..];
      assert FileName(PidFile(r2)) == FilePath(prefix, name, PidFile(r2))[|d|..];
      FileNameInjective(PidFile(r1), PidFile(r2));
    }
  }

  /** `stop_<role>` fails exactly when the pid file the daemon was launched
      with (its `--pid_file` argument) is absent; otherwise it signals the
      process id recorded in that very file, and zebra's stop removes the
      socket every daemon of the router was launched with. */
  lemma StopMatchesStart(prefix: string, name: string, role: Role, other: Role, pids: map<string, int>)
    ensures var w, wo := LaunchArgs(prefix, name, role), LaunchArgs(prefix, name, other);
      var stop := StopCommands(prefix, name, role, pids);
      && w[4] == "--pid_file" && wo[6] == "--socket"
      && (stop.Err? <==> w[5] !in pids)
      && (stop.Err? ==> stop.error == MissingPidFile(w[5]))
      && (stop.Ok? ==> stop.value[0] == "kill " + IntToString(pids[w[5]]))
      && (stop.Ok? ==> |stop.value| == if role == Zebra then 2 else 1)
      && (stop.Ok? && role == Zebra ==> stop.value[1] == "rm " + wo[7])
  {
  }

  /** Of the three start functions only zebra's deletes a stale pid file, and
      it deletes the very file the launch names, before the launch. */
  lemma StaleRemovedBeforeLaunch(prefix: string, name: string, role: Role)
    ensures var cmds, w := StartCommands(prefix, name, role), LaunchArgs(prefix, name, role);
      && cmds[|cmds| - 1] == LaunchCommand(prefix, name, role)
      && |cmds| == (if role == Zebra then 3 else 1)
      && (role == Zebra ==> cmds[1] == "rm -f " + w[5] && cmds[0] == "> " + FilePath(prefix, name, ZebraLog))
  {
  }

  /** With the script's base directory, router r1's files are the absolute
      paths bgpbase.py:102 and 107-111 spell out. */
  lemma ScriptPaths(name: string)
    ensures FilePath(DirPrefix, name, Socket) == "/home/mininet/loyola/bgp/" + name + "/zserv.api"
    ensures FilePath(DirPrefix, "r1", Socket) == "/home/mininet/loyola/bgp/r1/zserv.api"
    ensures FilePath(DirPrefix, "r1", PidFile(Zebra)) == "/home/mininet/loyola/bgp/r1/zebra.pid"
    ensures FilePath(DirPrefix, "r1", Config(Bgpd)) == "/home/mininet/loyola/bgp/r1/bgpd.conf"
  {
  }
}
