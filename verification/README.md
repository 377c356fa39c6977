# Chain-of-routers address plan, wiring and daemon files

`bgpbase.py` sets up a Mininet chain of routers `h0 -- r1 -- r2 -- ... -- rN`
and runs Quagga-style routing daemons (zebra, ripd, bgpd) on each router. Most
of the script drives external processes. This project models its pure core and
proves properties of it:

- **`ip(subnet, host, prefix)`**. The formatter prints `10.0.<subnet>.<host>[/<prefix>]`.
  Module `Addressing` models it on top of a model of Python's `str()` on
  integers (module `Decimal`). A parser proves that it is an inverse.
- **The per-router address plan of `run`.** Router *i* gets these addresses:
  - `eth0` = 10.0.(10i).1/24, towards its own host;
  - `eth1` = 10.0.(i-1).2/24, towards the previous node;
  - `eth2` = 10.0.i.1/24, towards the next router.

  Module `AddressPlan` models this plan and the literal `ifconfig` commands. It
  also relates the plan to the links and to the host addresses and default
  routes that the header documents.
- **The wiring of `RTopo.build`.** The first link is `h0-eth0 -- r1-eth1`.
  Then for each i < N there is a link `r<i>-eth2 -- r<i+1>-eth1`. Module
  `Topology` has a method that mirrors the loop, a reference definition of
  the link list, and lemmas about interface names.
- **The daemon files and commands of `start_*` / `stop_*`.** Each router has
  the directory `DIRPREFIX/<router>/`. It holds `<role>.conf`, `<role>.pid`,
  zebra's `zebra.log`, and one shared `zserv.api` socket. Module `Daemons`
  models the paths, the start and stop shell commands, and how a shell splits
  the launch command into words.

Modules `Text` (split/join on one separator character) and `Wrappers`
(`Option`, `Result`) are shared helpers.

Where the header docstring and the code disagree, the model follows the code:

- Line 16 says `ri-eth0` is on the left and `ri-eth1` on the right. The code
  (bgpbase.py:50-52, 67-69) uses `eth1` for the left side, `eth2` for the right
  side, and `eth0` for the router's own host.
- `build` passes `h[0]` as the first endpoint of the origin link
  (bgpbase.py:50). That is the integer `0`, not a node: the list `h` is never
  filled with hosts. The model uses the endpoint the interface name
  `h0-eth0` intends, `Host(0)`. The consequence of handing an integer to the
  emulator is not modelled, because the emulator is not part of this model.
- Only zebra truncates a log file, deletes a stale pid file before launch,
  and removes the socket on stop (bgpbase.py:105-124). `start_ripd`,
  `start_bgpd`, `stop_ripd` and `stop_bgpd` do none of these, and the model
  keeps that difference.
- `build` and `run` create neither the hosts h1..hN nor the router-to-host
  links (bgpbase.py:47, 54, 73 only say "now do the same"). The host address
  10.0.(10i).10 and its default route exist only as documentation (lines 20-21
  and 74-75). They are modelled as that documented plan.

Some facts were found while stating the plan for every N. They are not
defects at the script's N = 5:

- The plan gives distinct addresses to distinct router interfaces exactly
  when N ≤ 9. From N = 10 on, `r1-eth0` and `r10-eth2` are both 10.0.10.1.
- Every octet is a byte exactly when N ≤ 25.

## Model

| member | source | states |
|---|---|---|
| Decimal.NatToString | bgpbase.py:98 | the shape of `str(n)` for a natural: non-empty, all decimal digits, without a leading zero, and a single digit exactly when n < 10 (its value is stated by `ValueOfNatToString`) |
| Decimal.ValueOfNatToString | bgpbase.py:98 | the digits `str(n)` writes for a natural denote n, most significant digit first |
| Decimal.IntToString | bgpbase.py:98 | the shape of `str(n)` for any integer: canonical digits, with a leading `-` exactly when n is negative and never `-0` (its value is stated by `IntToStringValue`) |
| Decimal.IntToStringValue | bgpbase.py:98 | the digits of `str(n)` denote n when n ≥ 0; when n < 0 they follow a `-` and denote -n |
| Decimal.ParseIntRoundTrip | bgpbase.py:98 | the decimal parser inverts `str` in both directions: it reads `str(n)` back as n, and a string it reads as n is `str(n)` |
| Decimal.IntToStringInjective | bgpbase.py:98 | two integers print the same way if and only if they are equal |
| Addressing.ParseIpRoundTrip | bgpbase.py:97-100 | `ParseIp` inverts `ip`: a string reads back as (s, h, p) exactly when it is what `ip(s, h, p)` prints, so every printed address reads back to its own arguments and nothing else reads back to them |
| Addressing.IpInjective | bgpbase.py:97-100 | `ip` prints two argument triples (with or without a prefix) the same way if and only if they are equal |
| Addressing.Ip | bgpbase.py:97-100 | the formatter itself: `10.0.` + `str(subnet)` + `.` + `str(host)`, then `/` + `str(prefix)` when a prefix is given. Its properties are stated by `ParseIpRoundTrip`, `IpInjective` and `IpPrefixAppends` |
| Addressing.IpPrefixAppends | bgpbase.py:96-100 | a prefix appends `/` and its decimal text to the prefix-less address and changes nothing else; `ip(4,2)` is `10.0.4.2` |
| AddressPlan.InterfaceAddress | bgpbase.py:64-69 | the plan itself: router i's eth0 is (10i, 1), eth1 is (i-1, 2) and eth2 is (i, 1), each with prefix 24. Its properties are stated by `IfconfigAddressReadsBack`, `LinksShareSubnet`, `NeighboursShareNetwork`, `PlanUniqueIff` and `PlanWellFormedIff` |
| AddressPlan.IfconfigCommands | bgpbase.py:64-69 | the three literal `ifconfig` command strings of router i, written as the script writes them, without calling `ip`; there are always three. `IfconfigFollowsPlan` and `IfconfigAddressReadsBack` tie them to the plan |
| AddressPlan.IfconfigFollowsPlan | bgpbase.py:64-69 | the k-th `ifconfig` command of router i splits into exactly three words: `ifconfig`, the interface name `r<i>-eth<k>`, and what `ip` prints for the plan's address of that interface |
| AddressPlan.IfconfigAddressReadsBack | bgpbase.py:64-69 | the address word of that command reads back as the plan's subnet (10i, i-1 or i), host byte (1, 2 or 1) and prefix 24 |
| AddressPlan.LinksShareSubnet | bgpbase.py:9-12 | on every chain link `r<k>-eth2 -- r<k+1>-eth1` that `build` wires, both ends are on subnet k, with host byte 1 on the left end and 2 on the right end. The router end of the origin link is 10.0.0.2/24 and h0 gets no address |
| AddressPlan.NeighboursShareNetwork | bgpbase.py:68-69 | router i's eth2 and router i+1's eth1 share a /24, with host bytes 1 and 2; a router's own eth1 and eth2 are on different networks |
| AddressPlan.HostBesideRouter | bgpbase.py:20-21 | host hi (10.0.(10i).10) shares the /24 of ri-eth0 at a different host byte, and its default route is ri-eth0's address; for h2 that is 10.0.20.1 |
| AddressPlan.PlanUniqueIff | bgpbase.py:64-69 | no two router interfaces of an N-router chain get the same address if and only if N ≤ 9 |
| AddressPlan.PlanWellFormedIff | bgpbase.py:64-69 | every configured octet lies in 0..255 (and the prefix in 0..32) if and only if N ≤ 25 |
| Topology.Build | bgpbase.py:42-52 | for N < 1 the build fails with an index error. Otherwise it returns exactly N links: the origin link `h0-eth0 -- r1-eth1` first, then link k = `r<k>-eth2 -- r<k+1>-eth1` for k = 1..N-1. The result is the reference link list |
| Topology.LinksFormPath | bgpbase.py:49-52 | consecutive links meet at a router: the links form the path h0, r1, ..., rN |
| Topology.EndpointsWired | bgpbase.py:50-52 | an interface is wired if and only if it is h0-eth0, the eth1 of a router 1..N, or the eth2 of a router 1..N-1 |
| Topology.EndpointsDistinct | bgpbase.py:50-52 | no interface end occurs twice in the link list |
| Topology.WiredOnce | bgpbase.py:50-52 | each `r<i>-eth1` (1 ≤ i ≤ N) occurs exactly once, each `r<i>-eth2` (i < N) exactly once, and `r<N>-eth2` never |
| Topology.NodeNameInjective | bgpbase.py:45-46 | node names `r<i>` / `h<i>` coincide if and only if the nodes are the same |
| Topology.IfaceNameInjective | bgpbase.py:50-52 | interface names `<node>-eth<k>` coincide if and only if they name the same interface |
| Topology.IfaceNamesDistinct | bgpbase.py:50-52 | all 2N interface names passed to `addLink` are pairwise different |
| Topology.LinkNames | bgpbase.py:50-52 | the modelled endpoints carry exactly the names `build` passes: `h0-eth0`, `r1-eth1`, `r<i>-eth2` and `r<i+1>-eth1` |
| Daemons.FilePath | bgpbase.py:105-111 | a daemon file is `<prefix>/<router>/<file name>`. `FilePathInjective`, `SharedSocketOwnFiles` and `ScriptPaths` state its properties |
| Daemons.FileNameInjective | bgpbase.py:108-111 | the file names of a router directory (`<role>.conf`, `<role>.pid`, `zebra.log`, `zserv.api`) are pairwise different |
| Daemons.FilePathInjective | bgpbase.py:105-111 | for router names without `/`, two daemon file paths are equal if and only if they are the same file of the same router. So different routers share no file |
| Daemons.ScriptPaths | bgpbase.py:102-111 | with the script's base directory `/home/mininet/loyola/bgp`, a router's socket is `/home/mininet/loyola/bgp/<router>/zserv.api`; for r1 the socket, zebra pid file and bgpd config are the literal absolute paths |
| Daemons.LaunchWords | bgpbase.py:114 | splitting the launch command at blanks gives exactly the intended arguments (binary, `--daemon`, `--config_file` path, `--pid_file` path, `--socket` path) if and only if the base directory and the router name contain no blank |
| Daemons.SharedSocketOwnFiles | bgpbase.py:105-148 | for any base directory and any router name, every daemon of the router is launched with the same `zserv.api` socket, and two daemons get the same config path, and the same pid path, if and only if they have the same role |
| Daemons.StartCommands | bgpbase.py:105-148 | the shell commands `start_zebra`, `start_ripd` and `start_bgpd` run, in order; `StaleRemovedBeforeLaunch` and `LaunchWords` state their properties |
| Daemons.StopCommands | bgpbase.py:116-156 | the shell commands `stop_<role>` runs, or the `MissingPidFile` error `open` raises; `StopMatchesStart` relates them to the start |
| Daemons.StopMatchesStart | bgpbase.py:116-156 | a stop fails with a missing-pid-file error exactly when the `--pid_file` the daemon was launched with does not exist. Otherwise its first command kills the pid recorded there. Zebra's stop has exactly one more command, which removes the socket every daemon of the router was launched with; ripd's and bgpd's stops are the kill alone |
| Daemons.StaleRemovedBeforeLaunch | bgpbase.py:105-148 | the launch is the last start command. Zebra's start has exactly three commands: truncate `zebra.log`, delete the pid file named in the launch, then launch. Ripd's and bgpd's starts are the launch alone |

## Left out

- The Mininet framework: `Mininet`, `Topo.addHost`, `TCLink`, `net.start`,
  `net.stop` and `CLI` (bgpbase.py:27-33, 59-61, 85, 93). It is an external
  emulator. `addLink` is modelled only as the record of its two endpoints.
- Running the shell commands (`r.cmd(...)`). This covers `ifconfig`, the
  `sysctl net.ipv4.ip_forward=1` at line 70, `sshd`, the daemon launches,
  `kill` and `rm`. These are process and OS side effects. The model builds the
  command strings and stops there.
- Reading the pid file (`open`, `readline`, `int`). It is filesystem I/O, so a
  map from path to recorded process id stands in for the files. A missing key
  is the `open` failure, modelled as `MissingPidFile`. A pid file whose first
  line is not an integer (a `ValueError` in the script) is not modelled.
- `rp_disable` (bgpbase.py:160-164). Its input is shell output.
- `os.system('stty ...')`, `setLogLevel` and the module-level `run()` call
  (bgpbase.py:94, 168-169). These are terminal and logging side effects.
- The order in which `run` starts and stops the daemons (bgpbase.py:78-92).
  It orchestrates external processes and has no pure result.
- The name of a Mininet node (`'{}'.format(r)`) is a string parameter of the
  daemon functions. The topology's router names are `r<i>`.
- Daemons.LaunchWords: approximates the shell's word splitting by splitting at
  single blanks. Quoting, runs of blanks and other shell metacharacters in the
  base directory or the router name are not modelled.
- Decimal.ParseIntRoundTrip: the parser accepts only the canonical form `str`
  prints. It is an inverse of `str`, not a model of Python's more lenient
  `int()`.
- Decimal.NatToString: its own contract gives the shape of `str(n)` only; the value is a separate lemma, `ValueOfNatToString`, so that every proof mentioning `str` does not carry the digit-value recursion.
- Decimal.IntToString: likewise, the value of the digits is stated by `IntToStringValue` rather than by the function's own contract.
