/** Splitting and joining strings on a single separator character.
    Both the address parser and the shell-word view of a daemon command line
    are built on these two functions. */
module Text {

  /** `c` does not occur in `s`. */
  predicate Free(s: string, c: char) {
    forall k :: 0 <= k < |s| ==> s[k] != c
  }

  /** Index of the first `c` in `s`, or `|s|` when there is none. */
  function Find(s: string, c: char): (i: nat)
    ensures i <= |s|
    ensures Free(s[..i], c)
    ensures i < |s| ==> s[i] == c
    ensures i == |s| <==> Free(s, c)
  {
    if |s| == 0 then 0
    else if s[0] == c then 0
    else 1 + Find(s[1..], c)
  }

  /** The pieces of `s` between occurrences of `sep`, like Python's `s.split(sep)`. */
  function Split(s: string, sep: char): (parts: seq<string>)
    ensures |parts| >= 1
    ensures forall k :: 0 <= k < |parts| ==> Free(parts[k], sep)
    decreases |s|
  {
    var i := Find(s, sep);
    if i == |s| then [s]
    else [s[..i]] + Split(s[i + 1..], sep)
  }

  /** The pieces glued back together with `sep` between them, like `sep.join(parts)`. */
  function Join(parts: seq<string>, sep: char): (s: string)
    requires |parts| >= 1
  {
    if |parts| == 1 then parts[0]
    else parts[0] + [sep] + Join(parts[1..], sep)
  }

  lemma {:induction false} FindPrefix(a: string, b: string, c: char)
    requires Free(a, c)
    ensures Find(a + [c] + b, c) == |a|
  {
    if |a| > 0 {
      assert (a + [c] + b)[1..] == a[1..] + [c] + b;
      FindPrefix(a[1..], b, c);
    }
  }

  /** Splitting peels off a leading separator-free piece. */
  lemma SplitCons(head: string, rest: string, sep: char)
    requires Free(head, sep)
    ensures Split(head + [sep] + rest, sep) == [head] + Split(rest, sep)
  {
    var s := head + [sep] + rest;
    FindPrefix(head, rest, sep);
    assert s[..|head|] == head;
    assert s[|head| + 1..] == rest;
  }

  /** Splitting undoes joining, as long as no piece contains the separator. */
  lemma {:induction false} SplitJoin(parts: seq<string>, sep: char)
    requires |parts| >= 1
    requires forall k :: 0 <= k < |parts| ==> Free(parts[k], sep)
    ensures Split(Join(parts, sep), sep) == parts
  {
    if |parts| == 1 {
      assert Find(parts[0], sep) == |parts[0]|;
    } else {
      var head, tail := parts[0], parts[1..];
      assert forall k :: 0 <= k < |tail| ==> Free(tail[k], sep) by {
        forall k | 0 <= k < |tail| ensures Free(tail[k], sep) {
          assert tail[k] == parts[k + 1];
        }
      }
      SplitJoin(tail, sep);
      SplitCons(head, Join(tail, sep), sep);
      assert parts == [head] + tail;
    }
  }

  /** Joining undoes splitting, for every string. */
  lemma {:induction false} JoinSplit(s: string, sep: char)
    ensures Join(Split(s, sep), sep) == s
    decreases |s|
  {
    var i := Find(s, sep);
    var parts := Split(s, sep);
    if i < |s| {
      var head, rest := s[..i], s[i + 1..];
      var tail := Split(rest, sep);
      assert parts == [head] + tail;
      JoinSplit(rest, sep);
      JoinCons(head, tail, sep);
      assert Join(parts, sep) == head + [sep] + rest;
      assert s == head + [sep] + rest by {
        assert s == s[..i] + [s[i]] + s[i + 1..];
      }
    } else {
      assert parts == [s];
    }
  }

  /** `a` and `b` are recovered from `a + [sep] + b` when `a` has no separator. */
  lemma CutInjective(a: string, b: string, c: string, d: string, sep: char)
    requires Free(a, sep) && Free(c, sep)
    requires a + [sep] + b == c + [sep] + d
    ensures a == c && b == d
  {
    FindPrefix(a, b, sep);
    FindPrefix(c, d, sep);
    var s := a + [sep] + b;
    assert a == s[..|a|] && c == s[..|c|];
    assert b == s[|a| + 1..] && d == s[|c| + 1..];
  }

  /** A concatenation is separator-free exactly when both halves are. */
  lemma FreeConcat(a: string, b: string, c: char)
    ensures Free(a + b, c) <==> Free(a, c) && Free(b, c)
  {
    if Free(a, c) && Free(b, c) {
      forall k | 0 <= k < |a + b| ensures (a + b)[k] != c {
        if k >= |a| { assert (a + b)[k] == b[k - |a|]; }
      }
    }
    if Free(a + b, c) {
      forall k | 0 <= k < |a| ensures a[k] != c {
        assert (a + b)[k] == a[k];
      }
      forall k | 0 <= k < |b| ensures b[k] != c {
        assert (a + b)[|a| + k] == b[k];
      }
    }
  }

  /** A joined string is free of `c` when the separator and every piece are. */
  lemma {:induction false} JoinFree(parts: seq<string>, sep: char, c: char)
    requires |parts| >= 1 && sep != c
    requires forall k :: 0 <= k < |parts| ==> Free(parts[k], c)
    ensures Free(Join(parts, sep), c)
  {
    if |parts| > 1 {
      JoinFree(parts[1..], sep, c);
      FreeConcat(parts[0], [sep], c);
      FreeConcat(parts[0] + [sep], Join(parts[1..], sep), c);
    }
  }

  lemma JoinCons(a: string, rest: seq<string>, sep: char)
    requires |rest| >= 1
    ensures Join([a] + rest, sep) == a + [sep] + Join(rest, sep)
  {
    assert ([a] + rest)[1..] == rest;
  }
}
