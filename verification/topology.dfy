/** The chain topology `RTopo.build` wires: h0 -- r1 -- r2 -- ... -- rN.
    Interface `eth1` of a router faces the previous node of the chain and
    `eth2` the next one; `eth0` is reserved for the router's own host and is
    not wired by `build`. */
module Topology {
  import opened Wrappers
  import opened Decimal
  import Text

  datatype Node = Host(index: nat) | Router(index: nat)

  datatype Port = Eth0 | Eth1 | Eth2

  /** One end of a link: a node and one of its interfaces. */
  datatype Endpoint = Endpoint(node: Node, port: Port)

  /** A link as `addLink(node1, node2, intfName1=..., intfName2=...)` makes it. */
  datatype Link = Link(left: Endpoint, right: Endpoint)

  /** What `build` raises when the list index it reads is out of range. */
  datatype BuildError = IndexError

  function PortNumber(p: Port): (k: nat)
    ensures k < 3
  {
    match p
    case Eth0 => 0
    case Eth1 => 1
    case Eth2 => 2
  }

  /** `'r{}'.format(i)` for routers, `h0` for the origin host. */
  function NodeName(n: Node): (s: string) {
    match n
    case Host(i) => "h" + NatToString(i)
    case Router(i) => "r" + NatToString(i)
  }

  /** The interface name Mininet is given, `<node>-eth<k>`. */
  function IfaceName(e: Endpoint): (s: string) {
    NodeName(e.node) + "-eth" + NatToString(PortNumber(e.port))
  }

  /** The link from the origin host to the first router (bgpbase.py:50). */
  const Origin := Link(Endpoint(Host(0), Eth0), Endpoint(Router(1), Eth1))

  /** The link from router i to router i+1 (bgpbase.py:52). */
  function ChainLink(i: nat): (l: Link) {
    Link(Endpoint(Router(i), Eth2), Endpoint(Router(i + 1), Eth1))
  }

  /** Reference list of links for a chain of n routers: the origin link, then
      the links i -- i+1 in increasing order of i. */
  function Links(n: nat): (links: seq<Link>)
    requires n >= 1
  {
    [Origin] + seq(n - 1, k requires 0 <= k < n - 1 => ChainLink(k + 1))
  }

  /** `RTopo.build` for a chain of n routers (bgpbase.py:42-52). For n < 1 the
      script's `r[1]` (or `h[0]`) indexes past the end of its list. */
  method Build(n: int) returns (r: Result<seq<Link>, BuildError>)
    ensures r.Err? <==> n < 1
    ensures r.Ok? ==> |r.value| == n
    ensures r.Ok? ==> r.value[0] == Origin
    ensures r.Ok? ==> forall k :: 1 <= k < n ==> r.value[k] == ChainLink(k)
    ensures r.Ok? ==> r.value == Links(n)
  {
    if n < 1 {
      return Err(IndexError);
    }
    var links := [Origin];
    var i := 1;
    while i < n
      invariant 1 <= i <= n
      invariant |links| == i
      invariant links[0] == Origin
      invariant forall k :: 1 <= k < i ==> links[k] == ChainLink(k)
    {
      links := links + [ChainLink(i)];
      i := i + 1;
    }
    r := Ok(links);
  }

  /** All interface ends of a link list, left end first. */
  function Endpoints(links: seq<Link>): (es: seq<Endpoint>)
    ensures |es| == 2 * |links|
  {
    if |links| == 0 then []
    else [links[0].left, links[0].right] + Endpoints(links[1..])
  }

  /** The j-th interface end of the chain, read off its position alone. */
  function ChainEnd(j: nat): (e: Endpoint) {
    if j == 0 then Endpoint(Host(0), Eth0)
    else if j % 2 == 1 then Endpoint(Router((j + 1) / 2), Eth1)
    else Endpoint(Router(j / 2), Eth2)
  }

  lemma {:induction false} EndpointsIndex(links: seq<Link>, j: nat)
    requires j < 2 * |links|
    ensures Endpoints(links)[j] == if j % 2 == 0 then links[j / 2].left else links[j / 2].right
  {
    if j >= 2 {
      EndpointsIndex(links[1..], j - 2);
    }
  }

  lemma LinkAt(n: nat, k: nat)
    requires k < n
    ensures Links(n)[k] == if k == 0 then Origin else ChainLink(k)
  {
    if k > 0 {
      assert Links(n)[k] == seq(n - 1, k requires 0 <= k < n - 1 => ChainLink(k + 1))[k - 1];
    }
  }

  lemma ChainEndAt(n: nat, j: nat)
    requires n >= 1 && j < 2 * n
    ensures Endpoints(Links(n))[j] == ChainEnd(j)
  {
    var links := Links(n);
    var k := j / 2;
    EndpointsIndex(links, j);
    LinkAt(n, k);
    if j % 2 == 0 {
      assert Endpoints(links)[j] == links[k].left;
    } else {
      assert (j + 1) / 2 == k + 1;
      assert Endpoints(links)[j] == links[k].right;
    }
  }

  /** No interface end appears twice. */
  predicate Distinct<T(==)>(s: seq<T>) {
    forall a, b :: 0 <= a < b < |s| ==> s[a] != s[b]
  }

  function Count<T(==)>(s: seq<T>, x: T): (k: nat) {
    if |s| == 0 then 0
    else (if s[0] == x then 1 else 0) + Count(s[1..], x)
  }

  /** The interfaces the chain wires are exactly: h0-eth0, eth1 of every router,
      and eth2 of every router but the last. */
  predicate Wired(n: nat, e: Endpoint) {
    || e == Endpoint(Host(0), Eth0)
    || (e.node.Router? && 1 <= e.node.index <= n
        && (e.port == Eth1 || (e.port == Eth2 && e.node.index < n)))
  }

  /** The chain has n links: the origin link first, then one link per pair of
      neighbouring routers, in increasing order (bgpbase.py:50-52). */
  lemma LinksShape(n: nat)
    requires n >= 1
    ensures |Links(n)| == n
    ensures Links(n)[0] == Origin
    ensures forall k :: 1 <= k < n ==> Links(n)[k] == ChainLink(k)
  {
  }

  /** Consecutive links meet at a router: the links form the path h0, r1, ..., rN. */
  lemma LinksFormPath(n: nat)
    requires n >= 1
    ensures Links(n)[0].left.node == Host(0)
    ensures forall k :: 1 <= k < n ==> Links(n)[k - 1].right.node == Links(n)[k].left.node == Router(k)
    ensures Links(n)[n - 1].right.node == Router(n)
  {
  }

  /** Membership of an interface end in the wired chain, both directions. */
  lemma EndpointsWired(n: nat, e: Endpoint)
    requires n >= 1
    ensures e in Endpoints(Links(n)) <==> Wired(n, e)
  {
    var es := Endpoints(Links(n));
    if Wired(n, e) {
      var j: nat := if e.node.Host? then 0
                    else if e.port == Eth1 then 2 * e.node.index - 1
                    else 2 * e.node.index;
      ChainEndAt(n, j);
      assert es[j] == e;
    }
    if e in es {
      var j :| 0 <= j < |es| && es[j] == e;
      ChainEndAt(n, j);
    }
  }

  /** No interface is wired twice. */
  lemma EndpointsDistinct(n: nat)
    requires n >= 1
    ensures Distinct(Endpoints(Links(n)))
  {
    var es := Endpoints(Links(n));
    forall a, b | 0 <= a < b < |es| ensures es[a] != es[b] {
      ChainEndAt(n, a);
      ChainEndAt(n, b);
    }
  }

  lemma {:induction false} CountDistinct<T>(s: seq<T>, x: T)
    requires Distinct(s)
    ensures Count(s, x) == if x in s then 1 else 0
  {
    if |s| > 0 {
      assert Distinct(s[1..]);
      CountDistinct(s[1..], x);
      if s[0] == x {
        assert x !in s[1..];
      } else {
        assert x in s ==> x in s[1..];
      }
    }
  }

  /** Each router's eth1 is used exactly once, each non-last router's eth2
      exactly once, and the last router's eth2 never (bgpbase.py:50-52). */
  lemma WiredOnce(n: nat, i: nat)
    requires n >= 1
    ensures 1 <= i <= n ==> Count(Endpoints(Links(n)), Endpoint(Router(i), Eth1)) == 1
    ensures 1 <= i < n ==> Count(Endpoints(Links(n)), Endpoint(Router(i), Eth2)) == 1
    ensures Count(Endpoints(Links(n)), Endpoint(Router(n), Eth2)) == 0
  {
    EndpointsDistinct(n);
    var es := Endpoints(Links(n));
    EndpointsWired(n, Endpoint(Router(i), Eth1));
    EndpointsWired(n, Endpoint(Router(i), Eth2));
    EndpointsWired(n, Endpoint(Router(n), Eth2));
    CountDistinct(es, Endpoint(Router(i), Eth1));
    CountDistinct(es, Endpoint(Router(i), Eth2));
    CountDistinct(es, Endpoint(Router(n), Eth2));
  }

  /** Node names are distinct for distinct nodes. */
  lemma NodeNameInjective(a: Node, b: Node)
    ensures NodeName(a) == NodeName(b) <==> a == b
  {
    if NodeName(a) == NodeName(b) {
      var sa, sb := NodeName(a), NodeName(b);
      assert sa[0] == sb[0];
      assert sa[1..] == NatToString(a.index);
      assert sb[1..] == NatToString(b.index);
      NatToStringInjective(a.index, b.index);
    }
  }

  lemma NodeNameFree(n: Node, c: char)
    requires !IsDigit(c) && c != 'h' && c != 'r'
    ensures Text.Free(NodeName(n), c)
  {
    NatToStringFree(n.index, c);
    Text.FreeConcat(if n.Host? then "h" else "r", NatToString(n.index), c);
  }

  /** Distinct interface ends get distinct interface names. */
  lemma IfaceNameInjective(a: Endpoint, b: Endpoint)
    ensures IfaceName(a) == IfaceName(b) <==> a == b
  {
    if IfaceName(a) == IfaceName(b) {
      var ta := "eth" + NatToString(PortNumber(a.port));
      var tb := "eth" + NatToString(PortNumber(b.port));
      NodeNameFree(a.node, '-');
      NodeNameFree(b.node, '-');
      assert IfaceName(a) == NodeName(a.node) + ['-'] + ta;
      assert IfaceName(b) == NodeName(b.node) + ['-'] + tb;
      Text.CutInjective(NodeName(a.node), ta, NodeName(b.node), tb, '-');
      NodeNameInjective(a.node, b.node);
      assert ta[3..] == NatToString(PortNumber(a.port));
      assert tb[3..] == NatToString(PortNumber(b.port));
      NatToStringInjective(PortNumber(a.port), PortNumber(b.port));
    }
  }

  /** Every interface name used by the chain is different from every other. */
  lemma IfaceNamesDistinct(n: nat)
    requires n >= 1
    ensures forall a, b :: 0 <= a < b < 2 * n ==>
      IfaceName(Endpoints(Links(n))[a]) != IfaceName(Endpoints(Links(n))[b])
  {
    var es := Endpoints(Links(n));
    EndpointsDistinct(n);
    forall a, b | 0 <= a < b < 2 * n ensures IfaceName(es[a]) != IfaceName(es[b]) {
      IfaceNameInjective(es[a], es[b]);
    }
  }

  /** The interface names `build` passes literally, for one chain link and the origin. */
  lemma LinkNames(i: nat)
    ensures IfaceName(Origin.left) == "h0-eth0"
    ensures IfaceName(Origin.right) == "r1-eth1"
    ensures IfaceName(ChainLink(i).left) == "r" + NatToString(i) + "-eth2"
    ensures IfaceName(ChainLink(i).right) == "r" + NatToString(i + 1) + "-eth1"
  {
  }
}
