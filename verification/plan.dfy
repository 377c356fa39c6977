/** The address plan `run` applies to the chain (bgpbase.py:64-69), and how it
    fits the links `RTopo.build` wires and the hosts the header documents. */
module AddressPlan {
  import opened Wrappers
  import opened Decimal
  import opened Addressing
  import opened Topology
  import Text

  /** Every router interface is configured as a /24. */
  const PrefixLength := 24

  /** The address `run` gives interface `port` of router i: eth0 faces the
      router's own host on subnet 10i, eth1 the previous node on subnet i-1,
      eth2 the next router on subnet i. */
  function InterfaceAddress(i: int, port: Port): (a: Address) {
    match port
    case Eth0 => Address(10 * i, 1, Some(PrefixLength))
    case Eth1 => Address(i - 1, 2, Some(PrefixLength))
    case Eth2 => Address(i, 1, Some(PrefixLength))
  }

  /** The address an interface end is configured with; `run` configures
      routers only, so h0 has none. */
  function AddressOf(e: Endpoint): (r: Option<Address>) {
    match e.node
    case Host(_) => None
    case Router(i) => Some(InterfaceAddress(i, e.port))
  }

  /** The three `ifconfig` commands `run` issues on router i
      (bgpbase.py:67-69). Each format string `'ifconfig {}-eth<k> 10.0.{}.<h>/24'`
      is three words with one blank between neighbours; they are written out
      here as the script writes them, without calling `ip`. */
  function IfconfigCommands(i: nat): (cmds: seq<string>)
    ensures |cmds| == 3
  {
    var rname := "r" + NatToString(i);
    [ Text.Join(["ifconfig", rname + "-eth0", "10.0." + IntToString(10 * i) + ".1/24"], ' '),
      Text.Join(["ifconfig", rname + "-eth1", "10.0." + IntToString(i - 1) + ".2/24"], ' '),
      Text.Join(["ifconfig", rname + "-eth2", "10.0." + IntToString(i) + ".1/24"], ' ') ]
  }

  /** The documented address of host hi, 10.0.(10i).10 (bgpbase.py:21). */
  function HostAddress(i: int): (a: Address) {
    Address(10 * i, 10, None)
  }

  /** The documented default route of host hi (bgpbase.py:74-75). */
  function DefaultGateway(i: int): (a: Address) {
    Address(10 * i, 1, None)
  }

  /** Two interfaces carry the same IPv4 address (prefix length aside). */
  predicate SameHost(a: Address, b: Address) {
    a.subnet == b.subnet && a.host == b.host
  }

  /** No two router interfaces of an n-router chain share an address. */
  predicate PlanUnique(n: int) {
    forall i, j, p, q :: 1 <= i <= n && 1 <= j <= n && (i, p) != (j, q) ==>
      !SameHost(InterfaceAddress(i, p), InterfaceAddress(j, q))
  }

  /** Every router interface of an n-router chain has a well-formed IPv4 address. */
  predicate PlanWellFormed(n: int) {
    forall i, p :: 1 <= i <= n ==> WellFormed(InterfaceAddress(i, p))
  }

  lemma IfaceNameFree(e: Endpoint, c: char)
    requires !IsDigit(c) && c != 'h' && c != 'r' && c != '-' && c != 'e' && c != 't'
    ensures Text.Free(IfaceName(e), c)
  {
    NodeNameFree(e.node, c);
    NatToStringFree(PortNumber(e.port), c);
    Text.FreeConcat(NodeName(e.node), "-eth", c);
    Text.FreeConcat(NodeName(e.node) + "-eth", NatToString(PortNumber(e.port)), c);
  }

  lemma FormatFree(a: Address, c: char)
    requires !IsDigit(c) && c != '-' && c != '.' && c != '/'
    ensures Text.Free(Format(a), c)
  {
    var dotted := Ip(a.subnet, a.host, None);
    IntToStringFree(a.subnet, c);
    IntToStringFree(a.host, c);
    DottedIsJoin(a.subnet, a.host);
    Text.JoinFree(["10", "0", IntToString(a.subnet), IntToString(a.host)], '.', c);
    if a.prefix.Some? {
      IntToStringFree(a.prefix.value, c);
      Text.JoinFree([dotted, IntToString(a.prefix.value)], '/', c);
    }
  }

  /** The words of an `ifconfig` command that assigns `a` to interface end `e`. */
  function IfconfigWords(e: Endpoint, a: Address): (words: seq<string>) {
    ["ifconfig", IfaceName(e), Format(a)]
  }

  lemma SmallNumbers()
    ensures NatToString(0) == "0" && NatToString(1) == "1" && NatToString(2) == "2"
    ensures IntToString(1) == "1" && IntToString(2) == "2" && IntToString(24) == "24"
  {
    assert NatToString(24) == NatToString(2) + "4";
  }

  /** The interface word of an `ifconfig` command is the interface's name. */
  lemma IfconfigNameWord(i: nat, port: Port)
    ensures IfaceName(Endpoint(Router(i), port))
         == "r" + NatToString(i) + ["-eth0", "-eth1", "-eth2"][PortNumber(port)]
  {
    SmallNumbers();
    var k := NatToString(PortNumber(port));
    assert "-eth" + k == ["-eth0", "-eth1", "-eth2"][PortNumber(port)];
  }

  /** The address word of an `ifconfig` command is what `ip` prints for the plan. */
  lemma IfconfigAddressWord(i: nat, port: Port)
    ensures Format(InterfaceAddress(i, port))
         == "10.0." + IntToString(InterfaceAddress(i, port).subnet)
            + [".1/24", ".2/24", ".1/24"][PortNumber(port)]
  {
    var a := InterfaceAddress(i, port);
    SmallNumbers();
    var h := IntToString(a.host);
    assert "10.0." + IntToString(a.subnet) + "." + h + "/" + "24"
        == "10.0." + IntToString(a.subnet) + ("." + h + "/" + "24");
    assert "." + h + "/" + "24" == [".1/24", ".2/24", ".1/24"][PortNumber(port)];
  }

  lemma IfconfigIsJoin(i: nat, port: Port)
    ensures IfconfigCommands(i)[PortNumber(port)]
         == Text.Join(IfconfigWords(Endpoint(Router(i), port), InterfaceAddress(i, port)), ' ')
  {
    IfconfigNameWord(i, port);
    IfconfigAddressWord(i, port);
  }

  /** The literal `ifconfig` strings say exactly what the plan says: read as
      shell words, command k names interface `r<i>-eth<k>` and an address that
      `ip` would print for `InterfaceAddress(i, eth<k>)` (IfconfigAddressReadsBack
      shows that it reads back to that address). */
  lemma IfconfigFollowsPlan(i: nat, port: Port)
    ensures Text.Split(IfconfigCommands(i)[PortNumber(port)], ' ')
         == ["ifconfig", IfaceName(Endpoint(Router(i), port)), Format(InterfaceAddress(i, port))]
  {
    var e := Endpoint(Router(i), port);
    var a := InterfaceAddress(i, port);
    IfconfigIsJoin(i, port);
    IfaceNameFree(e, ' ');
    FormatFree(a, ' ');
    Text.SplitJoin(IfconfigWords(e, a), ' ');
  }

  /** The address word of the k-th `ifconfig` command of router i reads back,
      through the inverse of `ip`, as exactly the plan's address. */
  lemma IfconfigAddressReadsBack(i: nat, port: Port)
    ensures var w := Text.Split(IfconfigCommands(i)[PortNumber(port)], ' ');
      |w| == 3 && ParseIp(w[2]) == Some(InterfaceAddress(i, port))
  {
    IfconfigFollowsPlan(i, port);
    ParseIpRoundTrip(InterfaceAddress(i, port), Format(InterfaceAddress(i, port)));
  }

  /** The addressing convention of the header (bgpbase.py:9-15) holds for the
      links `build` wires: both ends of chain link k (r<k>-eth2 -- r<k+1>-eth1)
      are on subnet k, host byte 1 on the left end and 2 on the right; the
      router end of the origin link is 10.0.0.2 and h0 is left unconfigured. */
  lemma LinksShareSubnet(n: nat)
    requires n >= 1
    ensures AddressOf(Links(n)[0].left) == None
    ensures AddressOf(Links(n)[0].right) == Some(Address(0, 2, Some(PrefixLength)))
    ensures forall k :: 1 <= k < n ==>
      && AddressOf(Links(n)[k].left) == Some(Address(k, 1, Some(PrefixLength)))
      && AddressOf(Links(n)[k].right) == Some(Address(k, 2, Some(PrefixLength)))
  {
    LinksShape(n);
  }

  /** Neighbouring routers i and i+1 put their facing interfaces on one /24. */
  lemma NeighboursShareNetwork(i: int)
    ensures SameNetwork(InterfaceAddress(i, Eth2), InterfaceAddress(i + 1, Eth1))
    ensures InterfaceAddress(i, Eth2).host == 1 && InterfaceAddress(i + 1, Eth1).host == 2
    ensures !SameNetwork(InterfaceAddress(i, Eth1), InterfaceAddress(i, Eth2))
  {
  }

  /** Host hi sits on the /24 of router i's eth0, at a different host byte, and
      its default route is that eth0 address; for h2 it is 10.0.20.1
      (bgpbase.py:20-21, 67, 74-75). */
  lemma HostBesideRouter(i: int)
    ensures SameNetwork(HostAddress(i), InterfaceAddress(i, Eth0))
    ensures !SameHost(HostAddress(i), InterfaceAddress(i, Eth0))
    ensures SameHost(DefaultGateway(i), InterfaceAddress(i, Eth0))
    ensures Format(DefaultGateway(2)) == "10.0.20.1"
    ensures Format(HostAddress(2)) == "10.0.20.10"
  {
    assert NatToString(20) == "20" by { assert NatToString(2) == "2"; }
    assert NatToString(10) == "10" by { assert NatToString(1) == "1"; }
  }

  /** The plan gives distinct interfaces distinct addresses exactly for chains
      of at most nine routers: from ten on, r1-eth0 (10.0.10.1) and r10-eth2
      (10.0.10.1) collide. */
  lemma PlanUniqueIff(n: int)
    ensures PlanUnique(n) <==> n <= 9
  {
    if n >= 10 {
      assert (1, Eth0) != (10, Eth2);
      assert SameHost(InterfaceAddress(1, Eth0), InterfaceAddress(10, Eth2));
    }
  }

  /** Every configured octet is a byte exactly for chains of at most 25
      routers: r26-eth0 would get the third octet 260. */
  lemma PlanWellFormedIff(n: int)
    ensures PlanWellFormed(n) <==> n <= 25
  {
    if n >= 26 {
      assert !WellFormed(InterfaceAddress(26, Eth0));
    }
  }
}
