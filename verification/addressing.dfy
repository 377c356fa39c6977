/** The script's IPv4 address formatter `ip(subnet, host, prefix)` and its inverse.
    Every address of the chain lives in 10.0.0.0/16: the third octet is a
    subnet number and the fourth a host byte. */
module Addressing {
  import opened Wrappers
  import opened Decimal
  import Text

  /** The three numbers `ip` is called with; `prefix` is `None` for the default. */
  datatype Address = Address(subnet: int, host: int, prefix: Option<int>)

  /** `ip(subnet, host, prefix)` (bgpbase.py:97-100). */
  function Ip(subnet: int, host: int, prefix: Option<int>): (s: string) {
    var addr := "10.0." + IntToString(subnet) + "." + IntToString(host);
    if prefix.Some? then addr + "/" + IntToString(prefix.value) else addr
  }

  function Format(a: Address): (s: string) {
    Ip(a.subnet, a.host, a.prefix)
  }

  /** Reads `10.0.<subnet>.<host>[/<prefix>]` back into its three numbers. */
  function ParseIp(s: string): (r: Option<Address>) {
    var slash := Text.Split(s, '/');
    var dots := Text.Split(slash[0], '.');
    if |slash| > 2 || |dots| != 4 || dots[0] != "10" || dots[1] != "0" then None
    else
      match (ParseInt(dots[2]), ParseInt(dots[3]))
      case (Some(subnet), Some(host)) =>
        if |slash| == 1 then Some(Address(subnet, host, None))
        else (
          match ParseInt(slash[1])
          case Some(p) => Some(Address(subnet, host, Some(p)))
          case None => None)
      case _ => None
  }

  /** Two addresses lie in the same /24 network: their first three octets agree. */
  predicate SameNetwork(a: Address, b: Address) {
    a.subnet == b.subnet
  }

  /** Every octet is a byte and the prefix, if any, is a valid IPv4 prefix length. */
  predicate WellFormed(a: Address) {
    0 <= a.subnet <= 255 && 0 <= a.host <= 255
    && (a.prefix.Some? ==> 0 <= a.prefix.value <= 32)
  }

  /** The dotted part of an address, as a join of its four octet strings. */
  lemma DottedIsJoin(subnet: int, host: int)
    ensures Ip(subnet, host, None)
         == Text.Join(["10", "0", IntToString(subnet), IntToString(host)], '.')
    ensures Text.Free(Ip(subnet, host, None), '/')
  {
    var a, b := IntToString(subnet), IntToString(host);
    var parts := ["10", "0", a, b];
    assert parts[1..][1..][1..] == [b];
    assert parts[1..][1..] == [a, b];
    assert parts[1..] == ["0", a, b];
    calc {
      Text.Join(parts, '.');
      "10" + "." + Text.Join(["0", a, b], '.');
      "10" + "." + ("0" + "." + Text.Join([a, b], '.'));
      "10" + "." + ("0" + "." + (a + "." + b));
      "10.0." + a + "." + b;
    }
    IntToStringFree(subnet, '/');
    IntToStringFree(host, '/');
    Text.JoinFree(parts, '.', '/');
  }

  /** The four dot-separated fields of a printed address. */
  lemma DottedFields(subnet: int, host: int)
    ensures Text.Split(Ip(subnet, host, None), '.')
         == ["10", "0", IntToString(subnet), IntToString(host)]
  {
    DottedIsJoin(subnet, host);
    IntToStringFree(subnet, '.');
    IntToStringFree(host, '.');
    Text.SplitJoin(["10", "0", IntToString(subnet), IntToString(host)], '.');
  }

  lemma ParseFormat(a: Address)
    ensures ParseIp(Format(a)) == Some(a)
  {
    var dotted := Ip(a.subnet, a.host, None);
    DottedIsJoin(a.subnet, a.host);
    DottedFields(a.subnet, a.host);
    ParseIntRoundTrip(a.subnet, "");
    ParseIntRoundTrip(a.host, "");
    match a.prefix {
      case None =>
        Text.SplitJoin([dotted], '/');
      case Some(p) =>
        IntToStringFree(p, '/');
        Text.SplitJoin([dotted, IntToString(p)], '/');
        ParseIntRoundTrip(p, "");
    }
  }

  lemma FormatParse(a: Address, s: string)
    requires ParseIp(s) == Some(a)
    ensures Format(a) == s
  {
    var slash := Text.Split(s, '/');
    var dots := Text.Split(slash[0], '.');
    Text.JoinSplit(s, '/');
    Text.JoinSplit(slash[0], '.');
    ParseIntRoundTrip(a.subnet, dots[2]);
    ParseIntRoundTrip(a.host, dots[3]);
    DottedIsJoin(a.subnet, a.host);
    assert dots == ["10", "0", IntToString(a.subnet), IntToString(a.host)] by {
      assert dots == [dots[0], dots[1], dots[2], dots[3]];
    }
    assert slash[0] == Ip(a.subnet, a.host, None);
    if |slash| == 2 {
      ParseIntRoundTrip(a.prefix.value, slash[1]);
      assert slash == [slash[0], slash[1]];
    } else {
      assert slash == [slash[0]];
    }
  }

  /** `ParseIp` inverts `ip`: a string reads back to some numbers exactly when
      it is what `ip` prints for them. With `s := Format(a)` this says every
      printed address reads back to its own numbers. */
  lemma ParseIpRoundTrip(a: Address, s: string)
    ensures ParseIp(s) == Some(a) <==> s == Format(a)
  {
    ParseFormat(a);
    if ParseIp(s) == Some(a) {
      FormatParse(a, s);
    }
  }

  /** Different argument triples always print as different strings. */
  lemma IpInjective(a: Address, b: Address)
    ensures Format(a) == Format(b) <==> a == b
  {
    ParseIpRoundTrip(a, Format(a));
    ParseIpRoundTrip(b, Format(b));
  }

  /** Giving a prefix appends `/<prefix>` to the prefix-less address and
      changes nothing else; the example from the comment at bgpbase.py:96. */
  lemma IpPrefixAppends(subnet: int, host: int, p: int)
    ensures Ip(subnet, host, Some(p)) == Ip(subnet, host, None) + "/" + IntToString(p)
    ensures Ip(4, 2, None) == "10.0.4.2"
    ensures Ip(4, 2, Some(24)) == "10.0.4.2/24"
  {
    assert NatToString(24) == "24" by {
      assert NatToString(2) == "2";
    }
  }
}
