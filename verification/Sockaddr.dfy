/** Socket addresses as the child laid them out in memory. */
module Sockaddr {
  import opened Wrappers
  import opened Invocations
  import Bits
  import Host

  const AF_INET: nat := 2
  const AF_INET6: nat := 10

  function BigEndian(bytes: seq<Octet>): nat {
    if bytes == [] then 0 else 256 * BigEndian(bytes[..|bytes| - 1]) + bytes[|bytes| - 1]
  }

  /** The destination a socket address names; an IPv4-mapped one names the IPv4 address. */
  function Parse(bytes: seq<Octet>): Option<(Host.Ip, nat)> {
    if |bytes| < 2 then None
    else
      var family := LittleEndian(bytes[..2]);
      if family == AF_INET then
        if |bytes| < 8 then None else Some((Host.V4(BigEndian(bytes[4..8])), BigEndian(bytes[2..4])))
      else if family == AF_INET6 then
        if |bytes| < 28 then None
        else
          var ip := BigEndian(bytes[8..24]);
          Some((match Host.ToIpv4Mapped(ip) case Some(v4) => Host.V4(v4) case None => Host.V6(ip),
                BigEndian(bytes[2..4])))
      else None
  }

  // ----- the layout it inverts -----

  function Octets(n: nat, len: nat): (bytes: seq<Octet>)
    ensures |bytes| == len
  {
    if len == 0 then [] else Octets(n / 256, len - 1) + [n % 256]
  }

  function Power256(len: nat): nat {
    if len == 0 then 1 else 256 * Power256(len - 1)
  }

  lemma {:induction false} OctetsSpell(n: nat, len: nat)
    requires n < Power256(len)
    ensures BigEndian(Octets(n, len)) == n
  {
    if len > 0 {
      OctetsSpell(n / 256, len - 1);
      assert Octets(n, len)[..len - 1] == Octets(n / 256, len - 1);
    }
  }

  lemma {:induction false} BigEndianFits(bytes: seq<Octet>)
    ensures BigEndian(bytes) < Power256(|bytes|)
  {
    if bytes != [] {
      BigEndianFits(bytes[..|bytes| - 1]);
    }
  }

  lemma {:induction false} OctetsAreBits(len: nat)
    ensures Power256(len) == Bits.Pow2(8 * len)
  {
    if len > 0 {
      OctetsAreBits(len - 1);
      Bits.Pow2Add(8, 8 * (len - 1));
      assert Bits.Pow2(4) == 16;
    }
  }

  lemma Power256Words()
    ensures Power256(2) == 0x1_0000 && Power256(4) == 0x1_0000_0000 && Power256(16) == Bits.Pow2(128)
  {
    OctetsAreBits(2);
    OctetsAreBits(4);
    OctetsAreBits(16);
    Bits.Pow2Words();
  }

  lemma SmallFamily(family: Octet)
    ensures LittleEndian([family, 0]) == family
  {
    assert [family, 0][1..] == [0];
    assert LittleEndian([0]) == 0;
  }

  /** `sockaddr_in` (with any padding) or `sockaddr_in6` (with any flow label and scope). */
  function Layout(ip: Host.Ip, port: nat, flow: seq<Octet>, rest: seq<Octet>): seq<Octet> {
    match ip
    case V4(value) => [AF_INET, 0] + Octets(port, 2) + Octets(value, 4) + rest
    case V6(value) => [AF_INET6, 0] + Octets(port, 2) + flow + Octets(value, 16) + rest
  }

  lemma ParseOfV4(bytes: seq<Octet>, value: nat, port: nat)
    requires |bytes| >= 8 && bytes[..2] == [AF_INET, 0] && bytes[2..4] == Octets(port, 2)
    requires bytes[4..8] == Octets(value, 4)
    requires value < Power256(4) && port < Power256(2)
    ensures Parse(bytes) == Some((Host.V4(value), port))
  {
    hide Octets, BigEndian, LittleEndian;
    OctetsSpell(port, 2);
    OctetsSpell(value, 4);
    SmallFamily(AF_INET);
  }

  lemma ParseOfV6(bytes: seq<Octet>, value: nat, port: nat)
    requires |bytes| >= 28 && bytes[..2] == [AF_INET6, 0] && bytes[2..4] == Octets(port, 2)
    requires bytes[8..24] == Octets(value, 16)
    requires value < Power256(16) && port < Power256(2)
    ensures Parse(bytes) == Some((Host.NormalizeIp(Host.V6(value)), port))
  {
    hide Octets, BigEndian, LittleEndian;
    OctetsSpell(port, 2);
    OctetsSpell(value, 16);
    SmallFamily(AF_INET6);
  }

  /** Reading a laid-out address gives the address back, normalized, and its port, whatever the
      fields the decision ignores hold. */
  lemma ParseInvertsLayout(ip: Host.Ip, port: nat, flow: seq<Octet>, rest: seq<Octet>)
    requires ip.Valid() && port < 0x1_0000 && |flow| == 4 && (ip.V6? ==> |rest| >= 4)
    ensures Parse(Layout(ip, port, flow, rest)) == Some((Host.NormalizeIp(ip), port))
  {
    hide Parse, Octets, Power256, Host.Mapped;
    Power256Words();
    var bytes := Layout(ip, port, flow, rest);
    assert bytes[..2] == [if ip.V4? then AF_INET else AF_INET6, 0];
    assert bytes[2..4] == Octets(port, 2);
    match ip
    case V4(value) =>
      assert bytes[4..8] == Octets(value, 4);
      ParseOfV4(bytes, value, port);
    case V6(value) =>
      assert bytes[8..24] == Octets(value, 16);
      ParseOfV6(bytes, value, port);
  }

  /** Every destination read is a valid address in normal form with a 16-bit port, so a mapped
      address cannot slip past the IPv4 rules. */
  lemma ParsedIsNormal(bytes: seq<Octet>)
    requires Parse(bytes).Some?
    ensures var (ip, port) := Parse(bytes).value;
            ip.Valid() && Host.NormalizeIp(ip) == ip && port < 0x1_0000
  {
    Power256Words();
    BigEndianFits(bytes[2..4]);
    if LittleEndian(bytes[..2]) == AF_INET {
      BigEndianFits(bytes[4..8]);
    } else {
      BigEndianFits(bytes[8..24]);
    }
  }
}
