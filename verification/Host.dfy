/** Host rules of the net table: the fixed shapes, and which destinations they cover. */
module Host {
  import opened Wrappers
  import opened Bits

  /** The number of IPv4 addresses, two to the power 32. */
  const V4_SPACE: nat := 0x1_0000_0000

  /** An address as the number its octets spell in network order. */
  datatype Ip = V4(value: nat) | V6(value: nat) {
    function Width(): nat {
      if V4? then 32 else 128
    }

    predicate Valid() {
      if V4? then value < V4_SPACE else value < Pow2(128)
    }
  }

  datatype HostRule =
    | Any
    | Exact(name: string)
    | Suffix(suffix: string)
    | Address(ip: Ip)
    | Cidr(addr: Ip, prefix: nat)

  datatype HostError = Empty | InvalidHostname | InvalidWildcard | InvalidCidr

  // ----- IPv4-mapped addresses, section 2.5.5.2 of RFC 4291 -----

  /** `::ffff:a.b.c.d`: 80 zero bits, 16 one bits, then the IPv4 address. */
  predicate Mapped(v6: nat) {
    v6 / V4_SPACE == 0xffff
  }

  function MappedForm(v4: nat): nat {
    0xffff * V4_SPACE + v4
  }

  function ToIpv4Mapped(v6: nat): Option<nat> {
    if Mapped(v6) then Some(v6 % V4_SPACE) else None
  }

  function NormalizeIp(ip: Ip): (r: Ip)
    ensures r.V6? ==> !Mapped(r.value)
    ensures ip.Valid() ==> r.Valid()
  {
    if ip.V6? && Mapped(ip.value) then V4(ip.value % V4_SPACE) else ip
  }

  lemma ValidFitsWidth(ip: Ip)
    ensures ip.Valid() <==> ip.value < Pow2(ip.Width())
  {
    Pow2Words();
  }

  lemma MappedFormIsMapped(v4: nat)
    requires v4 < V4_SPACE
    ensures Mapped(MappedForm(v4)) && NormalizeIp(V6(MappedForm(v4))) == V4(v4)
    ensures V6(MappedForm(v4)).Valid()
  {
    Pow2Words();
    Pow2Add(64, 64);
  }

  // ----- prefix masks, section 3.1 of RFC 4632 -----

  /** The network mask: a zero prefix is handled on its own because shifting a word by its
      full width is undefined. */
  function Mask(width: nat, prefix: nat): nat
    requires prefix <= width
  {
    if prefix == 0 then 0 else ShiftLeft(Pow2(width) - 1, width - prefix, width)
  }

  predicate CidrContains(addr: Ip, prefix: nat, ip: Ip)
    requires prefix <= addr.Width()
  {
    && addr.V4? == ip.V4?
    && And(addr.value, Mask(addr.Width(), prefix)) == And(ip.value, Mask(addr.Width(), prefix))
  }

  /** The reference reading of a block: same family and the same leading `prefix` bits. */
  ghost predicate InBlock(addr: Ip, prefix: nat, ip: Ip)
    requires prefix <= addr.Width()
  {
    && addr.V4? == ip.V4?
    && forall i :: addr.Width() - prefix <= i < addr.Width() ==> (Bit(addr.value, i) <==> Bit(ip.value, i))
  }

  lemma ShiftedRemainder(w: nat, s: nat)
    requires 0 < s <= w
    ensures ((w - 1) * s) % w == w - s
  {
    var a := (w - 1) * s;
    assert a == w * s - s;
    assert (s - 1) * w == w * s - w;
    DivUnique(a, w, s - 1, w - s);
    assert a == w * (a / w) + a % w;
    assert w * (s - 1) == (s - 1) * w;
  }

  lemma MaskIsHighBits(width: nat, prefix: nat)
    requires 0 < prefix <= width
    ensures Pow2(width) >= Pow2(width - prefix)
    ensures Mask(width, prefix) == Pow2(width) - Pow2(width - prefix)
  {
    hide Pow2;
    HighMask(width - prefix, width);
    ShiftedRemainder(Pow2(width), Pow2(width - prefix));
  }

  lemma MaskedQuotient(a: nat, width: nat, prefix: nat)
    requires 0 < prefix <= width && a < Pow2(width)
    ensures And(a, Mask(width, prefix)) == (a / Pow2(width - prefix)) * Pow2(width - prefix)
  {
    MaskIsHighBits(width, prefix);
    AndHighMask(a, width - prefix, width);
  }

  lemma CidrIsSharedQuotient(addr: Ip, prefix: nat, ip: Ip)
    requires prefix <= addr.Width() && addr.Valid() && ip.Valid() && addr.V4? == ip.V4?
    ensures CidrContains(addr, prefix, ip) <==>
            addr.value / Pow2(addr.Width() - prefix) == ip.value / Pow2(addr.Width() - prefix)
  {
    var a, b, w := addr.value, ip.value, addr.Width();
    ValidFitsWidth(addr);
    ValidFitsWidth(ip);
    if prefix == 0 {
      DivUnique(a, Pow2(w), 0, a);
      DivUnique(b, Pow2(w), 0, b);
      assert And(a, 0) == 0 && And(b, 0) == 0;
    } else {
      MaskedQuotient(a, w, prefix);
      MaskedQuotient(b, w, prefix);
      SameMultiple(a, b, Pow2(w - prefix));
    }
  }

  /** The masked comparison holds exactly when the leading bits agree, at every prefix. */
  lemma CidrAgreesOnLeadingBits(addr: Ip, prefix: nat, ip: Ip)
    requires prefix <= addr.Width() && addr.Valid() && ip.Valid()
    ensures CidrContains(addr, prefix, ip) <==> InBlock(addr, prefix, ip)
  {
    if addr.V4? == ip.V4? {
      ValidFitsWidth(addr);
      ValidFitsWidth(ip);
      CidrIsSharedQuotient(addr, prefix, ip);
      SameHighBits(addr.value, ip.value, addr.Width() - prefix, addr.Width());
    }
  }

  /** A longer prefix denotes a smaller block. */
  lemma CidrMonotone(addr: Ip, shorter: nat, longer: nat, ip: Ip)
    requires shorter <= longer <= addr.Width() && addr.Valid() && ip.Valid()
    requires CidrContains(addr, longer, ip)
    ensures CidrContains(addr, shorter, ip)
  {
    CidrAgreesOnLeadingBits(addr, longer, ip);
    CidrAgreesOnLeadingBits(addr, shorter, ip);
  }

  // ----- parsing -----

  predicate ValidLabel(part: string) {
    && 1 <= |part| <= 63
    && part[0] != '-' && part[|part| - 1] != '-'
    && forall k :: 0 <= k < |part| ==>
      'a' <= part[k] <= 'z' || 'A' <= part[k] <= 'Z' || '0' <= part[k] <= '9' || part[k] == '-'
  }

  function SplitDots(s: string): (labels: seq<string>)
    ensures |labels| >= 1
  {
    if s == "" then [""]
    else
      var rest := SplitDots(s[1..]);
      if s[0] == '.' then [""] + rest else [[s[0]] + rest[0]] + rest[1..]
  }

  predicate ValidHostname(host: string) {
    && 1 <= |host| <= 253
    && forall k :: 0 <= k < |SplitDots(host)| ==> ValidLabel(SplitDots(host)[k])
  }

  function LowerChar(c: char): char {
    if 'A' <= c <= 'Z' then c - 'A' + 'a' else c
  }

  function Lower(s: string): (r: string)
    ensures |r| == |s|
  {
    seq(|s|, i requires 0 <= i < |s| => LowerChar(s[i]))
  }

  /** The text up to and after the first slash. */
  function SplitOnce(s: string): Option<(string, string)> {
    if s == "" then None
    else if s[0] == '/' then Some(("", s[1..]))
    else match SplitOnce(s[1..])
      case None => None
      case Some((a, b)) => Some(([s[0]] + a, b))
  }

  function ParseCidr(addr: Option<Ip>, prefix: Option<nat>): Result<HostRule, HostError> {
    if addr.None? || prefix.None? then Err(InvalidCidr)
    else if prefix.value > addr.value.Width() then Err(InvalidCidr)
    else if addr.value.V6? && Mapped(addr.value.value) then
      if prefix.value < 96 then Err(InvalidCidr)
      else Ok(Cidr(V4(addr.value.value % V4_SPACE), prefix.value - 96))
    else Ok(Cidr(addr.value, prefix.value))
  }

  /** `HostRule::parse`. The standard library's readers of addresses and of u8 numbers are the
      parameters `ipOf` and `byteOf`. The order of the checks is significant. */
  function Parse(host: string, ipOf: string -> Option<Ip>, byteOf: string -> Option<nat>): Result<HostRule, HostError> {
    if host == "" then Err(Empty)
    else if host == "*" then Ok(Any)
    else if "*." <= host then
      (if ValidHostname(host[2..]) then Ok(Suffix(Lower(host[2..]))) else Err(InvalidWildcard))
    else match SplitOnce(host)
      case Some((addr, prefix)) => ParseCidr(ipOf(addr), byteOf(prefix))
      case None =>
        match ipOf(host)
        case Some(ip) => Ok(Address(NormalizeIp(ip)))
        case None => if ValidHostname(host) then Ok(Exact(Lower(host))) else Err(InvalidHostname)
  }

  /** What every accepted rule satisfies: prefixes fit their family, so no mask shift overflows,
      no stored address is IPv4-mapped unless its block reaches beyond the mapped range, and
      stored names are lower case. */
  ghost predicate WellFormed(rule: HostRule) {
    match rule
    case Any => true
    case Exact(name) => name == Lower(name) && ValidHostname(name)
    case Suffix(suffix) => suffix == Lower(suffix) && ValidHostname(suffix)
    case Address(ip) => ip.Valid() && (ip.V6? ==> !Mapped(ip.value))
    case Cidr(addr, prefix) => addr.Valid() && prefix <= addr.Width() && (addr.V6? ==> !Mapped(addr.value))
  }

  lemma LowerIdempotent(s: string)
    ensures Lower(Lower(s)) == Lower(s)
  {}

  lemma {:induction false} SplitDotsLower(s: string)
    ensures |SplitDots(Lower(s))| == |SplitDots(s)|
    ensures forall k :: 0 <= k < |SplitDots(s)| ==> SplitDots(Lower(s))[k] == Lower(SplitDots(s)[k])
  {
    LowerNothing();
    if s != "" {
      hide SplitDots, Lower, LowerChar;
      SplitDotsLower(s[1..]);
      LowerMore(s[0], s[1..]);
      LabelsOfMore(s[0], s[1..]);
      LabelsOfMore(LowerChar(s[0]), Lower(s[1..]));
      assert [s[0]] + s[1..] == s;
      LowerMore(s[0], SplitDots(s[1..])[0]);
    }
  }

  lemma LowerNothing()
    ensures Lower("") == "" && SplitDots("") == [""]
  {}

  lemma LowerMore(c: char, s: string)
    ensures Lower([c] + s) == [LowerChar(c)] + Lower(s)
    ensures LowerChar(c) == '.' <==> c == '.'
  {}

  lemma LabelsOfMore(c: char, s: string)
    ensures SplitDots([c] + s) == if c == '.' then [""] + SplitDots(s) else [[c] + SplitDots(s)[0]] + SplitDots(s)[1..]
  {
    assert ([c] + s)[1..] == s;
  }

  lemma HostnameLower(s: string)
    requires ValidHostname(s)
    ensures ValidHostname(Lower(s))
  {
    SplitDotsLower(s);
    forall k | 0 <= k < |SplitDots(Lower(s))| ensures ValidLabel(SplitDots(Lower(s))[k]) {
      assert ValidLabel(SplitDots(s)[k]);
    }
  }

  lemma ParsedRulesAreWellFormed(host: string, ipOf: string -> Option<Ip>, byteOf: string -> Option<nat>)
    requires forall s :: ipOf(s).Some? ==> ipOf(s).value.Valid()
    requires Parse(host, ipOf, byteOf).Ok?
    ensures WellFormed(Parse(host, ipOf, byteOf).value)
  {
    match Parse(host, ipOf, byteOf).value
    case Any =>
    case Exact(name) => LowerIdempotent(host); HostnameLower(host);
    case Suffix(suffix) => LowerIdempotent(host[2..]); HostnameLower(host[2..]);
    case Address(_) =>
    case Cidr(_, _) =>
  }

  lemma {:induction false} CharInLabel(s: string, i: nat)
    requires i < |s| && s[i] != '.'
    ensures exists k :: 0 <= k < |SplitDots(s)| && s[i] in SplitDots(s)[k]
  {
    var rest := SplitDots(s[1..]);
    if i == 0 {
      assert s[0] in SplitDots(s)[0];
    } else {
      CharInLabel(s[1..], i - 1);
      var k :| 0 <= k < |rest| && s[i] in rest[k];
      if s[0] == '.' {
        assert SplitDots(s)[k + 1] == rest[k];
      } else if k == 0 {
        assert s[i] in SplitDots(s)[0];
      } else {
        assert SplitDots(s)[k] == rest[k];
      }
    }
  }

  lemma NamesArePlain(host: string)
    requires ValidHostname(host)
    ensures '/' !in host && '*' !in host
  {
    forall i | 0 <= i < |host| ensures host[i] != '/' && host[i] != '*' {
      if host[i] != '.' {
        CharInLabel(host, i);
        var k :| 0 <= k < |SplitDots(host)| && host[i] in SplitDots(host)[k];
        assert ValidLabel(SplitDots(host)[k]);
      }
    }
  }

  lemma {:induction false} SplitOnceAt(addr: string, rest: string)
    requires '/' !in addr
    ensures SplitOnce(addr + "/" + rest) == Some((addr, rest))
  {
    var s := addr + "/" + rest;
    if addr == "" {
      assert s[1..] == rest;
    } else {
      assert s[1..] == addr[1..] + "/" + rest;
      SplitOnceAt(addr[1..], rest);
      assert [addr[0]] + addr[1..] == addr;
    }
  }

  lemma {:induction false} NothingToSplit(s: string)
    requires '/' !in s
    ensures SplitOnce(s) == None
  {
    if s != "" {
      NothingToSplit(s[1..]);
    }
  }

  /** A rule is read as it is written: a star alone is anything and nothing else is; a star and a dot
      before a name is its subdomains; a slash makes a block; an address is itself, normalized; and
      what is left is a name, in lower case. */
  lemma RulesAreReadAsWritten(text: string, addr: string, prefix: string, ipOf: string -> Option<Ip>,
                              byteOf: string -> Option<nat>)
    ensures Parse(text, ipOf, byteOf) == Ok(Any) <==> text == "*"
    ensures ValidHostname(text) ==> Parse("*." + text, ipOf, byteOf) == Ok(Suffix(Lower(text)))
    ensures ValidHostname(text) && ipOf(text) == None ==> Parse(text, ipOf, byteOf) == Ok(Exact(Lower(text)))
    ensures text != "" && '*' !in text && '/' !in text && ipOf(text).Some? ==>
              Parse(text, ipOf, byteOf) == Ok(Address(NormalizeIp(ipOf(text).value)))
    ensures '*' !in addr && '/' !in addr ==>
              Parse(addr + "/" + prefix, ipOf, byteOf) == ParseCidr(ipOf(addr), byteOf(prefix))
  {
    hide ValidHostname, Lower, NormalizeIp;
    assert ("*." + text)[2..] == text;
    if '/' !in text {
      NothingToSplit(text);
    }
    if ValidHostname(text) {
      NamesArePlain(text);
      NothingNamed();
    }
    if '*' !in addr && '/' !in addr {
      SplitOnceAt(addr, prefix);
      assert (addr + "/" + prefix)[0] == (if addr == "" then '/' else addr[0]);
    }
  }

  lemma NothingNamed()
    ensures !ValidHostname("")
  {}

  // ----- matching -----

  predicate MatchesIp(rule: HostRule, ip: Ip)
    requires rule.Cidr? ==> rule.prefix <= rule.addr.Width()
  {
    match rule
    case Any => true
    case Address(a) => a == ip
    case Cidr(addr, prefix) => CidrContains(addr, prefix, ip)
    case Exact(_) | Suffix(_) => false
  }

  predicate MatchesHostname(rule: HostRule, name: string) {
    match rule
    case Any => true
    case Exact(h) => Lower(name) == Lower(h)
    case Suffix(suffix) =>
      var n := Lower(name);
      && |n| > |suffix| + 1
      && n[|n| - |suffix|..] == suffix
      && n[|n| - |suffix| - 1] == '.'
    case Address(_) | Cidr(_, _) => false
  }

  /** A wildcard covers strict subdomains only: some nonempty text, a dot, the suffix. */
  lemma SuffixCoversStrictSubdomains(suffix: string, name: string)
    ensures MatchesHostname(Suffix(suffix), name) <==>
            exists sub :: sub != "" && Lower(name) == sub + "." + suffix
  {
    var n := Lower(name);
    if MatchesHostname(Suffix(suffix), name) {
      var sub := n[..|n| - |suffix| - 1];
      assert n == sub + "." + suffix;
    }
    if sub :| sub != "" && n == sub + "." + suffix {
      assert n[|n| - |suffix|..] == suffix;
    }
  }

  /** Rewriting a mapped block `/p` to the IPv4 block `/(p - 96)` accepts exactly the IPv4
      addresses whose mapped forms the block contained. */
  lemma MappedBlockRewrite(v6: nat, prefix: nat, v4: nat)
    requires V6(v6).Valid() && Mapped(v6) && 96 <= prefix <= 128 && v4 < V4_SPACE
    ensures CidrContains(V4(v6 % V4_SPACE), prefix - 96, V4(v4)) <==>
            CidrContains(V6(v6), prefix, V6(MappedForm(v4)))
  {
    var s, w4 := 128 - prefix, v6 % V4_SPACE;
    MappedIsItsForm(v6);
    MappedFormIsMapped(v4);
    CidrIsSharedQuotient(V4(w4), prefix - 96, V4(v4));
    CidrIsSharedQuotient(V6(v6), prefix, V6(MappedForm(v4)));
    MappedQuotient(w4, s);
    MappedQuotient(v4, s);
  }

  lemma MappedIsItsForm(v6: nat)
    requires Mapped(v6)
    ensures v6 == MappedForm(v6 % V4_SPACE) && v6 % V4_SPACE < V4_SPACE
  {}

  lemma MappedQuotient(v4: nat, s: nat)
    requires v4 < V4_SPACE && s <= 32
    ensures MappedForm(v4) / Pow2(s) == 0xffff * Pow2(32 - s) + v4 / Pow2(s)
  {
    Pow2Add(32 - s, s);
    Pow2Words();
    MulAssoc(0xffff, Pow2(32 - s), Pow2(s));
    DivOfSum(0xffff * Pow2(32 - s), Pow2(s), v4);
  }

  /** A block contains mapped and unmapped addresses at once only with fewer than 96 bits. */
  lemma LongBlocksStayMapped(v6: nat, prefix: nat, d: nat)
    requires V6(v6).Valid() && V6(d).Valid() && 96 <= prefix <= 128
    requires CidrContains(V6(v6), prefix, V6(d))
    ensures Mapped(v6) <==> Mapped(d)
  {
    CidrMonotone(V6(v6), 96, prefix, V6(d));
    CidrIsSharedQuotient(V6(v6), 96, V6(d));
    Pow2Words();
  }

  /** A mapped block, rewritten at parse time, covers a normalized destination exactly when the
      block as written contains it. */
  lemma MappedBlockCoversNormalized(addr: nat, prefix: nat, d: nat)
    requires V6(addr).Valid() && V6(d).Valid() && Mapped(addr) && 96 <= prefix <= 128
    ensures MatchesIp(Cidr(V4(addr % V4_SPACE), prefix - 96), NormalizeIp(V6(d))) <==>
            CidrContains(V6(addr), prefix, V6(d))
  {
    if Mapped(d) {
      MappedIsItsForm(d);
      MappedBlockRewrite(addr, prefix, d % V4_SPACE);
    } else if CidrContains(V6(addr), prefix, V6(d)) {
      LongBlocksStayMapped(addr, prefix, d);
    }
  }

  /** Destinations reach the rules normalized. For an accepted IPv6 block the rule then covers
      the destination exactly when the block as written does, except in one family of cases: an
      unmapped address with a short prefix whose block swallows the mapped range. There the
      block contains the destination and the rule does not match it. */
  lemma AcceptedBlockCoversNormalized(addr: nat, prefix: nat, d: nat)
    requires V6(addr).Valid() && V6(d).Valid() && prefix <= 128
    requires ParseCidr(Some(V6(addr)), Some(prefix)).Ok?
    ensures MatchesIp(ParseCidr(Some(V6(addr)), Some(prefix)).value, NormalizeIp(V6(d))) <==>
            CidrContains(V6(addr), prefix, V6(d)) && (Mapped(d) ==> Mapped(addr))
  {
    if Mapped(addr) {
      MappedBlockCoversNormalized(addr, prefix, d);
    }
  }

  /** The exception is real: `::/0` contains `::ffff:0.0.0.0`, and its rule never matches it. */
  lemma ShortBlockMissesMapped()
    ensures ParseCidr(Some(V6(0)), Some(0)).Ok?
    ensures CidrContains(V6(0), 0, V6(MappedForm(0)))
    ensures !MatchesIp(ParseCidr(Some(V6(0)), Some(0)).value, NormalizeIp(V6(MappedForm(0))))
  {
    MappedFormIsMapped(0);
    assert 0 / V4_SPACE == 0;
    assert And(MappedForm(0), 0) == 0;
  }
}
