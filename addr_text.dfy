/**
 * The text forms of IPv4 addresses and networks that the firewall initialiser
 * checks with `validate_ipv4` and `validate_cidr` and writes back with
 * `str()`: dotted-quad addresses as CPython's `ipaddress` parses them, and
 * networks written `address/prefix` (section 3.1 of RFC 4632), with a prefix
 * length or a netmask or hostmask after the slash.
 */
module AddrText {
  import opened Results
  import opened Text
  import opened Ipaddress

  function DigitValue(c: char): nat
    requires IsDigit(c)
  {
    c as int - '0' as int
  }

  function DigitChar(d: nat): (c: char)
    requires d < 10
    ensures IsDigit(c) && DigitValue(c) == d
  {
    ('0' as int + d) as char
  }

  /** Python's `int()` on a string of ASCII digits. */
  function DecimalValue(s: string): nat
    requires AllDigits(s)
  {
    if s == [] then 0 else 10 * DecimalValue(s[..|s| - 1]) + DigitValue(s[|s| - 1])
  }

  /** Python's `str()` on a non-negative integer. */
  function DecimalString(n: nat): (s: string)
    ensures s != [] && AllDigits(s)
  {
    if n < 10 then [DigitChar(n)] else DecimalString(n / 10) + [DigitChar(n % 10)]
  }

  /** `int(str(n)) == n`. */
  lemma {:induction false} DecimalRoundTrip(n: nat)
    ensures DecimalValue(DecimalString(n)) == n
  {
    if n >= 10 {
      DecimalRoundTrip(n / 10);
      var s := DecimalString(n);
      assert s[..|s| - 1] == DecimalString(n / 10);
    }
  }

  /** `str(n)` has no leading zero, and three digits at most below 1000. */
  lemma {:induction false} DecimalStringShape(n: nat)
    ensures |DecimalString(n)| == 1 || DecimalString(n)[0] != '0'
    ensures n < 1000 ==> |DecimalString(n)| <= 3
  {
    if n >= 10 {
      DecimalStringShape(n / 10);
      assert DecimalString(n)[0] == DecimalString(n / 10)[0];
    }
  }

  /** A digit string without a leading zero is positive unless it is "0". */
  lemma {:induction false} LeadingDigitPositive(s: string)
    requires s != [] && AllDigits(s) && s[0] != '0'
    ensures DecimalValue(s) >= 1
  {
    if |s| > 1 {
      LeadingDigitPositive(s[..|s| - 1]);
    }
  }

  /** A digit string without a leading zero is the `str()` of its value, so
      that text form is the only one. */
  lemma {:induction false} DecimalStringOfValue(s: string)
    requires s != [] && AllDigits(s) && (|s| == 1 || s[0] != '0')
    ensures DecimalString(DecimalValue(s)) == s
  {
    if |s| > 1 {
      var t, c := s[..|s| - 1], s[|s| - 1];
      LeadingDigitPositive(t);
      DecimalStringOfValue(t);
      var v := DecimalValue(s);
      DivUnique(v, 10, DecimalValue(t), DigitValue(c));
      assert s == t + [c];
    }
  }

  /** CPython's `_parse_octet`: one to three ASCII digits, no leading zero,
      at most 255. */
  function ParseOctet(s: string): (r: Option<nat>)
    ensures r.Some? ==> r.value <= 255
  {
    if s == [] || !AllDigits(s) || |s| > 3 then None
    else if DecimalValue(s) > 255 then None
    else if |s| > 1 && s[0] == '0' then None
    else Some(DecimalValue(s))
  }

  /** The address whose four bytes, most significant first, are the octets. */
  function FromOctets(b0: nat, b1: nat, b2: nat, b3: nat): Addr
    requires b0 <= 255 && b1 <= 255 && b2 <= 255 && b3 <= 255
  {
    b0 * 0x100_0000 + b1 * 0x1_0000 + b2 * 0x100 + b3
  }

  /** The four bytes of an address, most significant first. */
  function Octets(a: Addr): seq<nat> {
    [a / 0x100_0000, a / 0x1_0000 % 0x100, a / 0x100 % 0x100, a % 0x100]
  }

  /** CPython's `_ip_int_from_string` for IPv4: exactly four dot-separated
      octets. */
  function ParseAddr(s: string): Option<Addr> {
    var parts := Split(s, '.');
    if |parts| != 4 then None
    else
      match (ParseOctet(parts[0]), ParseOctet(parts[1]), ParseOctet(parts[2]), ParseOctet(parts[3]))
      case (Some(b0), Some(b1), Some(b2), Some(b3)) => Some(FromOctets(b0, b1, b2, b3))
      case _ => None
  }

  /** `validate_ipv4`: the text is an IPv4 address (an IPv6 address is not). */
  predicate ValidIPv4(s: string) {
    ParseAddr(s).Some?
  }

  /** `str()` of an IPv4 address: the four bytes in decimal, joined by dots. */
  function FormatAddr(a: Addr): string {
    var o := Octets(a);
    Join([DecimalString(o[0]), DecimalString(o[1]), DecimalString(o[2]), DecimalString(o[3])], '.')
  }

  /** The netmask of a prefix length: `len` one bits, then zeros. */
  function Netmask(len: PrefixLen): Addr {
    SizeBound(len);
    0x1_0000_0000 - Size(len)
  }

  /** The prefix length whose netmask is `m`, searching from `len` up. */
  function NetmaskLen(m: Addr, len: PrefixLen): (r: Option<PrefixLen>)
    ensures r.Some? ==> Netmask(r.value) == m
    ensures r.None? ==> forall l: PrefixLen :: len <= l ==> Netmask(l) != m
    decreases 32 - len
  {
    if Netmask(len) == m then Some(len)
    else if len == 32 then None
    else NetmaskLen(m, len + 1)
  }

  /** CPython's `_prefix_from_ip_string`: a netmask, or else a hostmask (the
      complement of a netmask). */
  function MaskPrefix(m: Addr): (r: Option<PrefixLen>)
    ensures r.Some? ==> Netmask(r.value) == m || Netmask(r.value) == 0xFFFF_FFFF - m
    ensures r.None? ==> forall l: PrefixLen :: Netmask(l) != m && Netmask(l) != 0xFFFF_FFFF - m
    ensures (exists l: PrefixLen :: Netmask(l) == m) ==> r.Some? && Netmask(r.value) == m
  {
    var asNetmask := NetmaskLen(m, 0);
    if asNetmask.Some? then asNetmask else NetmaskLen(0xFFFF_FFFF - m, 0)
  }

  /** CPython's `_make_netmask` on the text after the slash: ASCII digits
      with a value of at most 32, or else a dotted-quad mask. */
  function ParsePrefix(s: string): Option<PrefixLen> {
    if s != [] && AllDigits(s) && DecimalValue(s) <= 32 then Some(DecimalValue(s))
    else
      match ParseAddr(s)
      case Some(m) => MaskPrefix(m)
      case None => None
  }

  /** `ip_network(s, strict=False)` for IPv4: an address, at most one slash
      and a prefix (32 when absent); the host bits are cleared. */
  function ParseNetwork(s: string): (r: Option<Network>)
    ensures r.Some? ==> Canonical(r.value)
  {
    var parts := Split(s, '/');
    if |parts| > 2 then None
    else
      var prefix := if |parts| == 2 then ParsePrefix(parts[1]) else Some(32);
      match (ParseAddr(parts[0]), prefix)
      case (Some(a), Some(len)) => Some(Masked(Network(a, len)))
      case _ => None
  }

  /** `validate_cidr`: the text is an IPv4 network. */
  predicate ValidCidr(s: string) {
    ParseNetwork(s).Some?
  }

  /** `str()` of an IPv4 network: its address, a slash, its prefix length. */
  function FormatNetwork(n: Network): string {
    Join([FormatAddr(n.base), DecimalString(n.len)], '/')
  }

  // ---------------------------------------------------------------------
  // Round trips
  // ---------------------------------------------------------------------

  /** An address is the number its four bytes spell. */
  lemma OctetsRoundTrip(a: Addr)
    ensures var o := Octets(a); o[0] <= 255 && o[1] <= 255 && o[2] <= 255 && o[3] <= 255
    ensures var o := Octets(a); FromOctets(o[0], o[1], o[2], o[3]) == a
  {
    var q1 := a / 0x100;
    var q2 := q1 / 0x100;
    var q3 := q2 / 0x100;
    DivDiv(a, 0x100, 0x100);
    DivDiv(a, 0x1_0000, 0x100);
    assert a / 0x1_0000 == q2;
    assert a / 0x100_0000 == q3;
    assert a == 0x100 * q1 + a % 0x100;
    assert q1 == 0x100 * q2 + q1 % 0x100;
    assert q2 == 0x100 * q3 + q2 % 0x100;
  }

  /** The bytes of the number four octets spell are those octets. */
  lemma FromOctetsBytes(b0: nat, b1: nat, b2: nat, b3: nat)
    requires b0 <= 255 && b1 <= 255 && b2 <= 255 && b3 <= 255
    ensures Octets(FromOctets(b0, b1, b2, b3)) == [b0, b1, b2, b3]
  {
    var a := FromOctets(b0, b1, b2, b3);
    DivUnique(a, 0x100_0000, b0, b1 * 0x1_0000 + b2 * 0x100 + b3);
    DivUnique(a, 0x1_0000, b0 * 0x100 + b1, b2 * 0x100 + b3);
    DivUnique(a, 0x100, b0 * 0x1_0000 + b1 * 0x100 + b2, b3);
    DivUnique(b0 * 0x100 + b1, 0x100, b0, b1);
    DivUnique(b0 * 0x1_0000 + b1 * 0x100 + b2, 0x100, b0 * 0x100 + b1, b2);
  }

  /** `_parse_octet(str(b)) == b` for a byte. */
  lemma OctetRoundTrip(b: nat)
    requires b <= 255
    ensures ParseOctet(DecimalString(b)) == Some(b)
  {
    DecimalRoundTrip(b);
    DecimalStringShape(b);
  }

  lemma DigitsAvoid(s: string, c: char)
    requires AllDigits(s) && !IsDigit(c)
    ensures c !in s
  {
  }

  /** Parsing the text of an address gives the address back. */
  lemma AddrRoundTrip(a: Addr)
    ensures ParseAddr(FormatAddr(a)) == Some(a)
  {
    var o := Octets(a);
    OctetsRoundTrip(a);
    var parts := [DecimalString(o[0]), DecimalString(o[1]), DecimalString(o[2]), DecimalString(o[3])];
    forall i | 0 <= i < 4
      ensures '.' !in parts[i]
    {
      DigitsAvoid(parts[i], '.');
    }
    SplitJoin(parts, '.');
    OctetRoundTrip(o[0]);
    OctetRoundTrip(o[1]);
    OctetRoundTrip(o[2]);
    OctetRoundTrip(o[3]);
  }

  /** The text of an address is the only text that parses to it: a parsed
      text is exactly what `str()` writes back. */
  lemma AddrTextUnique(s: string)
    requires ValidIPv4(s)
    ensures FormatAddr(ParseAddr(s).value) == s
  {
    var parts := Split(s, '.');
    var b0, b1, b2, b3 := ParseOctet(parts[0]).value, ParseOctet(parts[1]).value,
                          ParseOctet(parts[2]).value, ParseOctet(parts[3]).value;
    FromOctetsBytes(b0, b1, b2, b3);
    DecimalStringOfValue(parts[0]);
    DecimalStringOfValue(parts[1]);
    DecimalStringOfValue(parts[2]);
    DecimalStringOfValue(parts[3]);
    JoinSplit(s, '.');
    assert parts == [parts[0], parts[1], parts[2], parts[3]];
  }

  lemma FormatAddrAvoidsSlash(a: Addr)
    ensures '/' !in FormatAddr(a)
  {
    var o := Octets(a);
    var parts := [DecimalString(o[0]), DecimalString(o[1]), DecimalString(o[2]), DecimalString(o[3])];
    forall i | 0 <= i < 4
      ensures '/' !in parts[i]
    {
      DigitsAvoid(parts[i], '/');
    }
    JoinAvoids(parts, '.', '/');
  }

  /** Parsing the text of a network gives the network back. */
  lemma NetworkRoundTrip(n: Network)
    requires Canonical(n)
    ensures ParseNetwork(FormatNetwork(n)) == Some(n)
  {
    var parts := [FormatAddr(n.base), DecimalString(n.len)];
    FormatAddrAvoidsSlash(n.base);
    DigitsAvoid(parts[1], '/');
    SplitJoin(parts, '/');
    AddrRoundTrip(n.base);
    DecimalRoundTrip(n.len);
  }

  /** `ip_network(str(a) + "/" + str(l), strict=False)` is the network of
      prefix length `l` that holds `a`, host bits cleared; without a prefix
      it is the address as a `/32`. */
  lemma NetworkTextMasked(a: Addr, l: PrefixLen)
    ensures ParseNetwork(FormatAddr(a) + "/" + DecimalString(l)) == Some(Masked(Network(a, l)))
    ensures ParseNetwork(FormatAddr(a)) == Some(Masked(Network(a, 32)))
  {
    var parts := [FormatAddr(a), DecimalString(l)];
    FormatAddrAvoidsSlash(a);
    DigitsAvoid(parts[1], '/');
    SplitJoin(parts, '/');
    assert Join(parts, '/') == FormatAddr(a) + "/" + DecimalString(l);
    SplitPlain(FormatAddr(a), '/');
    AddrRoundTrip(a);
    DecimalRoundTrip(l);
  }
}
