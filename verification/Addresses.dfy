/** The guard against private addresses: IPv4 literals, their mapped IPv6 forms, and IPv6 prefixes. */
module Addresses {
  import opened Prelude
  import opened Text
  import opened Bits

  // ----- Decimal octets -----

  function LeadingDigits(s: string): string {
    if s != "" && IsDigit(s[0]) then [s[0]] + LeadingDigits(s[1..]) else ""
  }

  lemma {:induction false} LeadingDigitsAreDigits(s: string)
    ensures AllDigits(LeadingDigits(s))
    ensures AllDigits(s) ==> LeadingDigits(s) == s
  {
    if s != "" {
      LeadingDigitsAreDigits(s[1..]);
      assert s == [s[0]] + s[1..];
      assert AllDigits(s) ==> s[0] in s && AllDigits(s[1..]);
    }
  }

  /** `Number.parseInt(s, 10)`, which stops at the first character that does not belong; None is NaN. */
  function ParseInt(s: string): Option<int> {
    var t := TrimStart(s);
    var unsigned := if t != "" && (t[0] == '-' || t[0] == '+') then t[1..] else t;
    var digits := LeadingDigits(unsigned);
    LeadingDigitsAreDigits(unsigned);
    if digits == "" then None
    else
      var value: int := DecimalValue(digits);
      Some(if t[0] == '-' then -value else value)
  }

  function ParseOctet(part: string): Option<nat> {
    match ParseInt(part)
    case None => None
    case Some(value) => if value < 0 || value > 255 || Decimal(value) != part then None else Some(value)
  }

  lemma ParseIntOfDecimal(n: nat)
    ensures ParseInt(Decimal(n)) == Some(n)
  {
    DecimalFacts(n);
    var d := Decimal(n);
    assert d[0] in d;
    LeadingDigitsAreDigits(d);
  }

  lemma OctetIsCanonical(part: string, n: nat)
    ensures ParseOctet(part) == Some(n) <==> n <= 255 && part == Decimal(n)
  {
    ParseIntOfDecimal(n);
  }

  // ----- Dotted quads -----

  function OctetsToInt(a: nat, b: nat, c: nat, d: nat): nat {
    Unsigned(Or(Or(Or(ShiftLeft(a, 24), ShiftLeft(b, 16)), ShiftLeft(c, 8)), d))
  }

  /** `n >>> 0`. */
  function Unsigned(n: nat): nat { n % 0x1_0000_0000 }

  function Ipv4Value(host: string): Option<nat> { ValueOfParts(Split(host, '.')) }

  function Octets(parts: seq<string>): Option<seq<nat>> {
    if parts == [] then Some([])
    else
      match ParseOctet(parts[0])
      case None => None
      case Some(octet) =>
        var rest := Octets(parts[1..]);
        if rest.None? then None else Some([octet] + rest.value)
  }

  function ValueOfParts(parts: seq<string>): Option<nat> {
    if |parts| != 4 then None
    else
      var octets := Octets(parts);
      if octets.None? || |octets.value| != 4 then None
      else Some(OctetsToInt(octets.value[0], octets.value[1], octets.value[2], octets.value[3]))
  }

  /** The octets are those of which the parts are the decimal texts. */
  ghost predicate Canonical(parts: seq<string>, octets: seq<nat>) {
    |octets| == |parts| && forall i :: 0 <= i < |parts| ==> octets[i] <= 255 && parts[i] == Decimal(octets[i])
  }

  lemma {:induction false} OctetsOfCanonical(parts: seq<string>, octets: seq<nat>)
    requires Canonical(parts, octets)
    ensures Octets(parts) == Some(octets)
  {
    if parts != [] {
      OctetsOfCanonical(parts[1..], octets[1..]);
      OctetIsCanonical(parts[0], octets[0]);
      assert [octets[0]] + octets[1..] == octets;
    }
  }

  lemma {:induction false} CanonicalOfOctets(parts: seq<string>)
    requires Octets(parts).Some?
    ensures Canonical(parts, Octets(parts).value)
  {
    if parts != [] {
      CanonicalOfOctets(parts[1..]);
      OctetIsCanonical(parts[0], Octets(parts).value[0]);
    }
  }

  /** Collects the octets one by one and gives up at the first that does not parse. */
  method ParseIpv4(host: string) returns (value: Option<nat>)
    ensures value == Ipv4Value(host)
    ensures match value
            case Some(v) => v < 0x1_0000_0000 && host == Print(v)
            case None => forall v: nat :: v < 0x1_0000_0000 ==> host != Print(v)
  {
    ValuesArePrinted(host);
    var parts := Split(host, '.');
    if |parts| != 4 { return None; }
    var octets := CollectOctets(parts);
    if octets.None? { return None; }
    CanonicalOfOctets(parts);
    var (a, b, c, d) := (octets.value[0], octets.value[1], octets.value[2], octets.value[3]);
    return Some(OctetsToInt(a, b, c, d));
  }

  /** What the octets found so far and the parts still to come give together. */
  ghost function Together(octets: seq<nat>, rest: seq<string>): Option<seq<nat>> {
    if Octets(rest).None? then None else Some(octets + Octets(rest).value)
  }

  lemma OneMoreOctet(octets: seq<nat>, rest: seq<string>)
    requires rest != []
    ensures Together(octets, rest)
         == if ParseOctet(rest[0]).None? then None else Together(octets + [ParseOctet(rest[0]).value], rest[1..])
  {
    if Octets(rest).Some? {
      assert octets + Octets(rest).value == octets + [ParseOctet(rest[0]).value] + Octets(rest[1..]).value;
    }
  }

  method CollectOctets(parts: seq<string>) returns (octets: Option<seq<nat>>)
    ensures octets == Octets(parts)
  {
    var all: seq<nat> := [];
    assert parts[0..] == parts && (Octets(parts).Some? ==> [] + Octets(parts).value == Octets(parts).value);
    for i := 0 to |parts|
      invariant Together(all, parts[i..]) == Octets(parts)
    {
      var octet := ParseOctet(parts[i]);
      OneMoreOctet(all, parts[i..]);
      assert parts[i..][1..] == parts[i + 1..];
      if octet.None? { return None; }
      all := all + [octet.value];
    }
    assert parts[|parts|..] == [] && all + [] == all;
    return Some(all);
  }

  function Quad(a: nat, b: nat, c: nat, d: nat): string {
    Decimal(a) + ['.'] + (Decimal(b) + ['.'] + (Decimal(c) + ['.'] + Decimal(d)))
  }

  function Print(v: nat): string { Quad(v / 0x100_0000, v / 0x1_0000 % 0x100, v / 0x100 % 0x100, v % 0x100) }

  lemma Powers()
    ensures Pow2(8) == 0x100 && Pow2(16) == 0x1_0000 && Pow2(24) == 0x100_0000 && Pow2(32) == 0x1_0000_0000
  {
    PowerSum(8, 8);
    PowerSum(16, 8);
    PowerSum(16, 16);
  }

  lemma {:induction false} PowerSum(i: nat, j: nat)
    ensures Pow2(i + j) == Pow2(i) * Pow2(j)
    decreases j
  {
    if j > 0 {
      PowerSum(i, j - 1);
      assert i + j - 1 == i + (j - 1);
      Doubled(Pow2(i), j);
    }
  }

  lemma ShiftIs(a: nat, k: nat, p: nat)
    requires p == Pow2(k) && a * p < 0x1_0000_0000
    ensures ShiftLeft(a, k) == a * p
  {}

  lemma OrIs(a: nat, b: nat, k: nat, p: nat)
    requires p == Pow2(k) && b < p
    ensures Or(a * p, b) == a * p + b
  {
    OrBelow(a, b, k);
  }

  lemma OrOctets(a: nat, b: nat, c: nat, d: nat)
    requires a < 0x100 && b < 0x100 && c < 0x100 && d < 0x100
    ensures Or(Or(Or(a * 0x100_0000, b * 0x1_0000), c * 0x100), d) == a * 0x100_0000 + b * 0x1_0000 + c * 0x100 + d
  {
    Powers();
    OrIs(a, b * 0x1_0000, 24, 0x100_0000);
    OrIs(a * 0x100 + b, c * 0x100, 16, 0x1_0000);
    OrIs(a * 0x1_0000 + b * 0x100 + c, d, 8, 0x100);
  }

  lemma ShiftedOctets(a: nat, b: nat, c: nat)
    requires a < 0x100 && b < 0x100 && c < 0x100
    ensures ShiftLeft(a, 24) == a * 0x100_0000 && ShiftLeft(b, 16) == b * 0x1_0000 && ShiftLeft(c, 8) == c * 0x100
  {
    Powers();
    ShiftIs(a, 24, 0x100_0000);
    ShiftIs(b, 16, 0x1_0000);
    ShiftIs(c, 8, 0x100);
  }

  lemma UnsignedIs(n: nat, total: nat)
    requires n == total < 0x1_0000_0000
    ensures Unsigned(n) == total
  {}

  /** Shifting and or-ing four octets is positional notation in base 256. */
  lemma Packed(a: nat, b: nat, c: nat, d: nat)
    requires a < 0x100 && b < 0x100 && c < 0x100 && d < 0x100
    ensures OctetsToInt(a, b, c, d) == a * 0x100_0000 + b * 0x1_0000 + c * 0x100 + d
  {
    ShiftedOctets(a, b, c);
    OrOctets(a, b, c, d);
    UnsignedIs(Or(Or(Or(a * 0x100_0000, b * 0x1_0000), c * 0x100), d), a * 0x100_0000 + b * 0x1_0000 + c * 0x100 + d);
  }

  lemma Unpacked(v: nat, a: nat, b: nat, c: nat, d: nat)
    requires a < 0x100 && b < 0x100 && c < 0x100 && d < 0x100 && v == a * 0x100_0000 + b * 0x1_0000 + c * 0x100 + d
    ensures v < 0x1_0000_0000 && a == v / 0x100_0000 && b == v / 0x1_0000 % 0x100
    ensures c == v / 0x100 % 0x100 && d == v % 0x100
  {
    Remainder(v, 0x100_0000, a, b * 0x1_0000 + c * 0x100 + d);
    Remainder(v, 0x1_0000, a * 0x100 + b, c * 0x100 + d);
    Remainder(v, 0x100, a * 0x1_0000 + b * 0x100 + c, d);
  }

  /** Every value is the sum of its four octets. */
  lemma OctetsSum(v: nat)
    ensures v == v / 0x100_0000 * 0x100_0000 + v / 0x1_0000 % 0x100 * 0x1_0000 + v / 0x100 % 0x100 * 0x100 + v % 0x100
  {
    var high, middle := v / 0x1_0000, v / 0x100;
    assert middle / 0x100 == high by { Remainder(v, 0x1_0000, middle / 0x100, middle % 0x100 * 0x100 + v % 0x100); }
    assert high / 0x100 == v / 0x100_0000 by {
      Remainder(v, 0x100_0000, high / 0x100, high % 0x100 * 0x1_0000 + v % 0x1_0000);
    }
  }

  lemma NoDots(n: nat)
    ensures '.' !in Decimal(n) && ':' !in Decimal(n)
  {
    DecimalFacts(n);
  }

  lemma SplitOfQuad(a: nat, b: nat, c: nat, d: nat)
    ensures Split(Quad(a, b, c, d), '.') == [Decimal(a), Decimal(b), Decimal(c), Decimal(d)]
  {
    NoDots(a);
    NoDots(b);
    NoDots(c);
    NoDots(d);
    var cd := Decimal(c) + ['.'] + Decimal(d);
    SplitOfJoined(Decimal(c), '.', Decimal(d));
    SplitOfJoined(Decimal(d), '.', "");
    SplitOfJoined(Decimal(b), '.', cd);
    SplitOfJoined(Decimal(a), '.', Decimal(b) + ['.'] + cd);
  }

  lemma QuadOfSplit(s: string)
    requires |Split(s, '.')| == 4
    ensures var p := Split(s, '.');
            s == p[0] + ['.'] + (p[1] + ['.'] + (p[2] + ['.'] + p[3]))
  {
    var s1 := JoinedOfSplit(s, '.');
    var s2 := JoinedOfSplit(s1.value, '.');
    var s3 := JoinedOfSplit(s2.value, '.');
    var s4 := JoinedOfSplit(s3.value, '.');
  }

  lemma ValueOfQuad(a: nat, b: nat, c: nat, d: nat)
    requires a < 0x100 && b < 0x100 && c < 0x100 && d < 0x100
    ensures Ipv4Value(Quad(a, b, c, d)) == Some(a * 0x100_0000 + b * 0x1_0000 + c * 0x100 + d)
  {
    SplitOfQuad(a, b, c, d);
    ValueOfDecimals(a, b, c, d);
    Packed(a, b, c, d);
  }

  lemma ValueOfDecimals(a: nat, b: nat, c: nat, d: nat)
    requires a < 0x100 && b < 0x100 && c < 0x100 && d < 0x100
    ensures ValueOfParts([Decimal(a), Decimal(b), Decimal(c), Decimal(d)]) == Some(OctetsToInt(a, b, c, d))
  {
    OctetsOfCanonical([Decimal(a), Decimal(b), Decimal(c), Decimal(d)], [a, b, c, d]);
  }

  lemma ValueOfPrinted(v: nat)
    requires v < 0x1_0000_0000
    ensures Ipv4Value(Print(v)) == Some(v)
  {
    var (a, b, c, d) := (v / 0x100_0000, v / 0x1_0000 % 0x100, v / 0x100 % 0x100, v % 0x100);
    OctetsSum(v);
    ValueOfQuad(a, b, c, d);
  }

  lemma PrintedOfValue(host: string)
    requires Ipv4Value(host).Some?
    ensures Ipv4Value(host).value < 0x1_0000_0000 && host == Print(Ipv4Value(host).value)
  {
    QuadOfSplit(host);
    CanonicalOfOctets(Split(host, '.'));
    var o := Octets(Split(host, '.')).value;
    Packed(o[0], o[1], o[2], o[3]);
    Unpacked(Ipv4Value(host).value, o[0], o[1], o[2], o[3]);
  }

  /** The parser accepts exactly the canonical dotted quads, and is the inverse of printing them. */
  lemma ValuesArePrinted(host: string)
    ensures forall v: nat :: Ipv4Value(host) == Some(v) <==> v < 0x1_0000_0000 && host == Print(v)
  {
    forall v: nat ensures Ipv4Value(host) == Some(v) <==> v < 0x1_0000_0000 && host == Print(v) {
      if v < 0x1_0000_0000 { ValueOfPrinted(v); }
      if Ipv4Value(host).Some? { PrintedOfValue(host); }
    }
  }

  // ----- Blocked IPv4 ranges -----

  /** A network by its four octets, and the length of its prefix. */
  datatype Block = Block(a: nat, b: nat, c: nat, d: nat, prefix: nat)

  const PRIVATE_IPV4_BLOCKS: seq<Block> := [
    Block(0, 0, 0, 0, 8),
    Block(10, 0, 0, 0, 8),
    Block(100, 64, 0, 0, 10),
    Block(127, 0, 0, 0, 8),
    Block(169, 254, 0, 0, 16),
    Block(172, 16, 0, 0, 12),
    Block(192, 0, 0, 0, 24),
    Block(192, 0, 2, 0, 24),
    Block(192, 168, 0, 0, 16),
    Block(198, 18, 0, 0, 15),
    Block(198, 51, 100, 0, 24),
    Block(203, 0, 113, 0, 24),
    Block(224, 0, 0, 0, 4),
    Block(240, 0, 0, 0, 4)
  ]

  function Mask(prefix: nat): nat
    requires prefix <= 32
  {
    if prefix == 0 then 0 else ShiftLeft(0xffff_ffff, 32 - prefix)
  }

  predicate InBlock(value: nat, b: Block)
    requires b.prefix <= 32
  {
    And(value, Mask(b.prefix)) == And(OctetsToInt(b.a, b.b, b.c, b.d), Mask(b.prefix))
  }

  predicate IsPrivateValue(value: nat) {
    exists b <- PRIVATE_IPV4_BLOCKS :: b.prefix <= 32 && InBlock(value, b)
  }

  predicate IsPrivateIpv4(host: string) {
    var value := Ipv4Value(host);
    value.Some? && IsPrivateValue(value.value)
  }

  lemma ShiftedOnes(p: nat, q: nat)
    requires 0 < p <= 0x1_0000_0000 && q * p == 0x1_0000_0000
    ensures (0xffff_ffff * p) % 0x1_0000_0000 == (q - 1) * p
  {
    Remainder(0xffff_ffff * p, 0x1_0000_0000, p - 1, 0x1_0000_0000 - p);
  }

  lemma MaskIsHigh(prefix: nat)
    requires 0 < prefix <= 32
    ensures Mask(prefix) == HighMask(prefix, 32 - prefix)
  {
    var k := 32 - prefix;
    HighMaskIs(prefix, k);
    assert Pow2(prefix) * Pow2(k) == 0x1_0000_0000 by {
      PowerSum(prefix, k);
      Powers();
    }
    assert Pow2(k) <= Pow2(prefix) * Pow2(k);
    ShiftedOnes(Pow2(k), Pow2(prefix));
  }

  lemma MaskedEqual(v: nat, n: nat, prefix: nat)
    requires v < 0x1_0000_0000 && n < 0x1_0000_0000 && prefix <= 32
    ensures var size := Pow2(32 - prefix);
            And(v, Mask(prefix)) == And(n, Mask(prefix)) <==> v / size == n / size
  {
    if prefix == 0 {
      Powers();
    } else {
      assert Pow2(prefix + (32 - prefix)) == 0x1_0000_0000 by { Powers(); }
      MaskIsHigh(prefix);
      AndHigh(v, prefix, 32 - prefix);
      AndHigh(n, prefix, 32 - prefix);
      SameMultiple(v, n, Pow2(32 - prefix));
    }
  }

  ghost predicate IsNetwork(b: Block) {
    b.a < 0x100 && b.b < 0x100 && b.c < 0x100 && b.d < 0x100 && b.prefix <= 32
  }

  function First(b: Block): nat { b.a * 0x100_0000 + b.b * 0x1_0000 + b.c * 0x100 + b.d }

  /**
   The shift-and-mask test asks whether the address is in the aligned interval of the network, for every
   prefix length from 0 to 32.
   */
  lemma BlockIsInterval(v: nat, b: Block)
    requires v < 0x1_0000_0000 && IsNetwork(b)
    ensures var size := Pow2(32 - b.prefix);
            InBlock(v, b) <==> v / size == First(b) / size
  {
    Packed(b.a, b.b, b.c, b.d);
    InBlockIs(v, b, First(b));
    MaskedEqual(v, First(b), b.prefix);
  }

  lemma InBlockIs(v: nat, b: Block, network: nat)
    requires b.prefix <= 32 && network == OctetsToInt(b.a, b.b, b.c, b.d)
    ensures InBlock(v, b) <==> And(v, Mask(b.prefix)) == And(network, Mask(b.prefix))
  {}

  lemma SameMultiple(v: nat, n: nat, d: nat)
    requires d > 0
    ensures v - v % d == n - n % d <==> v / d == n / d
  {
    assert v - v % d == d * (v / d) && n - n % d == d * (n / d);
    if v - v % d == n - n % d { Remainder(v, d, n / d, v % d); }
  }

  /** The private ranges in terms of the first three octets. */
  predicate PrivateQuad(a: nat, b: nat, c: nat) {
    || a == 0 || a == 10 || a == 127 || a >= 224
    || (a == 100 && 64 <= b <= 127)
    || (a == 169 && b == 254)
    || (a == 172 && 16 <= b <= 31)
    || (a == 192 && (b == 168 || (b == 0 && (c == 0 || c == 2))))
    || (a == 198 && (18 <= b <= 19 || (b == 51 && c == 100)))
    || (a == 203 && b == 0 && c == 113)
  }

  lemma BlockSizes()
    ensures Pow2(17) == 0x2_0000 && Pow2(20) == 0x10_0000 && Pow2(22) == 0x40_0000 && Pow2(28) == 0x1000_0000
  {
    Powers();
    PowerSum(16, 1);
    PowerSum(16, 4);
    PowerSum(16, 6);
    PowerSum(24, 4);
  }

  /** The number of addresses under a prefix. */
  function SizeFor(prefix: nat): nat {
    match prefix
    case 4 => 0x1000_0000
    case 8 => 0x100_0000
    case 10 => 0x40_0000
    case 12 => 0x10_0000
    case 15 => 0x2_0000
    case 16 => 0x1_0000
    case _ => 0x100
  }

  lemma SizeForIs(prefix: nat)
    requires prefix in {4, 8, 10, 12, 15, 16, 24}
    ensures SizeFor(prefix) == Pow2(32 - prefix)
  {
    Powers();
    BlockSizes();
  }

  predicate InRange(v: nat, b: Block) { v / SizeFor(b.prefix) == First(b) / SizeFor(b.prefix) }

  predicate InSomeRange(v: nat) { exists b <- PRIVATE_IPV4_BLOCKS :: InRange(v, b) }

  ghost predicate IsListed(b: Block) { IsNetwork(b) && b.prefix in {4, 8, 10, 12, 15, 16, 24} }

  lemma BlocksAreListed(b: Block)
    requires b in PRIVATE_IPV4_BLOCKS
    ensures IsListed(b)
  {}

  lemma BlockIsRange(v: nat, b: Block)
    requires v < 0x1_0000_0000 && IsListed(b)
    ensures InBlock(v, b) <==> InRange(v, b)
  {
    SizeForIs(b.prefix);
    BlockIsInterval(v, b);
  }

  lemma SomeBlock(v: nat)
    requires v < 0x1_0000_0000
    ensures IsPrivateValue(v) <==> InSomeRange(v)
  {
    forall b | b in PRIVATE_IPV4_BLOCKS ensures b.prefix <= 32 && (InBlock(v, b) <==> InRange(v, b)) {
      BlocksAreListed(b);
      BlockIsRange(v, b);
    }
  }

  /** Agreement of the leading bits, octet by octet. */
  predicate SamePrefix(p: Block, a: nat, b: nat, c: nat) {
    match p.prefix
    case 4 => a / 16 == p.a / 16
    case 8 => a == p.a
    case 10 => a == p.a && b / 64 == p.b / 64
    case 12 => a == p.a && b / 16 == p.b / 16
    case 15 => a == p.a && b / 2 == p.b / 2
    case 16 => a == p.a && b == p.b
    case _ => a == p.a && b == p.b && c == p.c
  }

  lemma Quotients(v: nat, a: nat, b: nat, c: nat, d: nat)
    requires a < 0x100 && b < 0x100 && c < 0x100 && d < 0x100 && v == a * 0x100_0000 + b * 0x1_0000 + c * 0x100 + d
    ensures v / 0x100_0000 == a && v / 0x1_0000 == a * 0x100 + b && v / 0x100 == a * 0x1_0000 + b * 0x100 + c
    ensures v / 0x1000_0000 == a / 16 && v / 0x40_0000 == a * 4 + b / 64
    ensures v / 0x10_0000 == a * 16 + b / 16 && v / 0x2_0000 == a * 128 + b / 2
  {}

  lemma SameQuotients(a: nat, b: nat, c: nat, p: Block)
    requires a < 0x100 && b < 0x100 && c < 0x100 && IsNetwork(p)
    ensures a * 0x100 + b == p.a * 0x100 + p.b <==> a == p.a && b == p.b
    ensures a * 0x1_0000 + b * 0x100 + c == p.a * 0x1_0000 + p.b * 0x100 + p.c <==> a == p.a && b == p.b && c == p.c
    ensures a * 4 + b / 64 == p.a * 4 + p.b / 64 <==> a == p.a && b / 64 == p.b / 64
    ensures a * 16 + b / 16 == p.a * 16 + p.b / 16 <==> a == p.a && b / 16 == p.b / 16
    ensures a * 128 + b / 2 == p.a * 128 + p.b / 2 <==> a == p.a && b / 2 == p.b / 2
  {}

  lemma QuadInRange(v: nat, a: nat, b: nat, c: nat, d: nat, p: Block)
    requires a < 0x100 && b < 0x100 && c < 0x100 && d < 0x100 && v == a * 0x100_0000 + b * 0x1_0000 + c * 0x100 + d
    requires IsListed(p)
    ensures InRange(v, p) <==> SamePrefix(p, a, b, c)
  {
    Quotients(v, a, b, c, d);
    Quotients(First(p), p.a, p.b, p.c, p.d);
    SameQuotients(a, b, c, p);
  }

  predicate HasSomePrefix(a: nat, b: nat, c: nat) { exists p <- PRIVATE_IPV4_BLOCKS :: SamePrefix(p, a, b, c) }

  lemma RangeIsPrefix(v: nat, a: nat, b: nat, c: nat, d: nat)
    requires a < 0x100 && b < 0x100 && c < 0x100 && d < 0x100 && v == a * 0x100_0000 + b * 0x1_0000 + c * 0x100 + d
    ensures InSomeRange(v) <==> HasSomePrefix(a, b, c)
  {
    forall p | p in PRIVATE_IPV4_BLOCKS ensures InRange(v, p) <==> SamePrefix(p, a, b, c) {
      BlocksAreListed(p);
      QuadInRange(v, a, b, c, d, p);
    }
  }

  lemma PrefixesAre(a: nat, b: nat, c: nat)
    requires a < 0x100 && b < 0x100 && c < 0x100
    ensures HasSomePrefix(a, b, c) <==> PrivateQuad(a, b, c)
  {
    var p := PRIVATE_IPV4_BLOCKS;
    assert PrivateQuad(a, b, c) ==>
        SamePrefix(p[0], a, b, c) || SamePrefix(p[1], a, b, c) || SamePrefix(p[2], a, b, c) || SamePrefix(p[3], a, b, c)
        || SamePrefix(p[4], a, b, c) || SamePrefix(p[5], a, b, c) || SamePrefix(p[6], a, b, c)
        || SamePrefix(p[7], a, b, c)
        || SamePrefix(p[8], a, b, c) || SamePrefix(p[9], a, b, c) || SamePrefix(p[10], a, b, c)
        || SamePrefix(p[11], a, b, c)
        || SamePrefix(p[12], a, b, c) || SamePrefix(p[13], a, b, c);
  }

  lemma PrivateByValue(host: string, v: nat)
    requires Ipv4Value(host) == Some(v)
    ensures IsPrivateIpv4(host) <==> IsPrivateValue(v)
  {}

  /** A dotted quad is blocked exactly if its octets are in one of the private ranges. */
  lemma PrivateExactly(v: nat, a: nat, b: nat, c: nat, d: nat)
    requires a < 0x100 && b < 0x100 && c < 0x100 && d < 0x100 && v == a * 0x100_0000 + b * 0x1_0000 + c * 0x100 + d
    ensures Ipv4Value(Quad(a, b, c, d)) == Some(v) && (IsPrivateIpv4(Quad(a, b, c, d)) <==> PrivateQuad(a, b, c))
  {
    ValueOfQuad(a, b, c, d);
    PrivateByValue(Quad(a, b, c, d), v);
    SomeBlock(v);
    RangeIsPrefix(v, a, b, c, d);
    PrefixesAre(a, b, c);
  }

  /** An address by value in one of the private ranges. */
  predicate BlockedValue(v: nat) {
    v < 0x1_0000_0000 && PrivateQuad(v / 0x100_0000, v / 0x1_0000 % 0x100, v / 0x100 % 0x100)
  }

  lemma PrivatePrinted(v: nat)
    requires v < 0x1_0000_0000
    ensures IsPrivateIpv4(Print(v)) <==> BlockedValue(v)
  {
    OctetsSum(v);
    PrivateExactly(v, v / 0x100_0000, v / 0x1_0000 % 0x100, v / 0x100 % 0x100, v % 0x100);
  }

  /** Of all hosts exactly the dotted quads of these addresses are blocked, in their one spelling. */
  lemma PrivateHosts(host: string)
    ensures IsPrivateIpv4(host) <==> exists v: nat :: host == Print(v) && BlockedValue(v)
  {
    if IsPrivateIpv4(host) {
      PrintedOfValue(host);
      PrivatePrinted(Ipv4Value(host).value);
    }
    if v: nat :| host == Print(v) && BlockedValue(v) { PrivatePrinted(v); }
  }

  // ----- Mapped addresses -----

  predicate IsHexLower(c: char) { IsDigit(c) || 'a' <= c <= 'f' }

  function HexDigit(c: char): nat
    requires IsHexLower(c)
  {
    if IsDigit(c) then c as int - '0' as int else c as int - 'a' as int + 10
  }

  predicate AllHex(s: string) { forall i :: 0 <= i < |s| ==> IsHexLower(s[i]) }

  /** `Number.parseInt(s, 16)` of lower-case hexadecimal digits. */
  function HexValue(s: string): nat
    requires AllHex(s)
  {
    if s == "" then 0 else 16 * HexValue(s[..|s| - 1]) + HexDigit(s[|s| - 1])
  }

  predicate IsHextet(s: string) { 1 <= |s| <= 4 && AllHex(s) }

  const MAPPED_PREFIX := "::ffff:"

  /** The two groups the hexadecimal pattern captures after the prefix. */
  function HexTail(lower: string): Option<(string, string)> {
    if !StartsWith(lower, MAPPED_PREFIX) then None
    else
      var parts := Split(lower[|MAPPED_PREFIX|..], ':');
      if |parts| == 2 && IsHextet(parts[0]) && IsHextet(parts[1]) then Some((parts[0], parts[1])) else None
  }

  function HexTailToDotted(high: nat, low: nat): Option<string> {
    if high > 0xffff || low > 0xffff then None
    else
      Some(Quad(And(ShiftRight(high, 8), 0xff), And(high, 0xff), And(ShiftRight(low, 8), 0xff), And(low, 0xff)))
  }

  /** Node's `isIP(s) === 4` holds of the canonical dotted quads. */
  predicate IsIpv4(s: string) { Ipv4Value(s).Some? }

  predicate DottedTailIsPrivate(lower: string) {
    StartsWith(lower, MAPPED_PREFIX) && IsIpv4(lower[|MAPPED_PREFIX|..]) && IsPrivateIpv4(lower[|MAPPED_PREFIX|..])
  }

  function DottedOfTail(lower: string): Option<string> {
    var tail := HexTail(lower);
    if tail.None? then None else HexTailToDotted(HexValue(tail.value.0), HexValue(tail.value.1))
  }

  predicate IsMappedPrivateIpv4(lower: string) {
    DottedTailIsPrivate(lower) || (DottedOfTail(lower).Some? && IsPrivateIpv4(DottedOfTail(lower).value))
  }

  lemma {:induction false} HexBound(s: string)
    requires AllHex(s)
    ensures HexValue(s) < Pow2(4 * |s|)
    decreases |s|
  {
    if s != "" {
      HexBound(s[..|s| - 1]);
      PowerSum(4 * |s| - 4, 4);
      assert Pow2(4) == 16;
    }
  }

  lemma HextetBound(s: string)
    requires IsHextet(s)
    ensures HexValue(s) <= 0xffff
  {
    HexBound(s);
    Powers();
    PowerSum(4, 8);
    assert Pow2(4) == 16;
  }

  lemma SplitHextets(high: string, low: string)
    requires IsHextet(high) && IsHextet(low)
    ensures Split(high + [':'] + low, ':') == [high, low]
    ensures Ipv4Value(high + [':'] + low).None?
  {
    SplitOfJoined(high, ':', low);
    SplitOfJoined(low, ':', "");
    SplitOfJoined(high + [':'] + low, '.', "");
  }

  lemma DottedOfHextets(high: nat, low: nat, v: nat)
    requires high <= 0xffff && low <= 0xffff && v == high * 0x1_0000 + low
    ensures HexTailToDotted(high, low) == Some(Print(v))
  {
    HextetOctets(high);
    HextetOctets(low);
    HextetPositions(high, low);
  }

  lemma HextetOctets(h: nat)
    requires h <= 0xffff
    ensures And(ShiftRight(h, 8), 0xff) == h / 0x100 && And(h, 0xff) == h % 0x100
  {
    Powers();
    AndLow(ShiftRight(h, 8), 8);
    AndLow(h, 8);
  }

  lemma HextetPositions(high: nat, low: nat)
    requires high <= 0xffff && low <= 0xffff
    ensures var v := high * 0x1_0000 + low;
            && v / 0x100_0000 == high / 0x100 && v / 0x1_0000 % 0x100 == high % 0x100
            && v / 0x100 % 0x100 == low / 0x100 && v % 0x100 == low % 0x100
  {}

  lemma AfterPrefix(tail: string)
    ensures StartsWith(MAPPED_PREFIX + tail, MAPPED_PREFIX) && (MAPPED_PREFIX + tail)[|MAPPED_PREFIX|..] == tail
  {}

  lemma NotDotted(high: string, low: string)
    requires IsHextet(high) && IsHextet(low)
    ensures !DottedTailIsPrivate(MAPPED_PREFIX + (high + [':'] + low))
  {
    AfterPrefix(high + [':'] + low);
    SplitHextets(high, low);
  }

  lemma DottedOfHexTail(high: string, low: string, v: nat)
    requires IsHextet(high) && IsHextet(low) && v == HexValue(high) * 0x1_0000 + HexValue(low)
    ensures DottedOfTail(MAPPED_PREFIX + (high + [':'] + low)) == Some(Print(v))
  {
    AfterPrefix(high + [':'] + low);
    SplitHextets(high, low);
    HextetBound(high);
    HextetBound(low);
    DottedOfHextets(HexValue(high), HexValue(low), v);
  }

  /** Written in hexadecimal, a mapped address gets the verdict of the IPv4 address it stands for. */
  lemma MappedHexVerdict(high: string, low: string, v: nat)
    requires IsHextet(high) && IsHextet(low) && v == HexValue(high) * 0x1_0000 + HexValue(low)
    ensures IsMappedPrivateIpv4("::ffff:" + (high + [':'] + low)) <==> IsPrivateIpv4(Print(v))
  {
    NotDotted(high, low);
    DottedOfHexTail(high, low, v);
  }

  /** And so does the dotted spelling (section 2.5.5.2 of RFC 4291). */
  lemma MappedDottedVerdict(v: nat)
    requires v < 0x1_0000_0000
    ensures IsMappedPrivateIpv4("::ffff:" + Print(v)) <==> IsPrivateIpv4(Print(v))
  {
    AfterPrefix(Print(v));
    ValueOfPrinted(v);
    NoColon(v);
    SplitOfJoined(Print(v), ':', "");
  }

  /** One of the two spellings of a mapped address, dotted or in two groups of hexadecimal digits. */
  ghost predicate Spells(lower: string, v: nat) {
    lower == "::ffff:" + Print(v) || SpellsInHex(lower, v)
  }

  ghost predicate SpellsInHex(lower: string, v: nat) {
    exists high, low :: IsHextet(high) && IsHextet(low) && lower == "::ffff:" + (high + [':'] + low)
                        && v == HexValue(high) * 0x1_0000 + HexValue(low)
  }

  lemma TailOfHextets(lower: string)
    requires HexTail(lower).Some?
    ensures var (high, low) := HexTail(lower).value;
            IsHextet(high) && IsHextet(low) && lower == MAPPED_PREFIX + (high + [':'] + low)
  {
    var tail := lower[|MAPPED_PREFIX|..];
    var rest := JoinedOfSplit(tail, ':');
    assert Split(tail, ':')[1..] == [Split(tail, ':')[1]];
    var end := JoinedOfSplit(rest.value, ':');
    assert lower == MAPPED_PREFIX + tail;
  }

  lemma SpelledIsMapped(lower: string, v: nat)
    requires v < 0x1_0000_0000 && Spells(lower, v)
    ensures IsMappedPrivateIpv4(lower) <==> BlockedValue(v)
  {
    if SpellsInHex(lower, v) {
      SpelledInHex(lower, v);
    } else {
      MappedDottedVerdict(v);
    }
    PrivatePrinted(v);
  }

  lemma SpelledInHex(lower: string, v: nat)
    requires SpellsInHex(lower, v)
    ensures IsMappedPrivateIpv4(lower) <==> IsPrivateIpv4(Print(v))
  {
    var high, low :| IsHextet(high) && IsHextet(low) && lower == "::ffff:" + (high + [':'] + low)
                     && v == HexValue(high) * 0x1_0000 + HexValue(low);
    MappedHexVerdict(high, low, v);
  }

  lemma MappedIsSpelled(lower: string) returns (v: nat)
    requires IsMappedPrivateIpv4(lower)
    ensures v < 0x1_0000_0000 && Spells(lower, v)
  {
    if DottedTailIsPrivate(lower) {
      var tail := lower[|MAPPED_PREFIX|..];
      PrintedOfValue(tail);
      v := Ipv4Value(tail).value;
      assert lower == MAPPED_PREFIX + tail;
    } else {
      var (high, low) := HexTail(lower).value;
      TailOfHextets(lower);
      HextetBound(high);
      HextetBound(low);
      v := HexValue(high) * 0x1_0000 + HexValue(low);
    }
  }

  /** A literal is blocked as a mapped address exactly if it is one of the two spellings of a private one. */
  lemma MappedExactly(lower: string)
    ensures IsMappedPrivateIpv4(lower) <==> exists v: nat :: Spells(lower, v) && BlockedValue(v)
  {
    if IsMappedPrivateIpv4(lower) {
      var v := MappedIsSpelled(lower);
      SpelledIsMapped(lower, v);
    }
    if v: nat :| Spells(lower, v) && BlockedValue(v) { SpelledIsMapped(lower, v); }
  }

  lemma NoColon(v: nat)
    ensures ':' !in Print(v)
  {
    NoDots(v / 0x100_0000);
    NoDots(v / 0x1_0000 % 0x100);
    NoDots(v / 0x100 % 0x100);
    NoDots(v % 0x100);
  }

  // ----- IPv6 prefixes -----

  const BLOCKED_FIRST_HEXTETS: seq<string> := ["fe8", "fe9", "fea", "feb", "fc", "fd", "ff"]

  function StripZeros(s: string): string {
    if s != "" && s[0] == '0' then StripZeros(s[1..]) else s
  }

  function FirstHextet(lower: string): string {
    var head := Split(lower, ':')[0];
    if StripZeros(head) == "" then head else StripZeros(head)
  }

  predicate HasBlockedPrefix(head: string) { exists p <- BLOCKED_FIRST_HEXTETS :: StartsWith(head, p) }

  predicate IsPrivateIpv6(host: string) {
    var lower := Lower(host);
    lower == "::1" || lower == "::" || IsMappedPrivateIpv4(lower) || HasBlockedPrefix(FirstHextet(lower))
  }

  /** fe80::/10, fc00::/7 and ff00::/8 by the value of the first hextet. */
  predicate BlockedHextet(v: nat) { 0xfe80 <= v <= 0xfebf || 0xfc00 <= v <= 0xfdff || 0xff00 <= v <= 0xffff }

  /** Shorter hextets that begin alike. */
  predicate LooksBlocked(v: nat) {
    0xfe8 <= v <= 0xfeb || v in {0xfc, 0xfd, 0xff} || 0xfc0 <= v <= 0xfdf || 0xff0 <= v <= 0xfff
  }

  lemma PrefixByLetters(h: string)
    ensures HasBlockedPrefix(h) <==>
              |h| >= 2 && h[0] == 'f'
              && (h[1] == 'c' || h[1] == 'd' || h[1] == 'f'
                  || (|h| >= 3 && h[1] == 'e' && (h[2] == '8' || h[2] == '9' || h[2] == 'a' || h[2] == 'b')))
  {
    if |h| >= 3 { assert h[..3] == [h[0], h[1], h[2]]; }
    if |h| >= 2 { assert h[..2] == [h[0], h[1]]; }
    assert "fe8" in BLOCKED_FIRST_HEXTETS && "fe9" in BLOCKED_FIRST_HEXTETS && "fea" in BLOCKED_FIRST_HEXTETS
           && "feb" in BLOCKED_FIRST_HEXTETS && "fc" in BLOCKED_FIRST_HEXTETS && "fd" in BLOCKED_FIRST_HEXTETS
           && "ff" in BLOCKED_FIRST_HEXTETS;
  }

  /** A first hextet as it is written: hexadecimal digits, the first of them not zero. */
  predicate IsTrimmedHextet(h: string) { IsHextet(h) && h[0] != '0' }

  lemma HexUnfolded(h: string)
    requires IsHextet(h)
    ensures |h| == 1 ==> HexValue(h) == HexDigit(h[0])
    ensures |h| == 2 ==> HexValue(h) == 0x10 * HexDigit(h[0]) + HexDigit(h[1])
    ensures |h| == 3 ==> HexValue(h) == 0x100 * HexDigit(h[0]) + 0x10 * HexDigit(h[1]) + HexDigit(h[2])
    ensures |h| == 4 ==>
              HexValue(h) == 0x1000 * HexDigit(h[0]) + 0x100 * HexDigit(h[1]) + 0x10 * HexDigit(h[2]) + HexDigit(h[3])
  {
    var t := h[..|h| - 1];
    if |h| > 1 {
      HexUnfolded(t);
    } else {
      assert t == "";
    }
  }

  /** The same by the values of the first digits. */
  predicate BlockedDigits(n: nat, d0: nat, d1: nat, d2: nat) {
    n >= 2 && d0 == 15 && (d1 == 12 || d1 == 13 || d1 == 15 || (n >= 3 && d1 == 14 && 8 <= d2 <= 11))
  }

  function DigitAt(h: string, i: nat): nat
    requires AllHex(h)
  {
    if i < |h| then HexDigit(h[i]) else 0
  }

  lemma PrefixByDigits(h: string)
    requires IsHextet(h)
    ensures HasBlockedPrefix(h) <==> BlockedDigits(|h|, DigitAt(h, 0), DigitAt(h, 1), DigitAt(h, 2))
  {
    PrefixByLetters(h);
  }

  /** The number written with the first `n` digits. */
  function Number(n: nat, d0: nat, d1: nat, d2: nat, d3: nat): nat {
    match n
    case 1 => d0
    case 2 => 0x10 * d0 + d1
    case 3 => 0x100 * d0 + 0x10 * d1 + d2
    case _ => 0x1000 * d0 + 0x100 * d1 + 0x10 * d2 + d3
  }

  lemma DigitsByValue(n: nat, d0: nat, d1: nat, d2: nat, d3: nat)
    requires 1 <= n <= 4 && 0 < d0 < 16 && d1 < 16 && d2 < 16 && d3 < 16
    ensures var v := Number(n, d0, d1, d2, d3); BlockedDigits(n, d0, d1, d2) <==> BlockedHextet(v) || LooksBlocked(v)
  {}

  lemma NumberOfHextet(h: string)
    requires IsHextet(h)
    ensures HexValue(h) == Number(|h|, DigitAt(h, 0), DigitAt(h, 1), DigitAt(h, 2), DigitAt(h, 3))
  {
    HexUnfolded(h);
  }

  lemma PrefixByValue(h: string)
    requires IsTrimmedHextet(h)
    ensures HasBlockedPrefix(h) <==> BlockedHextet(HexValue(h)) || LooksBlocked(HexValue(h))
  {
    PrefixByDigits(h);
    NumberOfHextet(h);
    DigitsByValue(|h|, DigitAt(h, 0), DigitAt(h, 1), DigitAt(h, 2), DigitAt(h, 3));
  }

  lemma {:induction false} ZeroInFront(s: string)
    requires AllHex(s)
    ensures AllHex("0" + s) && HexValue("0" + s) == HexValue(s)
    decreases |s|
  {
    var t := "0" + s;
    if s == "" {
      assert t[..0] == "";
    } else {
      ZeroInFront(s[..|s| - 1]);
      assert t[..|t| - 1] == "0" + s[..|s| - 1];
    }
  }

  /** Leading zeros make no difference to the value. */
  lemma {:induction false} StrippedValue(s: string)
    requires AllHex(s)
    ensures AllHex(StripZeros(s)) && HexValue(StripZeros(s)) == HexValue(s)
    ensures StripZeros(s) != "" ==> StripZeros(s)[0] != '0'
  {
    if s != "" && s[0] == '0' {
      StrippedValue(s[1..]);
      ZeroInFront(s[1..]);
      assert s == "0" + s[1..];
    }
  }

  lemma {:induction false} AllZeros(s: string)
    requires StripZeros(s) == ""
    ensures forall i :: 0 <= i < |s| ==> s[i] == '0'
  {
    if s != "" {
      AllZeros(s[1..]);
      assert s == [s[0]] + s[1..];
    }
  }

  lemma ZeroHasNoPrefix(head: string)
    requires StripZeros(head) == ""
    ensures !HasBlockedPrefix(head)
  {
    AllZeros(head);
    PrefixByLetters(head);
  }

  /** A first group of an address: hexadecimal digits, four of them at most apart from leading zeros. */
  predicate IsFirstGroup(head: string) { head != "" && AllHex(head) && |StripZeros(head)| <= 4 }

  lemma PrefixOfFirstGroup(head: string)
    requires IsFirstGroup(head)
    ensures HasBlockedPrefix(if StripZeros(head) == "" then head else StripZeros(head))
       <==> BlockedHextet(HexValue(head)) || LooksBlocked(HexValue(head))
  {
    StrippedValue(head);
    if StripZeros(head) == "" {
      ZeroHasNoPrefix(head);
    } else {
      PrefixByValue(StripZeros(head));
    }
  }

  lemma NotColonFirst(lower: string)
    requires Split(lower, ':')[0] != ""
    ensures lower != "::1" && lower != "::" && !IsMappedPrivateIpv4(lower)
  {
    CutRejoins(lower, ':');
    var head := Split(lower, ':')[0];
    assert head == Cut(lower, ':').0 && ':' !in head && lower[0] == head[0] && head[0] in head;
    assert "::1"[0] == ':' && "::"[0] == ':' && MAPPED_PREFIX[0] == ':';
  }

  lemma EmptyFirstGroup(lower: string)
    requires Split(lower, ':')[0] == ""
    ensures !HasBlockedPrefix(FirstHextet(lower))
  {
    ZeroHasNoPrefix("");
  }

  /**
   The verdict on an IPv6 literal, in upper or lower case. One that begins with a group of digits is blocked
   exactly if the value of that group is in one of the three ranges or is one of the shorter values that
   begin alike; leading zeros make no difference. One that begins with a colon is blocked exactly if it is
   `::`, `::1` or a mapped private address.
   */
  lemma Ipv6Verdict(host: string)
    requires var head := Split(Lower(host), ':')[0]; head == "" || IsFirstGroup(head)
    ensures var (lower, head) := (Lower(host), Split(Lower(host), ':')[0]);
            IsPrivateIpv6(host) <==>
              if head == "" then
                lower == "::" || lower == "::1" || exists v: nat :: Spells(lower, v) && BlockedValue(v)
              else BlockedHextet(HexValue(head)) || LooksBlocked(HexValue(head))
  {
    var (lower, head) := (Lower(host), Split(Lower(host), ':')[0]);
    if head == "" {
      EmptyFirstGroup(lower);
      MappedExactly(lower);
    } else {
      NotColonFirst(lower);
      PrefixOfFirstGroup(head);
    }
  }
}
