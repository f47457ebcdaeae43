/** IPv4 addresses in dotted-decimal text and the ranges that are not public
    (src/agent/egress-policy.ts). */
module Ipv4Addresses {
  import opened Basics
  import opened Texts

  predicate IsDigit(c: char) {
    '0' <= c <= '9'
  }

  function DigitValue(c: char): (d: nat)
    requires IsDigit(c)
    ensures d < 10
  {
    c as int - '0' as int
  }

  function DigitChar(d: nat): (c: char)
    requires d < 10
    ensures IsDigit(c) && DigitValue(c) == d
  {
    ('0' as int + d) as char
  }

  /** One to three digits without a leading zero. */
  predicate OctetText(s: string) {
    && 1 <= |s| <= 3
    && (forall i :: 0 <= i < |s| ==> IsDigit(s[i]))
    && (s[0] == '0' ==> |s| == 1)
  }

  function Number(s: string): nat
    requires forall i :: 0 <= i < |s| ==> IsDigit(s[i])
  {
    if s == "" then 0 else Number(s[..|s| - 1]) * 10 + DigitValue(s[|s| - 1])
  }

  function Decimal(n: nat): (s: string)
    ensures s != "" && forall i :: 0 <= i < |s| ==> IsDigit(s[i])
  {
    if n < 10 then [DigitChar(n)] else Decimal(n / 10) + [DigitChar(n % 10)]
  }

  lemma OctetOfByte(b: byte)
    ensures OctetText(Decimal(b as int)) && Number(Decimal(b as int)) == b as int
  {
    var n := b as int;
    if n < 10 {
      NumberOne(DigitChar(n));
    } else if n < 100 {
      NumberOne(DigitChar(n / 10));
      NumberSnoc(Decimal(n / 10), DigitChar(n % 10));
    } else {
      NumberOne(DigitChar(n / 100));
      assert n / 10 / 10 == n / 100;
      NumberSnoc(Decimal(n / 100), DigitChar(n / 10 % 10));
      NumberSnoc(Decimal(n / 10), DigitChar(n % 10));
    }
  }

  lemma NumberOne(c: char)
    requires IsDigit(c)
    ensures Number([c]) == DigitValue(c)
  {
    assert [c][..0] == "";
  }

  lemma NumberSnoc(s: string, c: char)
    requires (forall i :: 0 <= i < |s| ==> IsDigit(s[i])) && IsDigit(c)
    ensures Number(s + [c]) == Number(s) * 10 + DigitValue(c)
  {
    assert (s + [c])[..|s|] == s;
  }

  /** A decimal text is the only text of its value. */
  lemma {:induction false} DecimalOfNumber(s: string)
    requires s != "" && (forall i :: 0 <= i < |s| ==> IsDigit(s[i])) && (s[0] == '0' ==> |s| == 1)
    ensures Decimal(Number(s)) == s
    ensures |s| > 1 ==> Number(s) >= 10
    decreases |s|
  {
    var last := s[|s| - 1];
    var front := s[..|s| - 1];
    assert s == front + [last];
    if |s| == 1 {
      NumberOne(last);
      assert s == [last];
    } else {
      DecimalOfNumber(front);
      if |front| == 1 {
        NumberOne(front[0]);
        assert front == [front[0]];
      }
    }
  }

  datatype Quad = Quad(a: byte, b: byte, c: byte, d: byte)

  function QuadParts(q: Quad): (parts: seq<string>)
    ensures |parts| == 4
  {
    [Decimal(q.a as int), Decimal(q.b as int), Decimal(q.c as int), Decimal(q.d as int)]
  }

  /** The text of an address. */
  function QuadText(q: Quad): string {
    Join(QuadParts(q), '.')
  }

  function QuadValue(q: Quad): (v: nat)
    ensures v < 0x1_0000_0000
  {
    ((q.a as int * 256 + q.b as int) * 256 + q.c as int) * 256 + q.d as int
  }

  predicate ValidOctet(s: string) {
    OctetText(s) && Number(s) <= 255
  }

  function ValueOfOctets(octets: seq<string>): nat
    requires forall i :: 0 <= i < |octets| ==> ValidOctet(octets[i])
  {
    if octets == [] then 0
    else
      assert ValidOctet(octets[|octets| - 1]);
      ValueOfOctets(octets[..|octets| - 1]) * 256 + Number(octets[|octets| - 1])
  }

  function Ipv4ToNumber(address: string): Option<nat> {
    var octets := Split(address, '.');
    if |octets| == 4 && forall i :: 0 <= i < |octets| ==> ValidOctet(octets[i])
    then Some(ValueOfOctets(octets)) else None
  }

  /** The loop over the octets. */
  method ParseIpv4(address: string) returns (r: Option<nat>)
    ensures r == Ipv4ToNumber(address)
  {
    var octets := Split(address, '.');
    if |octets| != 4 {
      return None;
    }
    var value := 0;
    for i := 0 to |octets|
      invariant forall j :: 0 <= j < i ==> ValidOctet(octets[j])
      invariant value == ValueOfOctets(octets[..i])
    {
      if !OctetText(octets[i]) {
        return None;
      }
      var parsed := Number(octets[i]);
      if parsed > 255 {
        return None;
      }
      value := value * 256 + parsed;
      assert octets[..i + 1][..i] == octets[..i];
    }
    assert octets[..|octets|] == octets;
    r := Some(value);
  }

  lemma OctetsOfQuad(octets: seq<string>)
    requires |octets| == 4 && forall i :: 0 <= i < |octets| ==> ValidOctet(octets[i])
    ensures ValueOfOctets(octets) ==
            ((Number(octets[0]) * 256 + Number(octets[1])) * 256 + Number(octets[2])) * 256 + Number(octets[3])
  {
    assert octets[..1][..0] == [];
    assert ValueOfOctets(octets[..1]) == Number(octets[0]);
    assert octets[..2][..1] == octets[..1];
    assert ValueOfOctets(octets[..2]) == Number(octets[0]) * 256 + Number(octets[1]);
    assert octets[..3][..2] == octets[..2];
  }

  lemma OctetHasNoDot(b: byte)
    ensures '.' !in Decimal(b as int) && ':' !in Decimal(b as int)
  {
  }

  lemma QuadPartsAreClean(q: Quad)
    ensures Clean(QuadParts(q), '.')
    ensures forall i :: 0 <= i < 4 ==> ValidOctet(QuadParts(q)[i])
  {
    OctetHasNoDot(q.a);
    OctetHasNoDot(q.b);
    OctetHasNoDot(q.c);
    OctetHasNoDot(q.d);
    OctetOfByte(q.a);
    OctetOfByte(q.b);
    OctetOfByte(q.c);
    OctetOfByte(q.d);
  }

  /** Every address's text is read back as its value. */
  lemma QuadParses(q: Quad)
    ensures Ipv4ToNumber(QuadText(q)) == Some(QuadValue(q))
  {
    QuadPartsAreClean(q);
    SplitOfJoin(QuadParts(q), '.');
    OctetsOfQuad(QuadParts(q));
    OctetOfByte(q.a);
    OctetOfByte(q.b);
    OctetOfByte(q.c);
    OctetOfByte(q.d);
  }

  /** Nothing else is accepted. */
  lemma OnlyQuadsParse(address: string) returns (q: Quad)
    requires Ipv4ToNumber(address).Some?
    ensures address == QuadText(q) && Ipv4ToNumber(address) == Some(QuadValue(q))
  {
    var octets := Split(address, '.');
    JoinOfSplit(address, '.');
    OctetsOfQuad(octets);
    q := Quad(OctetByte(octets[0]), OctetByte(octets[1]), OctetByte(octets[2]), OctetByte(octets[3]));
    assert octets == QuadParts(q);
  }

  function OctetByte(s: string): (b: byte)
    requires ValidOctet(s)
    ensures b as int == Number(s) && Decimal(b as int) == s
  {
    DecimalOfNumber(s);
    Number(s) as byte
  }
}
