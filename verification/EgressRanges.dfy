/** The listed address ranges in the octets and words that people read them in. */
module EgressRanges {
  import opened Basics
  import opened Texts
  import opened Ipv4Addresses
  import opened Ipv6Addresses
  import opened Ipv6TextForms
  import opened EgressPolicy

  /** The blocks of IPv4 addresses that are not on the public Internet. */
  predicate SpecialUse(q: Quad) {
    || q.a == 0 || q.a == 10 || q.a == 127 || q.a >= 224
    || (q.a == 100 && 64 <= q.b < 128)
    || (q.a == 169 && q.b == 254)
    || (q.a == 172 && 16 <= q.b < 32)
    || (q.a == 192 && q.b == 168)
    || (q.a == 192 && q.b == 0 && (q.c == 0 || q.c == 2))
    || (q.a == 192 && q.b == 88 && q.c == 99)
    || (q.a == 198 && 18 <= q.b < 20)
    || (q.a == 198 && q.b == 51 && q.c == 100)
    || (q.a == 203 && q.b == 0 && q.c == 113)
    || (q.a == 168 && q.b == 63 && q.c == 129 && q.d == 16)
  }

  lemma Powers()
    ensures Pow2(0) == 1 && Pow2(8) == 0x100 && Pow2(16) == 0x1_0000 && Pow2(17) == 0x2_0000
    ensures Pow2(20) == 0x10_0000 && Pow2(22) == 0x40_0000 && Pow2(24) == 0x100_0000 && Pow2(28) == 0x1000_0000
  {
    assert Pow2(4) == 16;
    assert Pow2(8) == 16 * Pow2(4);
    assert Pow2(12) == 16 * Pow2(8);
    assert Pow2(16) == 16 * Pow2(12);
    assert Pow2(20) == 16 * Pow2(16);
    assert Pow2(24) == 16 * Pow2(20);
    assert Pow2(28) == 16 * Pow2(24);
    assert Pow2(22) == 4 * Pow2(20);
  }

  /** What an address is without its last bits. */
  lemma Prefixes(q: Quad)
    ensures var v := QuadValue(q);
      && v / 0x1000_0000 == q.a as int / 16 && v / 0x100_0000 == q.a as int
      && v / 0x40_0000 == q.a as int * 4 + q.b as int / 64
      && v / 0x10_0000 == q.a as int * 16 + q.b as int / 16
      && v / 0x2_0000 == q.a as int * 128 + q.b as int / 2
      && v / 0x1_0000 == q.a as int * 256 + q.b as int
      && v / 0x100 == (q.a as int * 256 + q.b as int) * 256 + q.c as int
  {
  }

  lemma InBlock(q: Quad, base: Quad, bits: nat)
    requires bits <= 32
    ensures V4Block(base, bits).Addresses().Contains(QuadValue(q)) <==>
      Quotient(QuadValue(q), Pow2(32 - bits)) == Quotient(QuadValue(base), Pow2(32 - bits))
  {
    CidrIsARange(QuadValue(q), QuadValue(base), 32 - bits);
  }

  /** Does the address share the first bits of `base`, of the lengths that are listed? */
  predicate SharesPrefix(q: Quad, base: Quad, bits: nat) {
    match bits
    case 4 => q.a as int / 16 == base.a as int / 16
    case 8 => q.a == base.a
    case 10 => q.a == base.a && q.b as int / 64 == base.b as int / 64
    case 12 => q.a == base.a && q.b as int / 16 == base.b as int / 16
    case 15 => q.a == base.a && q.b as int / 2 == base.b as int / 2
    case 16 => q.a == base.a && q.b == base.b
    case 24 => q.a == base.a && q.b == base.b && q.c == base.c
    case 32 => q == base
    case _ => false
  }

  /** The first bits of an address, as a number. */
  function PrefixNumber(q: Quad, bits: nat): nat {
    match bits
    case 4 => q.a as int / 16
    case 8 => q.a as int
    case 10 => q.a as int * 4 + q.b as int / 64
    case 12 => q.a as int * 16 + q.b as int / 16
    case 15 => q.a as int * 128 + q.b as int / 2
    case 16 => q.a as int * 256 + q.b as int
    case 24 => (q.a as int * 256 + q.b as int) * 256 + q.c as int
    case _ => QuadValue(q)
  }

  predicate ListedLength(bits: nat) { bits in {4, 8, 10, 12, 15, 16, 24, 32} }

  lemma PrefixIs(q: Quad, bits: nat)
    requires ListedLength(bits)
    ensures Quotient(QuadValue(q), Pow2(32 - bits)) == PrefixNumber(q, bits)
  {
    Powers();
    Prefixes(q);
    var v := QuadValue(q);
    match bits
    case 4 => QuotientBy(v, Pow2(28), 0x1000_0000);
    case 8 => QuotientBy(v, Pow2(24), 0x100_0000);
    case 10 => QuotientBy(v, Pow2(22), 0x40_0000);
    case 12 => QuotientBy(v, Pow2(20), 0x10_0000);
    case 15 => QuotientBy(v, Pow2(17), 0x2_0000);
    case 16 => QuotientBy(v, Pow2(16), 0x1_0000);
    case 24 => QuotientBy(v, Pow2(8), 0x100);
    case _ => QuotientBy(v, Pow2(0), 1);
  }

  lemma QuotientBy(v: nat, size: nat, number: nat)
    requires size == number > 0
    ensures Quotient(v, size) == v / number
  {
  }

  lemma SameParts(m: nat, x: nat, y: nat, u: nat, v: nat)
    requires m in {4, 16, 128, 256} && y < m && v < m
    ensures x * m + y == u * m + v <==> x == u && y == v
  {
    if m == 4 {
    } else if m == 16 {
    } else if m == 128 {
    } else {
    }
  }

  lemma SamePrefix(q: Quad, p: Quad, bits: nat)
    requires ListedLength(bits)
    ensures PrefixNumber(q, bits) == PrefixNumber(p, bits) <==> SharesPrefix(q, p, bits)
  {
    match bits
    case 10 => SameParts(4, q.a as int, q.b as int / 64, p.a as int, p.b as int / 64);
    case 12 => SameParts(16, q.a as int, q.b as int / 16, p.a as int, p.b as int / 16);
    case 15 => SameParts(128, q.a as int, q.b as int / 2, p.a as int, p.b as int / 2);
    case _ =>
      SameParts(256, q.a as int, q.b as int, p.a as int, p.b as int);
      var x, y := q.a as int * 256 + q.b as int, p.a as int * 256 + p.b as int;
      SameParts(256, x, q.c as int, y, p.c as int);
      SameParts(256, x * 256 + q.c as int, q.d as int, y * 256 + p.c as int, p.d as int);
  }

  lemma BlockByOctets(q: Quad, b: V4Block)
    requires ListedLength(b.bits)
    ensures b.bits <= 32 && (b.Addresses().Contains(QuadValue(q)) <==> SharesPrefix(q, b.base, b.bits))
  {
    PrefixIs(q, b.bits);
    PrefixIs(b.base, b.bits);
    SamePrefix(q, b.base, b.bits);
    InBlock(q, b.base, b.bits);
  }

  /** Every listed block is for special use, and every address for special use is listed. */
  lemma ListedByOctets(q: Quad)
    ensures SpecialUse(q) <==> exists i :: 0 <= i < |NONPUBLIC_V4| && SharesPrefix(q, NONPUBLIC_V4[i].base, NONPUBLIC_V4[i].bits)
  {
    forall i | 0 <= i < |NONPUBLIC_V4| && SharesPrefix(q, NONPUBLIC_V4[i].base, NONPUBLIC_V4[i].bits) ensures SpecialUse(q) {}
    if SpecialUse(q) { FindListed(q); }
  }

  lemma FindListed(q: Quad)
    requires SpecialUse(q)
    ensures exists i :: 0 <= i < |NONPUBLIC_V4| && SharesPrefix(q, NONPUBLIC_V4[i].base, NONPUBLIC_V4[i].bits)
  {
    var i :=
      if q.a == 0 then 0 else if q.a == 10 then 1 else if q.a == 100 then 2 else if q.a == 127 then 3
      else if q.a == 168 then 4 else if q.a == 169 then 5 else if q.a == 172 then 6
      else if q.a == 192 then (if q.b == 168 then 10 else if q.b == 88 then 9 else if q.c == 2 then 8 else 7)
      else if q.a == 198 then (if q.b == 51 then 12 else 11)
      else if q.a == 203 then 13 else if q.a < 240 then 14 else 15;
    assert SharesPrefix(q, NONPUBLIC_V4[i].base, NONPUBLIC_V4[i].bits);
  }

  /** An IPv4 address is public exactly when its octets are in no block for special use. */
  lemma PublicV4ByOctets(q: Quad)
    ensures IsPublicIpv4(QuadText(q)) <==> !SpecialUse(q)
  {
    PublicV4IsTheComplement(q);
    ListedByOctets(q);
    BitsAreListed();
    forall i | 0 <= i < |NONPUBLIC_V4|
      ensures NONPUBLIC_V4[i].bits <= 32
           && (NONPUBLIC_V4[i].Addresses().Contains(QuadValue(q)) <==> SharesPrefix(q, NONPUBLIC_V4[i].base, NONPUBLIC_V4[i].bits))
    {
      BlockByOctets(q, NONPUBLIC_V4[i]);
    }
  }

  lemma BitsAreListed()
    ensures forall i :: 0 <= i < |NONPUBLIC_V4| ==> ListedLength(NONPUBLIC_V4[i].bits)
  {
  }

  // ---- IPv6 ------------------------------------------------------------------

  predicate Words16(n: seq<nat>) { forall i :: 0 <= i < |n| ==> n[i] < 0x1_0000 }

  /** In 2000::/3, and in no listed block: by the words of the address. */
  predicate GlobalWords(n: seq<nat>)
    requires |n| == 8
  {
    && 0x2000 <= n[0] < 0x4000
    && !(n[0] == 0x2001 && n[1] == 0)
    && !(n[0] == 0x2001 && n[1] == 2 && n[2] == 0)
    && !(n[0] == 0x2001 && 0x10 <= n[1] < 0x30)
    && !(n[0] == 0x2001 && n[1] == 0xdb8)
    && n[0] != 0x2002 && n[0] != 0x3ffe
  }

  lemma LastWordOff(n: seq<nat>)
    requires n != [] && Words16(n)
    ensures Horner(n) / 0x1_0000 == Horner(n[..|n| - 1])
  {
  }

  lemma Pow2Four(k: nat)
    ensures Pow2(k + 4) == 16 * Pow2(k)
  {
    assert Pow2(k + 1) == 2 * Pow2(k);
    assert Pow2(k + 2) == 2 * Pow2(k + 1);
    assert Pow2(k + 3) == 2 * Pow2(k + 2);
    assert Pow2(k + 4) == 2 * Pow2(k + 3);
  }

  lemma Pow2OfWord(k: nat)
    ensures Pow2(k + 16) == 0x1_0000 * Pow2(k)
  {
    Pow2Four(k);
    Pow2Four(k + 4);
    Pow2Four(k + 8);
    Pow2Four(k + 12);
  }

  /** Without its last words, an address is its first words. */
  lemma {:induction false} FirstWords(n: seq<nat>, k: nat)
    requires Words16(n) && k <= |n|
    ensures Quotient(Horner(n), Pow2(16 * k)) == Horner(n[..|n| - k])
    decreases k
  {
    if k == 0 {
      assert n[..|n|] == n;
    } else {
      LastWordOff(n);
      Pow2OfWord(16 * (k - 1));
      DivideTwice(Horner(n), 0x1_0000, Pow2(16 * (k - 1)));
      FirstWords(n[..|n| - 1], k - 1);
      assert n[..|n| - 1][..|n| - k] == n[..|n| - k];
    }
  }

  lemma {:induction false} HexIsSmall(s: string)
    requires forall i :: 0 <= i < |s| ==> IsHex(s[i])
    ensures HexValue(s) < Pow16(|s|)
    decreases |s|
  {
    if s != "" { HexIsSmall(s[..|s| - 1]); }
  }

  lemma WordIsSmall(s: string)
    requires IsWord(s)
    ensures HexValue(s) < 0x1_0000
  {
    HexIsSmall(s);
    assert Pow16(1) == 16 && Pow16(2) == 16 * Pow16(1) && Pow16(3) == 16 * Pow16(2) && Pow16(4) == 16 * Pow16(3);
  }

  lemma HexesAreSmall(words: seq<string>)
    requires AllWords(words)
    ensures Words16(Hexes(words))
  {
    forall i | 0 <= i < |words| ensures Hexes(words)[i] < 0x1_0000 {
      assert IsWord(words[i]);
      WordIsSmall(words[i]);
    }
  }

  lemma NumbersAreSmall(t: AddressText)
    requires t.Valid()
    ensures Words16(t.Numbers())
  {
    match t.groups
    case Full(words) => HexesAreSmall(words);
    case Elided(left, right) => HexesAreSmall(left); HexesAreSmall(right);
  }

  lemma HexOfFour(s: string)
    requires IsWord(s) && |s| == 4
    ensures HexValue(s) == ((HexDigit(s[0]) * 16 + HexDigit(s[1])) * 16 + HexDigit(s[2])) * 16 + HexDigit(s[3])
  {
    assert s[..3][..2] == s[..2] && s[..2][..1] == s[..1] && s[..1][..0] == "";
    assert HexValue(s[..1]) == HexDigit(s[0]);
    assert HexValue(s[..2]) == HexValue(s[..1]) * 16 + HexDigit(s[1]);
    assert HexValue(s[..3]) == HexValue(s[..2]) * 16 + HexDigit(s[2]);
  }

  lemma HexOfTwo(s: string)
    requires IsWord(s) && |s| == 2
    ensures HexValue(s) == HexDigit(s[0]) * 16 + HexDigit(s[1])
  {
    assert s[..1][..0] == "";
    assert HexValue(s[..1]) == HexDigit(s[0]);
  }

  /** The words that the listed blocks are written with. */
  lemma ListedWords()
    ensures HexValue("2001") == 0x2001 && HexValue("2002") == 0x2002 && HexValue("3ffe") == 0x3ffe
    ensures HexValue("2") == 2 && HexValue("10") == 0x10 && HexValue("20") == 0x20 && HexValue("db8") == 0xdb8
  {
    HexOfFour("2001");
    HexOfFour("2002");
    HexOfFour("3ffe");
    HexOfTwo("10");
    HexOfTwo("20");
    assert "2"[..0] == "";
    HexOfTwo("db");
    assert "db8"[..2] == "db";
  }

  /** The numbers of a base written as one or two groups and "::". */
  lemma BaseNumbers(b: V6Block)
    requires b.Valid() && 1 <= |b.words| <= 2 && AllWords(b.words)
    ensures var n := b.Form().Numbers();
      && n[0] == HexValue(b.words[0]) && n[2] == 0
      && n[1] == if |b.words| == 2 then (assert IsWord(b.words[1]); HexValue(b.words[1])) else 0
  {
  }

  lemma HornerOfFirst(n: seq<nat>)
    requires |n| == 8
    ensures Horner(n[..1]) == n[0] && Horner(n[..2]) == n[0] * 0x1_0000 + n[1]
    ensures Horner(n[..3]) == (n[0] * 0x1_0000 + n[1]) * 0x1_0000 + n[2]
  {
    assert n[..1][..0] == [] && n[..2][..1] == n[..1] && n[..3][..2] == n[..2];
  }

  /** The first bits of an IPv6 address, of the lengths that are listed. */
  function V6Prefix(n: seq<nat>, bits: nat): nat
    requires |n| == 8
  {
    match bits
    case 3 => n[0] / 0x2000
    case 16 => n[0]
    case 28 => (n[0] * 0x1_0000 + n[1]) / 16
    case 32 => n[0] * 0x1_0000 + n[1]
    case _ => (n[0] * 0x1_0000 + n[1]) * 0x1_0000 + n[2]
  }

  lemma Pow2Thirteen(k: nat)
    ensures Pow2(k + 13) == Pow2(k) * 0x2000
  {
    Pow2Four(k);
    Pow2Four(k + 4);
    Pow2Four(k + 8);
    assert Pow2(k + 13) == 2 * Pow2(k + 12);
  }

  lemma V6PrefixIs(n: seq<nat>, bits: nat)
    requires |n| == 8 && Words16(n) && bits in {3, 16, 28, 32, 48}
    ensures Quotient(Horner(n), Pow2(128 - bits)) == V6Prefix(n, bits)
  {
    HornerOfFirst(n);
    match bits
    case 3 =>
      Pow2Thirteen(112);
      FirstWords(n, 7);
      DivideTwice(Horner(n), Pow2(112), 0x2000);
    case 16 => FirstWords(n, 7);
    case 28 =>
      Pow2Four(96);
      FirstWords(n, 6);
      DivideTwice(Horner(n), Pow2(96), 16);
    case 32 => FirstWords(n, 6);
    case _ => FirstWords(n, 5);
  }

  /** The words of an address in the `i`th listed block. */
  predicate InListedBlock(n: seq<nat>, i: nat)
    requires |n| == 8
  {
    match i
    case 0 => n[0] == 0x2001 && n[1] == 0
    case 1 => n[0] == 0x2001 && n[1] == 2 && n[2] == 0
    case 2 => n[0] == 0x2001 && n[1] / 16 == 1
    case 3 => n[0] == 0x2001 && n[1] / 16 == 2
    case 4 => n[0] == 0x2001 && n[1] == 0xdb8
    case 5 => n[0] == 0x2002
    case _ => n[0] == 0x3ffe
  }

  lemma InV6Block(t: AddressText, b: V6Block)
    requires t.Valid() && b.Valid() && b.bits in {16, 28, 32, 48}
    ensures b.Addresses().Contains(t.Meaning()) <==> V6Prefix(t.Numbers(), b.bits) == V6Prefix(b.Form().Numbers(), b.bits)
  {
    NumbersAreSmall(t);
    NumbersAreSmall(b.Form());
    V6PrefixIs(t.Numbers(), b.bits);
    V6PrefixIs(b.Form().Numbers(), b.bits);
    CidrIsARange(t.Meaning(), b.Form().Meaning(), 128 - b.bits);
  }

  lemma SameWords(x: nat, y: nat, u: nat, v: nat)
    requires y < 0x1_0000 && v < 0x1_0000
    ensures x * 0x1_0000 + y == u * 0x1_0000 + v <==> x == u && y == v
    ensures (x * 0x1_0000 + y) / 16 == (u * 0x1_0000 + v) / 16 <==> x == u && y / 16 == v / 16
  {
    assert (x * 0x1_0000 + y) / 16 == x * 0x1000 + y / 16;
    assert (u * 0x1_0000 + v) / 16 == u * 0x1000 + v / 16;
  }

  lemma SameV6Prefix(n: seq<nat>, m: seq<nat>, bits: nat)
    requires |n| == |m| == 8 && Words16(n) && Words16(m) && bits in {16, 28, 32, 48}
    ensures V6Prefix(n, bits) == V6Prefix(m, bits) <==>
      && n[0] == m[0]
      && (bits == 28 ==> n[1] / 16 == m[1] / 16) && (bits >= 32 ==> n[1] == m[1]) && (bits == 48 ==> n[2] == m[2])
  {
    SameWords(n[0], n[1], m[0], m[1]);
    SameWords(n[0] * 0x1_0000 + n[1], n[2], m[0] * 0x1_0000 + m[1], m[2]);
  }

  lemma BlockByWords(t: AddressText, i: nat)
    requires t.Valid() && i < |NONPUBLIC_V6|
    ensures NONPUBLIC_V6[i].Valid()
    ensures NONPUBLIC_V6[i].Addresses().Contains(t.Meaning()) <==> InListedBlock(t.Numbers(), i)
  {
    V6ListIsWellFormed();
    var b := NONPUBLIC_V6[i];
    assert AllWords(b.words);
    InV6Block(t, b);
    NumbersAreSmall(t);
    NumbersAreSmall(b.Form());
    SameV6Prefix(t.Numbers(), b.Form().Numbers(), b.bits);
    BaseNumbers(b);
    ListedWords();
  }

  lemma FirstThreeBits(t: AddressText)
    requires t.Valid()
    ensures MultiplesOf(1, Pow2(125)).Contains(t.Meaning()) <==> t.Numbers()[0] / 0x2000 == 1
  {
    NumbersAreSmall(t);
    V6PrefixIs(t.Numbers(), 3);
    QuotientIs(t.Meaning(), Pow2(125), 1);
  }

  lemma BlocksByWords(t: AddressText)
    requires t.Valid()
    ensures (forall i :: 0 <= i < |NONPUBLIC_V6| ==> NONPUBLIC_V6[i].Valid() && !NONPUBLIC_V6[i].Addresses().Contains(t.Meaning()))
       <==> forall i :: 0 <= i < |NONPUBLIC_V6| ==> !InListedBlock(t.Numbers(), i)
  {
    forall i | 0 <= i < |NONPUBLIC_V6|
      ensures NONPUBLIC_V6[i].Valid() && (NONPUBLIC_V6[i].Addresses().Contains(t.Meaning()) <==> InListedBlock(t.Numbers(), i))
    {
      BlockByWords(t, i);
    }
  }

  /** In whatever form it is written, an IPv6 address is public exactly when its words say so. */
  lemma PublicV6ByWords(address: string, t: AddressText)
    requires t.Valid() && Lower(address) == t.Text()
    ensures IsPublicIpv6(address) <==> GlobalWords(t.Numbers())
  {
    PublicV6IsTheComplement(address, t);
    FirstThreeBits(t);
    BlocksByWords(t);
    WordsOfTheList(t.Numbers());
  }

  lemma WordsOfTheList(n: seq<nat>)
    requires |n| == 8
    ensures GlobalWords(n) <==> n[0] / 0x2000 == 1 && forall i :: 0 <= i < |NONPUBLIC_V6| ==> !InListedBlock(n, i)
  {
    if forall i :: 0 <= i < |NONPUBLIC_V6| ==> !InListedBlock(n, i) {
      assert !InListedBlock(n, 0) && !InListedBlock(n, 1) && !InListedBlock(n, 2) && !InListedBlock(n, 3);
      assert !InListedBlock(n, 4) && !InListedBlock(n, 5) && !InListedBlock(n, 6);
    }
  }
}
