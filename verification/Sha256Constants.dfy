/** What the constants and the number formats of SHA-256 are (sections 3.1, 4.2.2 and 5.3.3
    of FIPS 180-4): fractional bits of roots of primes, and big-endian numbers. */
module Sha256Constants {
  import opened Basics
  import opened Sha256

  // ---- Roots of primes -------------------------------------------------------

  /** The first 64 primes, in rows of eight. */
  const PRIMES0: seq<nat> := [2, 3, 5, 7, 11, 13, 17, 19]
  const PRIMES1: seq<nat> := [23, 29, 31, 37, 41, 43, 47, 53]
  const PRIMES2: seq<nat> := [59, 61, 67, 71, 73, 79, 83, 89]
  const PRIMES3: seq<nat> := [97, 101, 103, 107, 109, 113, 127, 131]
  const PRIMES4: seq<nat> := [137, 139, 149, 151, 157, 163, 167, 173]
  const PRIMES5: seq<nat> := [179, 181, 191, 193, 197, 199, 211, 223]
  const PRIMES6: seq<nat> := [227, 229, 233, 239, 241, 251, 257, 263]
  const PRIMES7: seq<nat> := [269, 271, 277, 281, 283, 293, 307, 311]

  const PRIMES: seq<nat> :=
    PRIMES0 + (PRIMES1 + (PRIMES2 + (PRIMES3 + (PRIMES4 + (PRIMES5 + (PRIMES6 + PRIMES7))))))

  const TWO_32: nat := 0x1_0000_0000

  function Cube(r: nat): nat { r * r * r }

  function Square(r: nat): nat { r * r }

  /** `bits` are the first 32 bits of the fractional part of the cube root of `p`, whose
      whole part is `whole`. */
  predicate CubeRootBits(p: nat, whole: nat, bits: nat) {
    bits < TWO_32 && Cube(whole * TWO_32 + bits) <= p * Cube(TWO_32) < Cube(whole * TWO_32 + bits + 1)
  }

  predicate SquareRootBits(p: nat, whole: nat, bits: nat) {
    bits < TWO_32 && Square(whole * TWO_32 + bits) <= p * Square(TWO_32) < Square(whole * TWO_32 + bits + 1)
  }

  ghost predicate FromCubeRoot(p: nat, k: word) { exists whole {:trigger Whole(whole)} :: Whole(whole) && CubeRootBits(p, whole, k as nat) }

  ghost predicate FromSquareRoot(p: nat, h: word) { exists whole {:trigger Whole(whole)} :: Whole(whole) && SquareRootBits(p, whole, h as nat) }

  predicate Whole(n: nat) { n >= 0 }

  lemma CubeRoot(k: word, p: nat, whole: nat, bits: nat)
    requires k as nat == bits && CubeRootBits(p, whole, bits)
    ensures FromCubeRoot(p, k)
  {
    assert Whole(whole);
  }

  lemma SquareRoot(h: word, p: nat, whole: nat, bits: nat)
    requires h as nat == bits && SquareRootBits(p, whole, bits)
    ensures FromSquareRoot(p, h)
  {
    assert Whole(whole);
  }

  ghost predicate AllFromCubeRoots(ps: seq<nat>, ks: seq<word>) {
    |ps| == |ks| && forall i :: 0 <= i < |ps| ==> FromCubeRoot(ps[i], ks[i])
  }

  lemma RowsJoin(p: seq<nat>, ps: seq<nat>, k: seq<word>, ks: seq<word>)
    requires AllFromCubeRoots(p, k) && AllFromCubeRoots(ps, ks)
    ensures AllFromCubeRoots(p + ps, k + ks)
  {
  }

  lemma Row0()
    ensures AllFromCubeRoots(PRIMES0, K0)
  {
    CubeRoot(K0[0], 2, 1, 0x428a2f98);
    CubeRoot(K0[1], 3, 1, 0x71374491);
    CubeRoot(K0[2], 5, 1, 0xb5c0fbcf);
    CubeRoot(K0[3], 7, 1, 0xe9b5dba5);
    CubeRoot(K0[4], 11, 2, 0x3956c25b);
    CubeRoot(K0[5], 13, 2, 0x59f111f1);
    CubeRoot(K0[6], 17, 2, 0x923f82a4);
    CubeRoot(K0[7], 19, 2, 0xab1c5ed5);
  }

  lemma Row1()
    ensures AllFromCubeRoots(PRIMES1, K1)
  {
    CubeRoot(K1[0], 23, 2, 0xd807aa98);
    CubeRoot(K1[1], 29, 3, 0x12835b01);
    CubeRoot(K1[2], 31, 3, 0x243185be);
    CubeRoot(K1[3], 37, 3, 0x550c7dc3);
    CubeRoot(K1[4], 41, 3, 0x72be5d74);
    CubeRoot(K1[5], 43, 3, 0x80deb1fe);
    CubeRoot(K1[6], 47, 3, 0x9bdc06a7);
    CubeRoot(K1[7], 53, 3, 0xc19bf174);
  }

  lemma Row2()
    ensures AllFromCubeRoots(PRIMES2, K2)
  {
    CubeRoot(K2[0], 59, 3, 0xe49b69c1);
    CubeRoot(K2[1], 61, 3, 0xefbe4786);
    CubeRoot(K2[2], 67, 4, 0x0fc19dc6);
    CubeRoot(K2[3], 71, 4, 0x240ca1cc);
    CubeRoot(K2[4], 73, 4, 0x2de92c6f);
    CubeRoot(K2[5], 79, 4, 0x4a7484aa);
    CubeRoot(K2[6], 83, 4, 0x5cb0a9dc);
    CubeRoot(K2[7], 89, 4, 0x76f988da);
  }

  lemma Row3()
    ensures AllFromCubeRoots(PRIMES3, K3)
  {
    CubeRoot(K3[0], 97, 4, 0x983e5152);
    CubeRoot(K3[1], 101, 4, 0xa831c66d);
    CubeRoot(K3[2], 103, 4, 0xb00327c8);
    CubeRoot(K3[3], 107, 4, 0xbf597fc7);
    CubeRoot(K3[4], 109, 4, 0xc6e00bf3);
    CubeRoot(K3[5], 113, 4, 0xd5a79147);
    CubeRoot(K3[6], 127, 5, 0x06ca6351);
    CubeRoot(K3[7], 131, 5, 0x14292967);
  }

  lemma Row4()
    ensures AllFromCubeRoots(PRIMES4, K4)
  {
    CubeRoot(K4[0], 137, 5, 0x27b70a85);
    CubeRoot(K4[1], 139, 5, 0x2e1b2138);
    CubeRoot(K4[2], 149, 5, 0x4d2c6dfc);
    CubeRoot(K4[3], 151, 5, 0x53380d13);
    CubeRoot(K4[4], 157, 5, 0x650a7354);
    CubeRoot(K4[5], 163, 5, 0x766a0abb);
    CubeRoot(K4[6], 167, 5, 0x81c2c92e);
    CubeRoot(K4[7], 173, 5, 0x92722c85);
  }

  lemma Row5()
    ensures AllFromCubeRoots(PRIMES5, K5)
  {
    CubeRoot(K5[0], 179, 5, 0xa2bfe8a1);
    CubeRoot(K5[1], 181, 5, 0xa81a664b);
    CubeRoot(K5[2], 191, 5, 0xc24b8b70);
    CubeRoot(K5[3], 193, 5, 0xc76c51a3);
    CubeRoot(K5[4], 197, 5, 0xd192e819);
    CubeRoot(K5[5], 199, 5, 0xd6990624);
    CubeRoot(K5[6], 211, 5, 0xf40e3585);
    CubeRoot(K5[7], 223, 6, 0x106aa070);
  }

  lemma Row6()
    ensures AllFromCubeRoots(PRIMES6, K6)
  {
    CubeRoot(K6[0], 227, 6, 0x19a4c116);
    CubeRoot(K6[1], 229, 6, 0x1e376c08);
    CubeRoot(K6[2], 233, 6, 0x2748774c);
    CubeRoot(K6[3], 239, 6, 0x34b0bcb5);
    CubeRoot(K6[4], 241, 6, 0x391c0cb3);
    CubeRoot(K6[5], 251, 6, 0x4ed8aa4a);
    CubeRoot(K6[6], 257, 6, 0x5b9cca4f);
    CubeRoot(K6[7], 263, 6, 0x682e6ff3);
  }

  lemma Row7()
    ensures AllFromCubeRoots(PRIMES7, K7)
  {
    CubeRoot(K7[0], 269, 6, 0x748f82ee);
    CubeRoot(K7[1], 271, 6, 0x78a5636f);
    CubeRoot(K7[2], 277, 6, 0x84c87814);
    CubeRoot(K7[3], 281, 6, 0x8cc70208);
    CubeRoot(K7[4], 283, 6, 0x90befffa);
    CubeRoot(K7[5], 293, 6, 0xa4506ceb);
    CubeRoot(K7[6], 307, 6, 0xbef9a3f7);
    CubeRoot(K7[7], 311, 6, 0xc67178f2);
  }

  /** Every round constant is the first 32 bits of the fractional part of the cube root of
      its prime. */
  lemma ConstantsAreCubeRoots()
    ensures |K| == 64 && AllFromCubeRoots(PRIMES, K)
  {
    Row7();
    Row6();
    RowsJoin(PRIMES6, PRIMES7, K6, K7);
    Row5();
    RowsJoin(PRIMES5, PRIMES6 + PRIMES7, K5, K6 + K7);
    Row4();
    RowsJoin(PRIMES4, PRIMES5 + (PRIMES6 + PRIMES7), K4, K5 + (K6 + K7));
    Row3();
    RowsJoin(PRIMES3, PRIMES4 + (PRIMES5 + (PRIMES6 + PRIMES7)), K3, K4 + (K5 + (K6 + K7)));
    Row2();
    RowsJoin(PRIMES2, PRIMES3 + (PRIMES4 + (PRIMES5 + (PRIMES6 + PRIMES7))), K2, K3 + (K4 + (K5 + (K6 + K7))));
    Row1();
    RowsJoin(PRIMES1, PRIMES2 + (PRIMES3 + (PRIMES4 + (PRIMES5 + (PRIMES6 + PRIMES7)))), K1, K2 + (K3 + (K4 + (K5 + (K6 + K7)))));
    Row0();
    RowsJoin(PRIMES0, PRIMES1 + (PRIMES2 + (PRIMES3 + (PRIMES4 + (PRIMES5 + (PRIMES6 + PRIMES7))))), K0, K1 + (K2 + (K3 + (K4 + (K5 + (K6 + K7))))));
  }

  /** The initial hash value is the first 32 bits of the fractional parts of the square
      roots of the first eight primes. */
  lemma InitialIsSquareRoots()
    ensures forall i :: 0 <= i < 8 ==> FromSquareRoot(PRIMES0[i], Words(INITIAL)[i])
  {
    SquareRoot(INITIAL.a, 2, 1, 0x6a09e667);
    SquareRoot(INITIAL.b, 3, 1, 0xbb67ae85);
    SquareRoot(INITIAL.c, 5, 2, 0x3c6ef372);
    SquareRoot(INITIAL.d, 7, 2, 0xa54ff53a);
    SquareRoot(INITIAL.e, 11, 3, 0x510e527f);
    SquareRoot(INITIAL.f, 13, 3, 0x9b05688c);
    SquareRoot(INITIAL.g, 17, 4, 0x1f83d9ab);
    SquareRoot(INITIAL.h, 19, 4, 0x5be0cd19);
  }

  // ---- Numbers ---------------------------------------------------------------

  /** The number that bytes spell, most significant first. */
  function Spelled(b: bytes): nat {
    if b == [] then 0 else 256 * Spelled(b[..|b| - 1]) + b[|b| - 1] as nat
  }

  lemma {:induction false} BytesSpell(v: nat, n: nat)
    ensures Spelled(BigEndianBytes(v, n)) == v % Pow256(n)
    decreases n
  {
    if n > 0 {
      var b := BigEndianBytes(v, n);
      assert b[..n - 1] == BigEndianBytes(v / 256, n - 1);
      BytesSpell(v / 256, n - 1);
      DivideTwice(v, 256, Pow256(n - 1));
    }
  }

  /** Four bytes make the word whose value they spell. */
  lemma WordsSpell(b0: byte, b1: byte, b2: byte, b3: byte)
    ensures Spelled([b0, b1, b2, b3]) < TWO_32 && WordOf(b0, b1, b2, b3) == Spelled([b0, b1, b2, b3]) as word
  {
    assert [b0, b1, b2, b3][..3] == [b0, b1, b2] && [b0, b1, b2][..2] == [b0, b1] && [b0, b1][..1] == [b0] && [b0][..0] == [];
    assert Spelled([b0]) == b0 as nat;
    assert Spelled([b0, b1]) == 256 * Spelled([b0]) + b1 as nat;
    assert Spelled([b0, b1, b2]) == 256 * Spelled([b0, b1]) + b2 as nat;
    assert Spelled([b0, b1, b2, b3]) == 256 * Spelled([b0, b1, b2]) + b3 as nat;
  }

  /** The value of a hexadecimal digit: 0 to 9, then a to f. */
  function DigitValue(c: char): nat {
    if '0' <= c <= '9' then (c as int - '0' as int) as nat
    else if 'a' <= c <= 'f' then (c as int - 'a' as int + 10) as nat
    else 16
  }

  function HexValue(s: string): nat {
    if s == "" then 0 else 16 * HexValue(s[..|s| - 1]) + DigitValue(s[|s| - 1])
  }

  function Pow16(n: nat): (p: nat)
    ensures p > 0
  {
    if n == 0 then 1 else 16 * Pow16(n - 1)
  }

  lemma DigitSpells(v: nat)
    requires v < 16
    ensures DigitValue(HexDigit(v)) == v
  {
  }

  lemma {:induction false} DigitsSpell(v: nat, n: nat)
    ensures HexValue(HexDigits(v, n)) == v % Pow16(n)
    decreases n
  {
    if n > 0 {
      var s := HexDigits(v, n);
      assert s[..n - 1] == HexDigits(v / 16, n - 1);
      DigitSpells(v % 16);
      DigitsSpell(v / 16, n - 1);
      DivideTwice(v, 16, Pow16(n - 1));
    }
  }

  /** A word is written as the eight hexadecimal digits of its value. */
  lemma HexWordSpells(x: word)
    ensures |HexWord(x)| == 8 && HexValue(HexWord(x)) == x as nat
  {
    DigitsSpell(x as nat, 8);
    Pow16Of8();
    WordIsSmall(x);
  }

  lemma Pow16Of8()
    ensures Pow16(8) == TWO_32
  {
    assert Pow16(4) == 0x1_0000;
    assert Pow16(8) == 0x1_0000 * Pow16(4);
  }

  lemma WordIsSmall(x: word)
    ensures 0 <= x as nat < TWO_32 && (x as nat) % TWO_32 == x as nat
  {
  }

  /** The last eight bytes of the padding spell the length in bits. */
  lemma PaddingSpellsTheLength(message: bytes)
    requires |message| < 0x2000_0000_0000_0000
    ensures Spelled(Padded(message)[|Padded(message)| - 8..]) == 8 * |message|
  {
    ShortLength(message);
    BytesSpell(BitLength(message), 8);
    Pow256Of8();
    assert Padded(message)[|Padded(message)| - 8..] == BigEndianBytes(BitLength(message), 8);
  }

  // ---- Functions -------------------------------------------------------------

  /** The choice takes bits of `y` where `x` has ones and of `z` elsewhere; the majority
      has a one where two of three have. */
  lemma ChoiceAndMajority(x: word, y: word, z: word)
    ensures Ch(x, y, z) == (x & y) | (!x & z)
    ensures Maj(x, y, z) == (x & y) | (y & z) | (z & x)
  {
  }
}
