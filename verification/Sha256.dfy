/** The hand-written SHA-256 of the guest agent (`sha256_hex` in
    ops/guest-control/src/control.rs) against the functional definition of
    FIPS 180-4. */
module Sha256 {
  import opened Basics

  type word = bv32

  /** The eight working variables, or the eight words of a hash value. */
  datatype State<T> = State(a: T, b: T, c: T, d: T, e: T, f: T, g: T, h: T)

  /** What the computation of section 6.2.2 takes from its word arithmetic. The
      structure of the computation is stated and verified for any such
      arithmetic; section 4.1.2 gives the one of SHA-256. */
  datatype Arithmetic<!T> = Arithmetic(
    add: (T, T) -> T,
    ch: (T, T, T) -> T,
    maj: (T, T, T) -> T,
    bigSigma0: T -> T,
    bigSigma1: T -> T,
    smallSigma0: T -> T,
    smallSigma1: T -> T,
    wordOf: (byte, byte, byte, byte) -> T,
    text: T -> string,
    constants: seq<T>,
    initial: State<T>)

  /** There is a constant for every round, and sums of four can be reversed. */
  ghost predicate Suitable<T(!new)>(o: Arithmetic<T>) {
    |o.constants| == 64 && forall a, b, c, d :: SumOfFour(o, a, b, c, d) == SumOfFour(o, d, c, b, a)
  }

  function SumOfFour<T>(o: Arithmetic<T>, a: T, b: T, c: T, d: T): T {
    o.add(o.add(o.add(a, b), c), d)
  }

  /* ---- Section 4: functions and constants ---- */

  function Ch(x: word, y: word, z: word): word { (x & y) ^ (!x & z) }
  function Maj(x: word, y: word, z: word): word { (x & y) ^ (x & z) ^ (y & z) }
  function BigSigma0(x: word): word { x.RotateRight(2) ^ x.RotateRight(13) ^ x.RotateRight(22) }
  function BigSigma1(x: word): word { x.RotateRight(6) ^ x.RotateRight(11) ^ x.RotateRight(25) }
  function SmallSigma0(x: word): word { x.RotateRight(7) ^ x.RotateRight(18) ^ (x >> 3) }
  function SmallSigma1(x: word): word { x.RotateRight(17) ^ x.RotateRight(19) ^ (x >> 10) }

  function Add(x: word, y: word): word { x + y }

  function WordOf(b0: byte, b1: byte, b2: byte, b3: byte): word {
    (((b0 as int * 256 + b1 as int) * 256 + b2 as int) * 256 + b3 as int) as word
  }

  function HexDigit(v: nat): char
    requires v < 16
  {
    "0123456789abcdef"[v]
  }

  function HexDigits(v: nat, n: nat): (s: string)
    ensures |s| == n
    decreases n
  {
    if n == 0 then "" else HexDigits(v / 16, n - 1) + [HexDigit(v % 16)]
  }

  /** A word as eight hexadecimal digits. */
  function HexWord(x: word): (s: string)
    ensures |s| == 8
  {
    HexDigits(x as nat, 8)
  }

  /** The round constants, in rows of eight. */
  const K0: seq<word> := [0x428a2f98, 0x71374491, 0xb5c0fbcf, 0xe9b5dba5, 0x3956c25b, 0x59f111f1, 0x923f82a4, 0xab1c5ed5]
  const K1: seq<word> := [0xd807aa98, 0x12835b01, 0x243185be, 0x550c7dc3, 0x72be5d74, 0x80deb1fe, 0x9bdc06a7, 0xc19bf174]
  const K2: seq<word> := [0xe49b69c1, 0xefbe4786, 0x0fc19dc6, 0x240ca1cc, 0x2de92c6f, 0x4a7484aa, 0x5cb0a9dc, 0x76f988da]
  const K3: seq<word> := [0x983e5152, 0xa831c66d, 0xb00327c8, 0xbf597fc7, 0xc6e00bf3, 0xd5a79147, 0x06ca6351, 0x14292967]
  const K4: seq<word> := [0x27b70a85, 0x2e1b2138, 0x4d2c6dfc, 0x53380d13, 0x650a7354, 0x766a0abb, 0x81c2c92e, 0x92722c85]
  const K5: seq<word> := [0xa2bfe8a1, 0xa81a664b, 0xc24b8b70, 0xc76c51a3, 0xd192e819, 0xd6990624, 0xf40e3585, 0x106aa070]
  const K6: seq<word> := [0x19a4c116, 0x1e376c08, 0x2748774c, 0x34b0bcb5, 0x391c0cb3, 0x4ed8aa4a, 0x5b9cca4f, 0x682e6ff3]
  const K7: seq<word> := [0x748f82ee, 0x78a5636f, 0x84c87814, 0x8cc70208, 0x90befffa, 0xa4506ceb, 0xbef9a3f7, 0xc67178f2]

  const K: seq<word> := K0 + (K1 + (K2 + (K3 + (K4 + (K5 + (K6 + K7))))))

  const INITIAL: State<word> := State(
    0x6a09e667, 0xbb67ae85, 0x3c6ef372, 0xa54ff53a, 0x510e527f, 0x9b05688c, 0x1f83d9ab, 0x5be0cd19)

  const SHA256: Arithmetic<word> := Arithmetic(
    Add, Ch, Maj, BigSigma0, BigSigma1, SmallSigma0, SmallSigma1, WordOf, HexWord, K, INITIAL)

  lemma Sha256IsSuitable()
    ensures Suitable(SHA256)
  {
    AdditionIsSuitable(SHA256);
  }

  lemma AdditionIsSuitable(o: Arithmetic<word>)
    requires |o.constants| == 64 && o.add == Add
    ensures Suitable(o)
  {
    forall a: word, b: word, c: word, d: word
      ensures SumOfFour(o, a, b, c, d) == SumOfFour(o, d, c, b, a)
    {
      SumOfFourIs(o, a, b, c, d);
      SumOfFourIs(o, d, c, b, a);
      AddInAnyOrder(a, b, c, d);
    }
  }

  lemma SumOfFourIs(o: Arithmetic<word>, a: word, b: word, c: word, d: word)
    requires o.add == Add
    ensures SumOfFour(o, a, b, c, d) == Add(Add(Add(a, b), c), d)
  {
    assert o.add(a, b) == Add(a, b);
    assert o.add(Add(a, b), c) == Add(Add(a, b), c);
    assert o.add(Add(Add(a, b), c), d) == Add(Add(Add(a, b), c), d);
  }

  lemma AddInAnyOrder(a: word, b: word, c: word, d: word)
    ensures Add(Add(Add(a, b), c), d) == Add(Add(Add(d, c), b), a)
  {
    AddFour(a, b, c, d);
    AddFour(d, c, b, a);
    SumInAnyOrder(a, b, c, d);
  }

  lemma AddFour(a: word, b: word, c: word, d: word)
    ensures Add(Add(Add(a, b), c), d) == a + b + c + d
  {
    AddThird(Add(a, b), a, b, c);
    AddFourth(Add(Add(a, b), c), a, b, c, d);
  }

  lemma AddThird(p: word, x: word, y: word, z: word)
    requires p == x + y
    ensures Add(p, z) == x + y + z
  {
  }

  lemma AddFourth(p: word, x: word, y: word, z: word, u: word)
    requires p == x + y + z
    ensures Add(p, u) == x + y + z + u
  {
  }

  lemma SumInAnyOrder(a: word, b: word, c: word, d: word)
    ensures a + b + c + d == d + c + b + a
  {
  }

  /* ---- Section 5.1.1: padding ---- */

  /** The zero bytes between the marker and the length. */
  function ZeroBytes(length: nat): (k: nat)
    ensures (length + 1 + k) % 64 == 56 && k < 64
  {
    (119 - length % 64) % 64
  }

  function Zeros(k: nat): (z: bytes)
    ensures |z| == k && forall i :: 0 <= i < k ==> z[i] == 0
  {
    seq(k, i => 0 as byte)
  }

  /** A number as `n` bytes, most significant first. */
  function BigEndianBytes(v: nat, n: nat): (b: bytes)
    ensures |b| == n
    decreases n
  {
    if n == 0 then [] else BigEndianBytes(v / 256, n - 1) + [(v % 256) as byte]
  }

  /** The message, a marker and zeros: all but the last eight bytes. */
  function Marked(message: bytes): (m: bytes)
    ensures |m| % 64 == 56 && message <= m
  {
    message + ([0x80] + Zeros(ZeroBytes(|message|)))
  }

  /** The length in bits, as the 64-bit arithmetic of the code has it. */
  function BitLength(message: bytes): nat {
    |message| * 8 % 0x1_0000_0000_0000_0000
  }

  function Padded(message: bytes): (p: bytes)
    ensures |p| == |Marked(message)| + 8
  {
    Marked(message) + BigEndianBytes(BitLength(message), 8)
  }

  /** The padded length is a whole number of blocks. */
  lemma PaddedLength(message: bytes)
    ensures |Padded(message)| % 64 == 0 && |Padded(message)| >= 64
  {
    EightMore(|Marked(message)|);
  }

  lemma EightMore(n: nat)
    requires n % 64 == 56
    ensures (n + 8) % 64 == 0
  {
  }

  lemma {:induction false} BigEndianIsInjective(u: nat, v: nat, n: nat)
    requires BigEndianBytes(u, n) == BigEndianBytes(v, n) && u < Pow256(n) && v < Pow256(n)
    ensures u == v
    decreases n
  {
    if n > 0 {
      var x, y := BigEndianBytes(u, n), BigEndianBytes(v, n);
      assert x[..n - 1] == BigEndianBytes(u / 256, n - 1) && y[..n - 1] == BigEndianBytes(v / 256, n - 1);
      assert x[n - 1] == y[n - 1];
      BigEndianIsInjective(u / 256, v / 256, n - 1);
    }
  }

  function Pow256(n: nat): (p: nat)
    ensures p > 0
  {
    if n == 0 then 1 else 256 * Pow256(n - 1)
  }

  lemma Pow256Of8()
    ensures Pow256(8) == 0x1_0000_0000_0000_0000
  {
    assert Pow256(4) == 0x1_0000_0000;
    assert Pow256(8) == 0x1_0000_0000 * Pow256(4);
  }

  /** Messages shorter than 2^61 bytes are told apart by their padding. */
  lemma PaddingIsInjective(a: bytes, b: bytes)
    requires |a| < 0x2000_0000_0000_0000 && |b| < 0x2000_0000_0000_0000
    requires Padded(a) == Padded(b)
    ensures a == b
  {
    SameTail(Marked(a), BigEndianBytes(BitLength(a), 8), Marked(b), BigEndianBytes(BitLength(b), 8));
    ShortLength(a);
    ShortLength(b);
    Pow256Of8();
    BigEndianIsInjective(BitLength(a), BitLength(b), 8);
    SamePrefix(a, b, Marked(a));
  }

  lemma ShortLength(message: bytes)
    requires |message| < 0x2000_0000_0000_0000
    ensures BitLength(message) == |message| * 8
  {
  }

  lemma SameTail(x: bytes, s: bytes, y: bytes, t: bytes)
    requires x + s == y + t && |s| == |t|
    ensures x == y && s == t
  {
    assert x == (x + s)[..|x|] && y == (y + t)[..|y|];
    assert s == (x + s)[|x|..] && t == (y + t)[|y|..];
  }

  lemma SamePrefix(a: bytes, b: bytes, whole: bytes)
    requires a <= whole && b <= whole && |a| == |b|
    ensures a == b
  {
  }

  /* ---- Section 5.2.1: words of a block ---- */

  function BlockWords<T>(o: Arithmetic<T>, block: bytes): (words: seq<T>)
    requires |block| == 64
    ensures |words| == 16
  {
    seq(16, i requires 0 <= i < 16 =>
      o.wordOf(block[4 * i], block[4 * i + 1], block[4 * i + 2], block[4 * i + 3]))
  }

  /* ---- Section 6.2.2: the hash computation ---- */

  /** The message schedule. */
  function W<T>(o: Arithmetic<T>, m: seq<T>, t: nat): T
    requires |m| == 16
    decreases t
  {
    if t < 16 then m[t]
    else
      o.add(o.add(o.add(o.smallSigma1(W(o, m, t - 2)), W(o, m, t - 7)), o.smallSigma0(W(o, m, t - 15))), W(o, m, t - 16))
  }

  function Schedule<T>(o: Arithmetic<T>, m: seq<T>): (w: seq<T>)
    requires |m| == 16
    ensures |w| == 64
  {
    seq(64, t requires 0 <= t < 64 => W(o, m, t))
  }

  function Round<T>(o: Arithmetic<T>, s: State<T>, k: T, w: T): State<T> {
    var t1 := o.add(o.add(o.add(o.add(s.h, o.bigSigma1(s.e)), o.ch(s.e, s.f, s.g)), k), w);
    var t2 := o.add(o.bigSigma0(s.a), o.maj(s.a, s.b, s.c));
    State(o.add(t1, t2), s.a, s.b, s.c, o.add(s.d, t1), s.e, s.f, s.g)
  }

  function Rounds<T>(o: Arithmetic<T>, s: State<T>, w: seq<T>, t: nat): State<T>
    requires |o.constants| == |w| == 64 && t <= 64
    decreases t
  {
    if t == 0 then s else Round(o, Rounds(o, s, w, t - 1), o.constants[t - 1], w[t - 1])
  }

  function Sum<T>(o: Arithmetic<T>, s: State<T>, t: State<T>): State<T> {
    State(o.add(s.a, t.a), o.add(s.b, t.b), o.add(s.c, t.c), o.add(s.d, t.d),
          o.add(s.e, t.e), o.add(s.f, t.f), o.add(s.g, t.g), o.add(s.h, t.h))
  }

  function Compress<T>(o: Arithmetic<T>, s: State<T>, block: bytes): State<T>
    requires |block| == |o.constants| == 64
  {
    var w := Schedule(o, BlockWords(o, block));
    Sum(o, s, Rounds(o, s, w, |w|))
  }

  function Block(padded: bytes, n: nat): (b: bytes)
    requires 64 * (n + 1) <= |padded|
    ensures |b| == 64
  {
    padded[64 * n..64 * (n + 1)]
  }

  /** The hash value after the first `n` blocks of a padded message. */
  function HashOfBlocks<T>(o: Arithmetic<T>, padded: bytes, n: nat): State<T>
    requires |o.constants| == 64 && 64 * n <= |padded|
    decreases n
  {
    if n == 0 then o.initial
    else Compress(o, HashOfBlocks(o, padded, n - 1), Block(padded, n - 1))
  }

  function Words<T>(s: State<T>): (words: seq<T>)
    ensures |words| == 8
  {
    [s.a, s.b, s.c, s.d, s.e, s.f, s.g, s.h]
  }

  function TextOfWords<T>(o: Arithmetic<T>, words: seq<T>): string {
    if words == [] then "" else TextOfWords(o, words[..|words| - 1]) + o.text(words[|words| - 1])
  }

  function Digest<T>(o: Arithmetic<T>, message: bytes): string
    requires |o.constants| == 64
  {
    TextOfWords(o, Words(HashOfBlocks(o, Padded(message), |Padded(message)| / 64)))
  }

  /** The SHA-256 digest of a message, in hexadecimal. */
  function HexDigest(message: bytes): string {
    Digest(SHA256, message)
  }

  /* ---- The code ---- */

  lemma FirstStop(length: nat, k: nat)
    requires k < ZeroBytes(length)
    ensures (length + 1 + k) % 64 != 56
  {
    ZerosAreFew(length + 1 + k, ZeroBytes(length) - k);
  }

  lemma ZerosAreFew(n: nat, more: nat)
    requires 0 < more < 64 && (n + more) % 64 == 56
    ensures n % 64 != 56
  {
  }

  /** Appends zeros until eight bytes are missing from a whole number of blocks. */
  method Pad(data: bytes) returns (msg: bytes)
    ensures msg == Padded(data)
  {
    var bitLen := |data| * 8 % 0x1_0000_0000_0000_0000;
    msg := data + [0x80];
    ghost var k := 0;
    while |msg| % 64 != 56
      invariant k <= ZeroBytes(|data|) && msg == data + ([0x80] + Zeros(k))
      decreases ZeroBytes(|data|) - k
    {
      msg := msg + [0];
      k := k + 1;
      assert Zeros(k - 1) + [0] == Zeros(k);
    }
    if k < ZeroBytes(|data|) {
      FirstStop(|data|, k);
    }
    msg := msg + BigEndianBytes(bitLen, 8);
  }

  function NextWord<T>(o: Arithmetic<T>, w: seq<T>, t: nat): T
    requires 16 <= t <= |w|
  {
    o.add(o.add(o.add(w[t - 16], o.smallSigma0(w[t - 15])), w[t - 7]), o.smallSigma1(w[t - 2]))
  }

  /** The schedule's recurrence, with its four terms in the order of the code. */
  lemma ScheduleAt<T(!new)>(o: Arithmetic<T>, m: seq<T>, t: nat)
    requires Suitable(o) && |m| == 16 && t < 64
    ensures var w := Schedule(o, m);
      w[t] == if t < 16 then m[t] else NextWord(o, w, t)
  {
    if t >= 16 {
      var a, b, c, d := W(o, m, t - 16), o.smallSigma0(W(o, m, t - 15)), W(o, m, t - 7), o.smallSigma1(W(o, m, t - 2));
      assert SumOfFour(o, a, b, c, d) == SumOfFour(o, d, c, b, a);
    }
  }

  /** Fills the schedule: sixteen words of the block, then each word from four
      before it. */
  method FillSchedule<T(!new)>(o: Arithmetic<T>, w: array<T>, block: bytes)
    requires Suitable(o) && w.Length == 64 && |block| == 64
    modifies w
    ensures w[..] == Schedule(o, BlockWords(o, block))
  {
    ghost var m := BlockWords(o, block);
    ghost var ws := Schedule(o, m);
    for i := 0 to 16
      invariant forall j :: 0 <= j < i ==> w[j] == ws[j]
    {
      ScheduleAt(o, m, i);
      w[i] := o.wordOf(block[i * 4], block[i * 4 + 1], block[i * 4 + 2], block[i * 4 + 3]);
    }
    forall t | 16 <= t < 64 ensures ws[t] == NextWord(o, ws, t) {
      ScheduleAt(o, m, t);
    }
    ExtendSchedule(o, w, ws);
  }

  method ExtendSchedule<T>(o: Arithmetic<T>, w: array<T>, ghost ws: seq<T>)
    requires w.Length == |ws| == 64
    requires forall j :: 0 <= j < 16 ==> w[j] == ws[j]
    requires forall t :: 16 <= t < 64 ==> ws[t] == NextWord(o, ws, t)
    modifies w
    ensures w[..] == ws
  {
    for i := 16 to 64
      invariant forall j :: 0 <= j < i ==> w[j] == ws[j]
    {
      assert ws[i] == NextWord(o, ws, i);
      var s0 := o.smallSigma0(w[i - 15]);
      var s1 := o.smallSigma1(w[i - 2]);
      w[i] := o.add(o.add(o.add(w[i - 16], s0), w[i - 7]), s1);
    }
  }

  /** The 64 rounds on the eight working variables. */
  method RunRounds<T>(o: Arithmetic<T>, hash: array<T>, w: array<T>) returns (s: State<T>)
    requires |o.constants| == 64 && hash.Length == 8 && w.Length == 64
    ensures s == Rounds(o, StateOf(hash), w[..], w.Length)
  {
    var a, b, c, d := hash[0], hash[1], hash[2], hash[3];
    var e, f, g, h := hash[4], hash[5], hash[6], hash[7];
    for i := 0 to w.Length
      invariant State(a, b, c, d, e, f, g, h) == Rounds(o, StateOf(hash), w[..], i)
    {
      var s1 := o.bigSigma1(e);
      var ch := o.ch(e, f, g);
      var temp1 := o.add(o.add(o.add(o.add(h, s1), ch), o.constants[i]), w[i]);
      var s0 := o.bigSigma0(a);
      var maj := o.maj(a, b, c);
      var temp2 := o.add(s0, maj);
      h := g;
      g := f;
      f := e;
      e := o.add(d, temp1);
      d := c;
      c := b;
      b := a;
      a := o.add(temp1, temp2);
    }
    s := State(a, b, c, d, e, f, g, h);
  }

  function StateOf<T>(hash: array<T>): (s: State<T>)
    requires hash.Length == 8
    reads hash
    ensures hash[..] == Words(s)
  {
    State(hash[0], hash[1], hash[2], hash[3], hash[4], hash[5], hash[6], hash[7])
  }

  /** One block: its schedule, its rounds, and their sum with the hash so far. */
  method AbsorbBlock<T(!new)>(o: Arithmetic<T>, hash: array<T>, w: array<T>, chunk: bytes)
    requires Suitable(o) && hash.Length == 8 && w.Length == 64 && hash != w && |chunk| == 64
    modifies hash, w
    ensures StateOf(hash) == Compress(o, old(StateOf(hash)), chunk)
  {
    FillSchedule(o, w, chunk);
    var s := RunRounds(o, hash, w);
    hash[0], hash[1], hash[2], hash[3] :=
      o.add(hash[0], s.a), o.add(hash[1], s.b), o.add(hash[2], s.c), o.add(hash[3], s.d);
    hash[4], hash[5], hash[6], hash[7] :=
      o.add(hash[4], s.e), o.add(hash[5], s.f), o.add(hash[6], s.g), o.add(hash[7], s.h);
  }

  lemma NextHash<T>(o: Arithmetic<T>, msg: bytes, n: nat)
    requires |o.constants| == 64 && 64 * (n + 1) <= |msg|
    ensures HashOfBlocks(o, msg, n + 1) == Compress(o, HashOfBlocks(o, msg, n), Block(msg, n))
  {
  }

  method AbsorbBlocks<T(!new)>(o: Arithmetic<T>, hash: array<T>, w: array<T>, msg: bytes)
    requires Suitable(o) && hash.Length == 8 && w.Length == 64 && hash != w
    requires |msg| % 64 == 0 && StateOf(hash) == o.initial
    modifies hash, w
    ensures StateOf(hash) == HashOfBlocks(o, msg, |msg| / 64)
  {
    var blocks := |msg| / 64;
    ghost var h := o.initial;
    for n := 0 to blocks
      invariant 64 * blocks <= |msg| && StateOf(hash) == h && h == HashOfBlocks(o, msg, n)
    {
      var block := Block(msg, n);
      NextHash(o, msg, n);
      AbsorbBlock(o, hash, w, block);
      h := HashOfBlocks(o, msg, n + 1);
    }
  }

  /** The whole computation: padding, the loop over the blocks, and the text of
      the eight words. */
  method DigestOf<T(!new)>(o: Arithmetic<T>, data: bytes) returns (result: string)
    requires Suitable(o)
    ensures result == Digest(o, data)
  {
    var initial := Words(o.initial);
    var hash := new T[8](i requires 0 <= i < 8 => initial[i]);
    var w := new T[64](_ => o.initial.a);
    var msg := Pad(data);
    PaddedLength(data);
    AbsorbBlocks(o, hash, w, msg);
    result := TextOf(o, hash);
  }

  method TextOf<T>(o: Arithmetic<T>, hash: array<T>) returns (result: string)
    requires hash.Length == 8
    ensures result == TextOfWords(o, hash[..])
  {
    result := "";
    for i := 0 to 8
      invariant result == TextOfWords(o, hash[..i])
    {
      assert hash[..i + 1][..i] == hash[..i];
      result := result + o.text(hash[i]);
    }
    assert hash[..8] == hash[..];
  }

  method Sha256Hex(data: bytes) returns (result: string)
    ensures result == HexDigest(data)
  {
    Sha256IsSuitable();
    result := DigestOf(SHA256, data);
  }
}
