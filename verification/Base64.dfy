/** The base64 text that carries file contents over the guest protocol
    (section 4 of RFC 4648), and the canonical-form test both sides apply. */
module Base64 {
  import opened Basics

  newtype sextet = x: int | 0 <= x < 64

  predicate IsSymbol(c: char) {
    'A' <= c <= 'Z' || 'a' <= c <= 'z' || '0' <= c <= '9' || c == '+' || c == '/'
  }

  function Symbol(v: sextet): (c: char)
    ensures IsSymbol(c) && Value(c) == v
  {
    if v < 26 then ('A' as int + v as int) as char
    else if v < 52 then ('a' as int + (v as int - 26)) as char
    else if v < 62 then ('0' as int + (v as int - 52)) as char
    else if v == 62 then '+'
    else '/'
  }

  function Value(c: char): (v: sextet)
    requires IsSymbol(c)
  {
    if 'A' <= c <= 'Z' then (c as int - 'A' as int) as sextet
    else if 'a' <= c <= 'z' then (c as int - 'a' as int + 26) as sextet
    else if '0' <= c <= '9' then (c as int - '0' as int + 52) as sextet
    else if c == '+' then 62
    else 63
  }

  /** Three bytes as four sextets, and back. */
  function First(a: byte): sextet { (a as int / 4) as sextet }
  function Second(a: byte, b: byte): sextet { (a as int % 4 * 16 + b as int / 16) as sextet }
  function Third(b: byte, c: byte): sextet { (b as int % 16 * 4 + c as int / 64) as sextet }
  function Fourth(c: byte): sextet { (c as int % 64) as sextet }

  function ByteA(p: sextet, q: sextet): byte { (p as int * 4 + q as int / 16) as byte }
  function ByteB(q: sextet, r: sextet): byte { (q as int % 16 * 16 + r as int / 4) as byte }
  function ByteC(r: sextet, s: sextet): byte { (r as int % 4 * 64 + s as int) as byte }

  /** Four sextets and three bytes spell the same number of 24 bits. */
  lemma GroupsSpellTheSame(a: byte, b: byte, c: byte)
    ensures ((First(a) as int * 64 + Second(a, b) as int) * 64 + Third(b, c) as int) * 64 + Fourth(c) as int
         == (a as int * 256 + b as int) * 256 + c as int
  {
  }

  lemma FirstByte(a: byte, b: byte)
    ensures ByteA(First(a), Second(a, b)) == a
  {
  }

  lemma BytesOfSextets(a: byte, b: byte, c: byte)
    ensures ByteA(First(a), Second(a, b)) == a
    ensures ByteB(Second(a, b), Third(b, c)) == b
    ensures ByteC(Third(b, c), Fourth(c)) == c
  {
  }

  function Encode(data: bytes): (text: string)
    decreases |data|
  {
    if data == [] then ""
    else if |data| == 1 then LastOne(data[0])
    else if |data| == 2 then LastTwo(data[0], data[1])
    else Quad(data[0], data[1], data[2]) + Encode(data[3..])
  }

  function LastOne(a: byte): (four: string)
    ensures |four| == 4 && IsSymbol(four[0]) && IsSymbol(four[1]) && four[2] == '=' && four[3] == '='
  {
    [Symbol(First(a)), Symbol(Second(a, 0)), '=', '=']
  }

  function LastTwo(a: byte, b: byte): (four: string)
    ensures |four| == 4 && IsSymbol(four[0]) && IsSymbol(four[1]) && IsSymbol(four[2]) && four[3] == '='
  {
    [Symbol(First(a)), Symbol(Second(a, b)), Symbol(Third(b, 0)), '=']
  }

  function Quad(a: byte, b: byte, c: byte): (four: string)
    ensures |four| == 4
  {
    Four(First(a), Second(a, b), Third(b, c), Fourth(c))
  }

  function Four(p: sextet, q: sextet, r: sextet, s: sextet): (four: string)
    ensures |four| == 4 && forall i :: 0 <= i < 4 ==> IsSymbol(four[i])
  {
    [Symbol(p), Symbol(q), Symbol(r), Symbol(s)]
  }

  function Triple(four: string): (three: bytes)
    requires |four| == 4 && forall i :: 0 <= i < 4 ==> IsSymbol(four[i])
  {
    [ByteA(Value(four[0]), Value(four[1])), ByteB(Value(four[1]), Value(four[2])),
     ByteC(Value(four[2]), Value(four[3]))]
  }

  lemma TripleOfFour(p: sextet, q: sextet, r: sextet, s: sextet)
    ensures Triple(Four(p, q, r, s)) == [ByteA(p, q), ByteB(q, r), ByteC(r, s)]
  {
  }

  lemma TripleOfQuad(a: byte, b: byte, c: byte)
    ensures var four := Quad(a, b, c);
      && (forall i :: 0 <= i < 4 ==> IsSymbol(four[i]))
      && Triple(four) == [a, b, c]
  {
    TripleOfFour(First(a), Second(a, b), Third(b, c), Fourth(c));
    BytesOfSextets(a, b, c);
  }

  lemma {:induction false} EncodedSymbols(data: bytes)
    ensures forall c :: c in Encode(data) ==> IsSymbol(c) || c == '='
    decreases |data|
  {
    if |data| >= 3 {
      EncodedSymbols(data[3..]);
      assert Encode(data) == Quad(data[0], data[1], data[2]) + Encode(data[3..]);
    }
  }

  /** The pattern both sides test first: groups of four symbols, of which the
      last may end in one or two padding signs. */
  predicate WellFormed(text: string)
    decreases |text|
  {
    || text == ""
    || (|text| == 4 && IsSymbol(text[0]) && IsSymbol(text[1]) && text[3] == '=' && (text[2] == '=' || IsSymbol(text[2])))
    || (|text| >= 4 && (forall i :: 0 <= i < 4 ==> IsSymbol(text[i])) && WellFormed(text[4..]))
  }

  /** The lenient decoder: surplus bits of the last symbol are dropped. */
  function Decode(text: string): (data: bytes)
    requires WellFormed(text)
    decreases |text|
  {
    if text == "" then []
    else if text[3] == '=' then
      if text[2] == '=' then [ByteA(Value(text[0]), Value(text[1]))]
      else [ByteA(Value(text[0]), Value(text[1])), ByteB(Value(text[1]), Value(text[2]))]
    else Triple(text[..4]) + Decode(text[4..])
  }

  lemma DecodeGroup(four: string, rest: string)
    requires |four| == 4 && (forall i :: 0 <= i < 4 ==> IsSymbol(four[i])) && WellFormed(rest)
    ensures WellFormed(four + rest) && Decode(four + rest) == Triple(four) + Decode(rest)
  {
    var text := four + rest;
    assert text[4..] == rest && text[..4] == four;
    assert forall i :: 0 <= i < 4 ==> text[i] == four[i];
  }

  lemma DecodeOne(a: byte)
    ensures WellFormed(LastOne(a)) && Decode(LastOne(a)) == [a]
  {
    FirstByte(a, 0);
    var four := LastOne(a);
    assert WellFormed(four);
    assert Value(four[0]) == First(a) && Value(four[1]) == Second(a, 0);
    assert Decode(four) == [ByteA(Value(four[0]), Value(four[1]))];
  }

  lemma DecodeTwo(a: byte, b: byte)
    ensures WellFormed(LastTwo(a, b)) && Decode(LastTwo(a, b)) == [a, b]
  {
    var zero: byte := 0;
    BytesOfSextets(a, b, zero);
    var four := LastTwo(a, b);
    assert WellFormed(four);
    assert Value(four[0]) == First(a) && Value(four[1]) == Second(a, b) && Value(four[2]) == Third(b, 0);
    assert Decode(four) == [ByteA(Value(four[0]), Value(four[1])), ByteB(Value(four[1]), Value(four[2]))];
  }

  predicate IsCanonical(text: string) {
    WellFormed(text) && Encode(Decode(text)) == text
  }

  /** Decoding what was encoded gives the same bytes. */
  lemma {:induction false} DecodeEncode(data: bytes)
    ensures WellFormed(Encode(data)) && Decode(Encode(data)) == data
    decreases |data|
  {
    if |data| == 0 {
    } else if |data| < 3 {
      DecodeEncodeShort(data);
    } else {
      DecodeEncode(data[3..]);
      DecodeEncodeLong(data);
    }
  }

  lemma DecodeEncodeShort(data: bytes)
    requires 1 <= |data| <= 2
    ensures WellFormed(Encode(data)) && Decode(Encode(data)) == data
  {
    if |data| == 1 {
      DecodeOne(data[0]);
      assert data == [data[0]];
    } else {
      DecodeTwo(data[0], data[1]);
      assert data == [data[0], data[1]];
    }
  }

  lemma DecodeEncodeLong(data: bytes)
    requires |data| >= 3 && WellFormed(Encode(data[3..])) && Decode(Encode(data[3..])) == data[3..]
    ensures WellFormed(Encode(data)) && Decode(Encode(data)) == data
  {
    var a, b, c, rest := data[0], data[1], data[2], data[3..];
    TripleOfQuad(a, b, c);
    DecodeGroup(Quad(a, b, c), Encode(rest));
    assert Encode(data) == Quad(a, b, c) + Encode(rest);
    assert data == [a, b, c] + rest;
  }

  /** The canonical texts are exactly the encodings. */
  lemma CanonicalMeansEncoded(text: string)
    ensures IsCanonical(text) <==> exists data :: Encode(data) == text
  {
    if data :| Encode(data) == text {
      DecodeEncode(data);
    }
  }

  /** Four symbols carry three bytes, the last group rounded up. */
  lemma {:induction false} EncodedLength(data: bytes)
    ensures |Encode(data)| == (|data| + 2) / 3 * 4
    decreases |data|
  {
    if |data| >= 3 {
      EncodedLength(data[3..]);
    }
  }
}
