/** A value is read back from its own text. */
module JsonRoundTrip {
  import opened Basics
  import opened JsonText
  import opened GuestProtocol

  // ---- Strings -------------------------------------------------------------

  lemma HexReadBack(d: nat)
    requires d < 16
    ensures HexValue(HexDigit(d)) == Some(d)
  {
  }

  lemma HexSum(n: nat)
    requires n < 0x1_0000
    ensures n / 0x1000 < 16 && n / 0x1000 * 0x1000 + n / 0x100 % 16 * 0x100 + n / 16 % 16 * 16 + n % 16 == n
  {
  }

  lemma EscapeReadBack(u: unit16, rest: bytes)
    ensures ReadEscape(Escaped(u) + rest) == Some(([u], 6))
  {
    var n := u as int;
    HexSum(n);
    HexReadBack(n / 0x1000);
    HexReadBack(n / 0x100 % 16);
    HexReadBack(n / 16 % 16);
    HexReadBack(n % 16);
    var b := Escaped(u) + rest;
    assert b[..6] == Escaped(u);
    assert b[2] == HexDigit(n / 0x1000) && b[3] == HexDigit(n / 0x100 % 16) && b[4] == HexDigit(n / 16 % 16) && b[5] == HexDigit(n % 16);
  }

  lemma TwoSum(n: nat)
    requires n < 0x800
    ensures n / 64 < 32 && (0xc0 + n / 64) % 32 == n / 64 && (0x80 + n % 64) % 64 == n % 64 && n / 64 * 64 + n % 64 == n
  {
  }

  lemma ThreeSum(n: nat)
    requires n < 0x1_0000
    ensures n / 0x1000 < 16 && (0xe0 + n / 0x1000) % 16 == n / 0x1000 && (0x80 + n / 64 % 64) % 64 == n / 64 % 64
    ensures (0x80 + n % 64) % 64 == n % 64 && n / 0x1000 * 0x1000 + n / 64 % 64 * 64 + n % 64 == n
  {
  }

  lemma FourSum(n: nat)
    requires n < 0x11_0000
    ensures n / 0x4_0000 * 0x4_0000 + n / 0x1000 % 64 * 0x1000 + n / 64 % 64 * 64 + n % 64 == n
  {
  }

  lemma FourBytes(n: nat)
    requires n < 0x11_0000
    ensures n / 0x4_0000 < 8 && (0xf0 + n / 0x4_0000) % 8 == n / 0x4_0000
    ensures (0x80 + n / 0x1000 % 64) % 64 == n / 0x1000 % 64
    ensures (0x80 + n / 64 % 64) % 64 == n / 64 % 64 && (0x80 + n % 64) % 64 == n % 64
  {
  }

  lemma UnitReadBack(u: unit16, rest: bytes)
    ensures RenderUnit(u) != [] && RenderUnit(u)[0] != 0x22
    ensures ReadUnit(RenderUnit(u) + rest) == Some(([u], |RenderUnit(u)|))
  {
    var b := RenderUnit(u) + rest;
    if RenderUnit(u) == Escaped(u) {
      EscapeReadBack(u, rest);
    } else if u >= 0x80 && u < 0x800 {
      TwoSum(u as int);
    } else if u >= 0x800 {
      ThreeSum(u as int);
    }
  }

  lemma PairSum(high: unit16, low: unit16)
    requires High(high) && Low(low)
    ensures var n := 0x1_0000 + (high as int - 0xd800) * 0x400 + (low as int - 0xdc00);
      0x1_0000 <= n < 0x11_0000 && 0xd800 + (n - 0x1_0000) / 0x400 == high as int && 0xdc00 + (n - 0x1_0000) % 0x400 == low as int
  {
  }

  lemma PairReadBack(high: unit16, low: unit16, rest: bytes)
    requires High(high) && Low(low)
    ensures ReadUnit(Utf8Pair(high, low) + rest) == Some(([high, low], 4)) && Utf8Pair(high, low)[0] != 0x22
  {
    var n := 0x1_0000 + (high as int - 0xd800) * 0x400 + (low as int - 0xdc00);
    PairSum(high, low);
    FourSum(n);
    FourBytes(n);
    var b := Utf8Pair(high, low) + rest;
    assert b[0] as int == 0xf0 + n / 0x4_0000 && b[1] as int == 0x80 + n / 0x1000 % 64;
    assert b[2] as int == 0x80 + n / 64 % 64 && b[3] as int == 0x80 + n % 64;
  }

  /** One step of the string: its text in front, and the rest behind. */
  lemma ReadUnitsStep(front: bytes, units: seq<unit16>, b: bytes, more: seq<unit16>, rest: bytes)
    requires front != [] && front[0] != 0x22 && ReadUnit(front + b) == Some((units, |front|))
    requires ReadUnits(b) == Some((more, rest))
    ensures ReadUnits(front + b) == Some((units + more, rest))
  {
    assert (front + b)[|front|..] == b;
  }

  /** A string's text after its opening quote, and what follows it. */
  function Quoted(units: seq<unit16>, rest: bytes): bytes { RenderUnits(units) + ([0x22] + rest) }

  lemma QuotedPair(units: seq<unit16>, rest: bytes)
    requires |units| >= 2 && High(units[0]) && Low(units[1])
    ensures Quoted(units, rest) == Utf8Pair(units[0], units[1]) + Quoted(units[2..], rest)
    ensures units == [units[0], units[1]] + units[2..]
  {
    Regroup(Utf8Pair(units[0], units[1]), RenderUnits(units[2..]), [0x22] + rest);
  }

  lemma QuotedUnit(units: seq<unit16>, rest: bytes)
    requires units != [] && !(|units| >= 2 && High(units[0]) && Low(units[1]))
    ensures Quoted(units, rest) == RenderUnit(units[0]) + Quoted(units[1..], rest)
    ensures units == [units[0]] + units[1..]
  {
    Regroup(RenderUnit(units[0]), RenderUnits(units[1..]), [0x22] + rest);
  }

  lemma {:induction false} UnitsReadBack(units: seq<unit16>, rest: bytes)
    ensures ReadUnits(Quoted(units, rest)) == Some((units, rest))
    decreases |units|
  {
    if units == [] {
      assert Quoted([], rest) == [0x22] + rest && ([0x22] + rest)[1..] == rest;
    } else if |units| >= 2 && High(units[0]) && Low(units[1]) {
      UnitsReadBack(units[2..], rest);
      QuotedPair(units, rest);
      PairReadBack(units[0], units[1], Quoted(units[2..], rest));
      ReadUnitsStep(Utf8Pair(units[0], units[1]), [units[0], units[1]], Quoted(units[2..], rest), units[2..], rest);
    } else {
      UnitsReadBack(units[1..], rest);
      QuotedUnit(units, rest);
      UnitReadBack(units[0], Quoted(units[1..], rest));
      ReadUnitsStep(RenderUnit(units[0]), [units[0]], Quoted(units[1..], rest), units[1..], rest);
    }
  }

  lemma {:induction false} PlainRendered(units: seq<unit16>)
    requires AllPlain(units)
    ensures RenderUnits(units) == Ascii(PlainOf(units))
    decreases |units|
  {
    if units != [] {
      PlainRendered(units[1..]);
      assert RenderUnit(units[0]) == [units[0] as byte];
      assert Ascii(PlainOf(units)) == [units[0] as byte] + Ascii(PlainOf(units[1..]));
    }
  }

  lemma PlainReadBack(s: plain, rest: bytes)
    ensures AllPlain(Units(s)) && PlainOf(Units(s)) == s
    ensures ReadUnits(Ascii(s) + ([0x22] + rest)) == Some((Units(s), rest))
  {
    assert PlainOf(Units(s)) == s;
    PlainRendered(Units(s));
    UnitsReadBack(Units(s), rest);
  }

  lemma KeyReadBack(key: plain, rest: bytes)
    ensures ReadKey(RenderPlain(key) + rest) == Some((key, rest))
  {
    PlainReadBack(key, rest);
    assert (RenderPlain(key) + rest)[1..] == Ascii(key) + ([0x22] + rest);
  }

  // ---- Numbers -------------------------------------------------------------

  lemma {:induction false} DigitsReadBack(n: nat, rest: bytes)
    ensures RenderDigits(n) != [] && IsDigit(RenderDigits(n)[0])
    ensures ReadDigits(0, RenderDigits(n) + rest) == ReadDigits(n, rest)
  {
    var last := [(0x30 + n % 10) as byte];
    if n >= 10 {
      DigitsReadBack(n / 10, last + rest);
      Regroup(RenderDigits(n / 10), last, rest);
      OneDigit(n / 10, n % 10, rest);
    } else {
      OneDigit(0, n, rest);
    }
  }

  lemma OneDigit(n: nat, d: nat, rest: bytes)
    requires d < 10
    ensures ReadDigits(n, [(0x30 + d) as byte] + rest) == ReadDigits(n * 10 + d, rest)
  {
    assert ([(0x30 + d) as byte] + rest)[1..] == rest;
  }

  /** What may follow a value. */
  predicate Ends(rest: bytes) { rest == [] || rest[0] == 0x2c || rest[0] == 0x7d }

  lemma PositiveRead(b: bytes, n: nat, rest: bytes)
    requires b != [] && IsDigit(b[0]) && ReadDigits(0, b) == (n, rest)
    ensures ReadNumber(b) == Some((Number(n), rest))
  {
  }

  lemma NegativeRead(b: bytes, digits: bytes, n: nat, rest: bytes)
    requires b == [0x2d] + digits && digits != [] && IsDigit(digits[0]) && ReadDigits(0, digits) == (n, rest)
    ensures ReadNumber(b) == Some((Negative(n), rest))
  {
    assert b[1..] == digits && b[2..] == digits[1..];
  }

  lemma DigitsEnd(n: nat, rest: bytes)
    requires Ends(rest)
    ensures ReadDigits(n, rest) == (n, rest)
  {
  }

  lemma NumberReadBack(n: int, rest: bytes)
    requires Ends(rest)
    ensures ReadNumber(Render(Number(n)) + rest) == Some((Number(n), rest))
  {
    var size := if n < 0 then -n else n;
    var digits := RenderDigits(size) + rest;
    DigitsReadBack(size, rest);
    DigitsEnd(size, rest);
    if n < 0 {
      assert Ascii("-") == [0x2d];
      Regroup([0x2d], RenderDigits(size), rest);
      NegativeRead([0x2d] + digits, digits, size, rest);
    } else {
      PositiveRead(digits, size, rest);
    }
  }

  // ---- Values --------------------------------------------------------------

  /** The value as it is read back: every string by its code units. */
  function Normal(v: Value): Value
    decreases v, 0
  {
    match v
    case Plain(s) => Text(Units(s))
    case Object(fields) => Object(NormalFields(fields))
    case _ => v
  }

  function NormalFields(fields: seq<Field>): (r: seq<Field>)
    ensures |r| == |fields|
    decreases fields, 1
  {
    if fields == [] then [] else [Field(fields[0].key, Normal(fields[0].value))] + NormalFields(fields[1..])
  }

  /** The fields of an object, its closing brace, and what follows. */
  function Braced(fields: seq<Field>, rest: bytes): bytes { RenderFields(fields) + ([0x7d] + rest) }

  /** What stands behind the first value of an object. */
  function AfterFirst(fields: seq<Field>, rest: bytes): bytes
    requires fields != []
  {
    if |fields| == 1 then [0x7d] + rest else [0x2c] + Braced(fields[1..], rest)
  }

  lemma BracedFirst(fields: seq<Field>, rest: bytes)
    requires fields != []
    ensures Braced(fields, rest) ==
      RenderPlain(fields[0].key) + ([0x3a] + (Render(fields[0].value) + AfterFirst(fields, rest)))
  {
    var key, value, close := RenderPlain(fields[0].key), Render(fields[0].value), [0x7d] + rest;
    var more := if |fields| == 1 then [] else Ascii(",") + RenderFields(fields[1..]);
    assert Ascii(":") == [0x3a] && Ascii(",") == [0x2c];
    assert more + close == AfterFirst(fields, rest);
    FiveParts(key, [0x3a], value, more, close);
  }

  lemma FiveParts(a: bytes, b: bytes, c: bytes, d: bytes, e: bytes)
    ensures a + b + c + d + e == a + (b + (c + (d + e)))
  {
    Regroup(c, d, e);
    Regroup(b, c, d + e);
    Regroup(a, b, c + (d + e));
    assert a + b + c + d + e == a + b + c + (d + e);
    assert a + b + c + (d + e) == a + b + (c + (d + e));
  }

  /** One field is read from the front, given that its value is. */
  lemma ReadFieldsStep(key: plain, value: Value, text: bytes, behind: bytes)
    requires behind != [] && ReadValue(text + behind) == Some((value, behind))
    ensures var b := RenderPlain(key) + ([0x3a] + (text + behind));
      && (behind[0] == 0x7d ==> ReadFields(b) == Some(([Field(key, value)], behind[1..])))
      && (behind[0] == 0x2c && ReadFields(behind[1..]).Some? ==>
            ReadFields(b) == Some(([Field(key, value)] + ReadFields(behind[1..]).value.0, ReadFields(behind[1..]).value.1)))
  {
    var after := [0x3a] + (text + behind);
    KeyReadBack(key, after);
    assert after[1..] == text + behind;
  }

  lemma OneNormalField(fields: seq<Field>)
    requires |fields| == 1
    ensures NormalFields(fields) == [Field(fields[0].key, Normal(fields[0].value))]
  {
    assert fields[1..] == [];
  }

  lemma {:induction false} FieldsReadBack(fields: seq<Field>, rest: bytes)
    requires fields != []
    ensures ReadFields(Braced(fields, rest)) == Some((NormalFields(fields), rest))
    decreases fields, 1
  {
    var behind := AfterFirst(fields, rest);
    BracedFirst(fields, rest);
    ValueReadBack(fields[0].value, behind);
    ReadFieldsStep(fields[0].key, Normal(fields[0].value), Render(fields[0].value), behind);
    if |fields| == 1 {
      assert behind[1..] == rest;
      OneNormalField(fields);
    } else {
      FieldsReadBack(fields[1..], rest);
      assert behind[1..] == Braced(fields[1..], rest);
    }
  }

  /** Where a text of another kind begins. */
  lemma WordsBegin()
    ensures Ascii("null")[0] == 0x6e && Ascii("true")[0] == 0x74 && Ascii("false")[0] == 0x66
    ensures Ascii("{") == [0x7b] && Ascii("}") == [0x7d] && Ascii("-") == [0x2d]
  {
  }

  lemma NoWord(b: bytes)
    requires b != [] && b[0] != 0x6e && b[0] != 0x74 && b[0] != 0x66
    ensures !(Ascii("null") <= b) && !(Ascii("true") <= b) && !(Ascii("false") <= b)
  {
    WordsBegin();
  }

  lemma WordReadBack(v: Value, rest: bytes)
    requires v.Null? || v.Flag?
    ensures ReadValue(Render(v) + rest) == Some((v, rest))
  {
    var b := Render(v) + rest;
    WordsBegin();
    assert b[|Render(v)|..] == rest && Render(v) <= b && b[0] == Render(v)[0];
    assert Ascii("null") <= b ==> b[0] == 0x6e;
    assert Ascii("true") <= b ==> b[0] == 0x74;
  }

  lemma TextReadBack(units: seq<unit16>, rest: bytes)
    ensures ReadValue([0x22] + Quoted(units, rest)) == Some((Text(units), rest))
  {
    var b := [0x22] + Quoted(units, rest);
    NoWord(b);
    UnitsReadBack(units, rest);
    assert b[1..] == Quoted(units, rest);
  }

  lemma TextFollowed(units: seq<unit16>, rest: bytes)
    ensures RenderText(units) + rest == [0x22] + Quoted(units, rest)
  {
    Regroup(RenderUnits(units), [0x22], rest);
  }

  lemma PlainTextReadBack(s: plain, rest: bytes)
    ensures ReadValue(RenderPlain(s) + rest) == Some((Text(Units(s)), rest))
  {
    PlainReadBack(s, rest);
    PlainRendered(Units(s));
    TextReadBack(Units(s), rest);
    TextFollowed(Units(s), rest);
  }

  lemma ObjectFollowed(fields: seq<Field>, rest: bytes)
    ensures Render(Object(fields)) + rest == [0x7b] + Braced(fields, rest)
  {
    WordsBegin();
    Regroup(RenderFields(fields), [0x7d], rest);
  }

  lemma NumberValueReadBack(n: int, rest: bytes)
    requires Ends(rest)
    ensures ReadValue(Render(Number(n)) + rest) == Some((Number(n), rest))
  {
    WordsBegin();
    DigitsReadBack(if n < 0 then -n else n, rest);
    NumberReadBack(n, rest);
    NoWord(Render(Number(n)) + rest);
  }

  /** The object reader after its opening brace. */
  lemma ObjectRead(b: bytes, inside: bytes)
    requires b == [0x7b] + inside && inside != []
    ensures ReadValue(b) ==
      if inside[0] == 0x7d then Some((Object([]), inside[1..]))
      else match ReadFields(inside) case None => None case Some((fields, rest)) => Some((Object(fields), rest))
  {
    NoWord(b);
    assert b[1..] == inside && b[2..] == inside[1..];
  }

  lemma ObjectReadBack(fields: seq<Field>, rest: bytes)
    requires fields != [] ==> ReadFields(Braced(fields, rest)) == Some((NormalFields(fields), rest))
    ensures ReadValue([0x7b] + Braced(fields, rest)) == Some((Object(NormalFields(fields)), rest))
  {
    if fields == [] {
      assert Braced([], rest) == [0x7d] + rest;
    } else {
      BracedFirst(fields, rest);
      assert Braced(fields, rest)[0] == RenderPlain(fields[0].key)[0];
    }
    ObjectRead([0x7b] + Braced(fields, rest), Braced(fields, rest));
  }

  /** A value is read back from its own text, whatever follows it. */
  lemma {:induction false} ValueReadBack(v: Value, rest: bytes)
    requires Ends(rest)
    ensures ReadValue(Render(v) + rest) == Some((Normal(v), rest))
    decreases v, 0
  {
    match v
    case Null => WordReadBack(v, rest);
    case Flag(_) => WordReadBack(v, rest);
    case Number(n) => NumberValueReadBack(n, rest);
    case Plain(s) => PlainTextReadBack(s, rest);
    case Text(units) =>
      TextReadBack(units, rest);
      TextFollowed(units, rest);
    case Object(fields) =>
      if fields != [] { FieldsReadBack(fields, rest); }
      ObjectReadBack(fields, rest);
      ObjectFollowed(fields, rest);
  }

  // ---- A lossless JSON -----------------------------------------------------

  lemma {:induction false} NormalTwice(v: Value)
    ensures Normal(Normal(v)) == Normal(v) && Render(Normal(v)) == Render(v)
    decreases v, 0
  {
    match v
    case Plain(s) => PlainRendered(Units(s)); PlainReadBack(s, []);
    case Object(fields) => FieldsNormalTwice(fields);
    case _ =>
  }

  lemma {:induction false} FieldsNormalTwice(fields: seq<Field>)
    ensures NormalFields(NormalFields(fields)) == NormalFields(fields)
    ensures RenderFields(NormalFields(fields)) == RenderFields(fields)
    decreases fields, 1
  {
    if fields != [] {
      NormalTwice(fields[0].value);
      FieldsNormalTwice(fields[1..]);
      assert NormalFields(fields)[1..] == NormalFields(fields[1..]);
    }
  }

  /** Values whose strings are all given by their code units. */
  type Message = v: Value | Normal(v) == v witness Null

  function AsMessage(v: Value): Message {
    NormalTwice(v);
    Normal(v)
  }

  function Parse(b: bytes): Option<Message> {
    match ReadValue(b)
    case None => None
    case Some((v, rest)) => if rest == [] then Some(AsMessage(v)) else None
  }

  function Stringify(m: Message): bytes { Render(m) }

  function MessageJson(): Json<Message> { Json(Stringify, Parse) }

  lemma ParseBack(v: Value)
    ensures Parse(Render(v)) == Some(AsMessage(v))
  {
    ValueReadBack(v, []);
    assert Render(v) + [] == Render(v);
    NormalTwice(v);
  }

  /** What the framing asks of its JSON: texts without newlines that are parsed back. */
  lemma MessagesAreLossless()
    ensures Lossless(MessageJson())
  {
    forall m: Message
      ensures MessageJson().text(m) != [] && NEWLINE !in MessageJson().text(m)
      ensures MessageJson().parse(MessageJson().text(m)) == Some(m)
    {
      Rendered(m);
      ParseBack(m);
    }
  }
}
