/** JSON text as `JSON.stringify` and `serde_json` write the messages between node agent
    and guest, how long it can become, and reading it back. */
module JsonText {
  import opened Basics

  /** A UTF-16 code unit of a string. */
  newtype unit16 = x: int | 0 <= x < 0x1_0000

  /** Printable ASCII without the quote and the backslash: written as it is. */
  predicate IsPlain(s: string) {
    forall i :: 0 <= i < |s| ==> ' ' <= s[i] <= '~' && s[i] != '\"' && s[i] != '\\'
  }

  type plain = s: string | IsPlain(s)

  /** JSON values, as far as the messages use them. */
  datatype Value =
    | Null
    | Flag(b: bool)
    | Number(n: int)
    | Plain(s: plain)
    | Text(units: seq<unit16>)
    | Object(fields: seq<Field>)

  datatype Field = Field(key: plain, value: Value)

  function Units(s: plain): (units: seq<unit16>)
    ensures |units| == |s| && forall i :: 0 <= i < |s| ==> units[i] as int == s[i] as int
  {
    seq(|s|, i requires 0 <= i < |s| => s[i] as int as unit16)
  }

  // ---- Rendering -----------------------------------------------------------

  predicate High(u: unit16) { 0xd800 <= u < 0xdc00 }

  predicate Low(u: unit16) { 0xdc00 <= u < 0xe000 }

  function Ascii(s: plain): (b: bytes)
    ensures |b| == |s| && forall i :: 0 <= i < |s| ==> b[i] as int == s[i] as int
  {
    seq(|s|, i requires 0 <= i < |s| => s[i] as int as byte)
  }

  function HexDigit(n: nat): byte
    requires n < 16
  {
    if n < 10 then (0x30 + n) as byte else (0x61 + n - 10) as byte
  }

  /** A backslash, a "u" and four lower-case hexadecimal digits. */
  function Escaped(u: unit16): bytes {
    var n := u as int;
    [0x5c, 0x75, HexDigit(n / 0x1000), HexDigit(n / 0x100 % 16), HexDigit(n / 16 % 16), HexDigit(n % 16)]
  }

  function Utf8Two(n: nat): bytes
    requires n < 0x800
  {
    [(0xc0 + n / 64) as byte, (0x80 + n % 64) as byte]
  }

  function Utf8Three(n: nat): bytes
    requires n < 0x1_0000
  {
    [(0xe0 + n / 0x1000) as byte, (0x80 + n / 64 % 64) as byte, (0x80 + n % 64) as byte]
  }

  function Utf8Pair(high: unit16, low: unit16): bytes
    requires High(high) && Low(low)
  {
    var n := 0x1_0000 + (high as int - 0xd800) * 0x400 + (low as int - 0xdc00);
    [(0xf0 + n / 0x4_0000) as byte, (0x80 + n / 0x1000 % 64) as byte, (0x80 + n / 64 % 64) as byte, (0x80 + n % 64) as byte]
  }

  /** A code unit that is not part of a surrogate pair: short escapes, escapes of control
      characters and lone surrogates, and otherwise UTF-8. */
  function RenderUnit(u: unit16): bytes {
    if u == 0x22 then [0x5c, 0x22]
    else if u == 0x5c then [0x5c, 0x5c]
    else if u == 0x08 then [0x5c, 0x62]
    else if u == 0x09 then [0x5c, 0x74]
    else if u == 0x0a then [0x5c, 0x6e]
    else if u == 0x0c then [0x5c, 0x66]
    else if u == 0x0d then [0x5c, 0x72]
    else if u < 0x20 || High(u) || Low(u) then Escaped(u)
    else if u < 0x80 then [u as byte]
    else if u < 0x800 then Utf8Two(u as int)
    else Utf8Three(u as int)
  }

  function RenderUnits(units: seq<unit16>): bytes
    decreases |units|
  {
    if units == [] then []
    else if |units| >= 2 && High(units[0]) && Low(units[1]) then Utf8Pair(units[0], units[1]) + RenderUnits(units[2..])
    else RenderUnit(units[0]) + RenderUnits(units[1..])
  }

  function RenderText(units: seq<unit16>): bytes {
    [0x22] + RenderUnits(units) + [0x22]
  }

  function RenderPlain(s: plain): bytes {
    [0x22] + Ascii(s) + [0x22]
  }

  function RenderDigits(n: nat): bytes {
    (if n < 10 then [] else RenderDigits(n / 10)) + [(0x30 + n % 10) as byte]
  }

  function Render(v: Value): bytes
    decreases v, 0
  {
    match v
    case Null => Ascii("null")
    case Flag(b) => if b then Ascii("true") else Ascii("false")
    case Number(n) => if n < 0 then Ascii("-") + RenderDigits(-n) else RenderDigits(n)
    case Plain(s) => RenderPlain(s)
    case Text(units) => RenderText(units)
    case Object(fields) => Ascii("{") + RenderFields(fields) + Ascii("}")
  }

  function RenderFields(fields: seq<Field>): bytes
    decreases fields, 1
  {
    if fields == [] then []
    else
      RenderPlain(fields[0].key) + Ascii(":") + Render(fields[0].value)
      + (if |fields| == 1 then [] else Ascii(",") + RenderFields(fields[1..]))
  }

  /** No control character, so no newline. */
  predicate Printed(b: bytes) { forall i :: 0 <= i < |b| ==> b[i] >= 0x20 }

  // ---- Sizes ---------------------------------------------------------------

  /** The most bytes one unit takes. */
  function UnitSize(u: unit16): (size: nat)
    ensures 1 <= size <= 6
  {
    if u == 0x22 || u == 0x5c || 0x08 <= u <= 0x0a || 0x0c <= u <= 0x0d then 2
    else if u < 0x20 then 6
    else if u < 0x80 then 1
    else if u < 0x800 then 2
    else if 0xd800 <= u < 0xe000 then 6
    else 3
  }

  function UnitsSize(units: seq<unit16>): nat {
    if units == [] then 0 else UnitSize(units[0]) + UnitsSize(units[1..])
  }

  function Digits(n: nat): nat {
    if n < 10 then 1 else 1 + Digits(n / 10)
  }

  /** The length of a value's text, or a little more. */
  function Size(v: Value): nat
    decreases v, 0
  {
    match v
    case Null => 4
    case Flag(b) => if b then 4 else 5
    case Number(n) => if n < 0 then 1 + Digits(-n) else Digits(n)
    case Plain(s) => |s| + 2
    case Text(units) => UnitsSize(units) + 2
    case Object(fields) => 2 + FieldsSize(fields)
  }

  /** Each field with its colon and the comma that may follow it. */
  function FieldsSize(fields: seq<Field>): nat
    decreases fields, 1
  {
    if fields == [] then 0
    else |fields[0].key| + 3 + Size(fields[0].value) + 1 + FieldsSize(fields[1..])
  }

  function FieldSize(f: Field): nat {
    |f.key| + 4 + Size(f.value)
  }

  lemma UnitRendered(u: unit16)
    ensures |RenderUnit(u)| <= UnitSize(u) && Printed(RenderUnit(u))
  {
  }

  lemma {:induction false} UnitsRendered(units: seq<unit16>)
    ensures |RenderUnits(units)| <= UnitsSize(units) && Printed(RenderUnits(units))
    decreases |units|
  {
    if units != [] {
      if |units| >= 2 && High(units[0]) && Low(units[1]) {
        UnitsRendered(units[2..]);
        assert units[1..][1..] == units[2..];
      } else {
        UnitRendered(units[0]);
        UnitsRendered(units[1..]);
      }
    }
  }

  lemma {:induction false} DigitsRendered(n: nat)
    ensures |RenderDigits(n)| == Digits(n) && Printed(RenderDigits(n))
  {
    if n >= 10 { DigitsRendered(n / 10); }
  }

  /** The text of a value has no newline and at most the stated size. */
  lemma {:induction false} Rendered(v: Value)
    ensures |Render(v)| <= Size(v) && Printed(Render(v)) && Render(v) != []
    decreases v, 0
  {
    match v
    case Null =>
    case Flag(_) =>
    case Number(n) => DigitsRendered(if n < 0 then -n else n);
    case Plain(_) =>
    case Text(units) => UnitsRendered(units);
    case Object(fields) => FieldsRendered(fields);
  }

  lemma {:induction false} FieldsRendered(fields: seq<Field>)
    ensures |RenderFields(fields)| <= FieldsSize(fields) && Printed(RenderFields(fields))
    decreases fields, 1
  {
    if fields != [] {
      Rendered(fields[0].value);
      FieldsRendered(fields[1..]);
    }
  }

  function Pow10(k: nat): (p: nat)
    ensures p > 0
  {
    if k == 0 then 1 else 10 * Pow10(k - 1)
  }

  lemma {:induction false} DigitsWithin(n: nat, k: nat)
    requires k > 0 && n < Pow10(k)
    ensures Digits(n) <= k
    decreases k
  {
    if k == 1 {
      assert Pow10(1) == 10 * Pow10(0);
    } else if n >= 10 {
      DigitsWithin(n / 10, k - 1);
    }
  }

  /** The integers that occur are 64 bits wide. */
  predicate Wide(n: int) {
    -0x1_0000_0000_0000_0000 < n < 0x1_0000_0000_0000_0000
  }

  lemma NumberSize(n: int)
    requires Wide(n)
    ensures Size(Number(n)) <= 21
  {
    assert Pow10(20) == 100_000_000_000_000_000_000 by {
      assert Pow10(5) == 100_000;
      assert Pow10(10) == 100_000 * Pow10(5);
      assert Pow10(15) == 100_000 * Pow10(10);
      assert Pow10(20) == 100_000 * Pow10(15);
    }
    DigitsWithin(if n < 0 then -n else n, 20);
  }

  lemma {:induction false} TextSize(units: seq<unit16>)
    ensures UnitsSize(units) <= 6 * |units|
    decreases |units|
  {
    if units != [] { TextSize(units[1..]); }
  }

  // ---- Reading -------------------------------------------------------------

  /** The unit or pair at the front of a string's text, and how many bytes it takes. */
  function ReadUnit(b: bytes): (r: Option<(seq<unit16>, nat)>)
    ensures r.Some? ==> 1 <= r.value.1 <= |b|
  {
    if b == [] then None
    else if b[0] == 0x5c then ReadEscape(b)
    else if b[0] < 0x80 then Some(([b[0] as unit16], 1))
    else if b[0] < 0xe0 then
      if |b| < 2 then None else OneUnit((b[0] as int % 32) * 64 + b[1] as int % 64, 2)
    else if b[0] < 0xf0 then
      if |b| < 3 then None else OneUnit((b[0] as int % 16) * 0x1000 + (b[1] as int % 64) * 64 + b[2] as int % 64, 3)
    else if |b| < 4 then None
    else Pair((b[0] as int % 8) * 0x4_0000 + (b[1] as int % 64) * 0x1000 + (b[2] as int % 64) * 64 + b[3] as int % 64)
  }

  function OneUnit(n: nat, size: nat): (r: Option<(seq<unit16>, nat)>)
    ensures r.Some? ==> r.value.1 == size
  {
    if n < 0x1_0000 then Some(([n as unit16], size)) else None
  }

  function Pair(n: nat): (r: Option<(seq<unit16>, nat)>)
    ensures r.Some? ==> r.value.1 == 4
  {
    if 0x1_0000 <= n < 0x11_0000
    then Some(([(0xd800 + (n - 0x1_0000) / 0x400) as unit16, (0xdc00 + (n - 0x1_0000) % 0x400) as unit16], 4))
    else None
  }

  function HexValue(b: byte): Option<nat> {
    if 0x30 <= b <= 0x39 then Some(b as int - 0x30)
    else if 0x61 <= b <= 0x66 then Some(b as int - 0x61 + 10)
    else None
  }

  function ReadEscape(b: bytes): (r: Option<(seq<unit16>, nat)>)
    requires b != []
    ensures r.Some? ==> 2 <= r.value.1 <= |b|
  {
    if |b| < 2 then None
    else if b[1] == 0x22 then Some(([0x22], 2))
    else if b[1] == 0x5c then Some(([0x5c], 2))
    else if b[1] == 0x62 then Some(([0x08], 2))
    else if b[1] == 0x74 then Some(([0x09], 2))
    else if b[1] == 0x6e then Some(([0x0a], 2))
    else if b[1] == 0x66 then Some(([0x0c], 2))
    else if b[1] == 0x72 then Some(([0x0d], 2))
    else if b[1] == 0x75 && |b| >= 6 then
      match (HexValue(b[2]), HexValue(b[3]), HexValue(b[4]), HexValue(b[5]))
      case (Some(h0), Some(h1), Some(h2), Some(h3)) => OneUnit(h0 * 0x1000 + h1 * 0x100 + h2 * 16 + h3, 6)
      case _ => None
    else None
  }

  /** The rest of a string after its opening quote, and what follows the closing one. */
  function ReadUnits(b: bytes): (r: Option<(seq<unit16>, bytes)>)
    ensures r.Some? ==> |r.value.1| < |b|
    decreases |b|
  {
    if b == [] then None
    else if b[0] == 0x22 then Some(([], b[1..]))
    else match ReadUnit(b)
      case None => None
      case Some((units, size)) =>
        match ReadUnits(b[size..])
        case None => None
        case Some((more, rest)) => Some((units + more, rest))
  }

  predicate IsDigit(b: byte) { 0x30 <= b <= 0x39 }

  /** Decimal digits, taken onto `n`, and what follows them. */
  function ReadDigits(n: nat, b: bytes): (r: (nat, bytes))
    ensures |r.1| <= |b|
    decreases |b|
  {
    if b == [] || !IsDigit(b[0]) then (n, b) else ReadDigits(n * 10 + b[0] as int - 0x30, b[1..])
  }

  function ReadKey(b: bytes): (r: Option<(plain, bytes)>)
    ensures r.Some? ==> |r.value.1| < |b|
  {
    if b == [] || b[0] != 0x22 then None
    else match ReadUnits(b[1..])
      case None => None
      case Some((units, rest)) => if AllPlain(units) then Some((PlainOf(units), rest)) else None
  }

  predicate AllPlain(units: seq<unit16>) {
    forall i :: 0 <= i < |units| ==> 0x20 <= units[i] <= 0x7e && units[i] != 0x22 && units[i] != 0x5c
  }

  function PlainOf(units: seq<unit16>): plain
    requires AllPlain(units)
  {
    seq(|units|, i requires 0 <= i < |units| => units[i] as int as char)
  }

  function Negative(n: nat): Value {
    var m: int := n;
    Number(-m)
  }

  function ReadNumber(b: bytes): (r: Option<(Value, bytes)>)
    ensures r.Some? ==> |r.value.1| < |b|
  {
    if b == [] then None
    else if IsDigit(b[0]) then
      var (n, rest) := ReadDigits(b[0] as int - 0x30, b[1..]);
      Some((Number(n), rest))
    else if b[0] == 0x2d && |b| >= 2 && IsDigit(b[1]) then
      var (n, rest) := ReadDigits(b[1] as int - 0x30, b[2..]);
      Some((Negative(n), rest))
    else None
  }

  /** The value at the front of a text, and what follows it. Strings come back as `Text`. */
  function ReadValue(b: bytes): (r: Option<(Value, bytes)>)
    ensures r.Some? ==> |r.value.1| < |b|
    decreases |b|, 0
  {
    if b == [] then None
    else if Ascii("null") <= b then Some((Null, b[4..]))
    else if Ascii("true") <= b then Some((Flag(true), b[4..]))
    else if Ascii("false") <= b then Some((Flag(false), b[5..]))
    else if b[0] == 0x22 then
      match ReadUnits(b[1..])
      case None => None
      case Some((units, rest)) => Some((Text(units), rest))
    else if b[0] == 0x7b then
      if |b| >= 2 && b[1] == 0x7d then Some((Object([]), b[2..]))
      else match ReadFields(b[1..])
        case None => None
        case Some((fields, rest)) => Some((Object(fields), rest))
    else ReadNumber(b)
  }

  /** Fields up to the closing brace. */
  function ReadFields(b: bytes): (r: Option<(seq<Field>, bytes)>)
    ensures r.Some? ==> |r.value.1| < |b|
    decreases |b|, 1
  {
    match ReadKey(b)
    case None => None
    case Some((key, afterKey)) =>
      if afterKey == [] || afterKey[0] != 0x3a then None
      else match ReadValue(afterKey[1..])
        case None => None
        case Some((value, rest)) =>
          if rest == [] then None
          else if rest[0] == 0x7d then Some(([Field(key, value)], rest[1..]))
          else if rest[0] != 0x2c then None
          else match ReadFields(rest[1..])
            case None => None
            case Some((more, tail)) => Some(([Field(key, value)] + more, tail))
  }
}
