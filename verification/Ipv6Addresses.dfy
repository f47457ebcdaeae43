/** IPv6 addresses in the text forms of section 2.2 of RFC 4291
    (src/agent/egress-policy.ts). */
module Ipv6Addresses {
  import opened Basics
  import opened Texts
  import opened Ipv4Addresses

  /* ---- Groups of hexadecimal digits ---- */

  predicate IsHex(c: char) {
    '0' <= c <= '9' || 'a' <= c <= 'f'
  }

  function HexDigit(c: char): (d: nat)
    requires IsHex(c)
    ensures d < 16
  {
    if '0' <= c <= '9' then c as int - '0' as int else c as int - 'a' as int + 10
  }

  function HexChar(d: nat): (c: char)
    requires d < 16
    ensures IsHex(c) && HexDigit(c) == d
  {
    if d < 10 then ('0' as int + d) as char else ('a' as int + (d - 10)) as char
  }

  predicate IsWord(s: string) {
    1 <= |s| <= 4 && forall i :: 0 <= i < |s| ==> IsHex(s[i])
  }

  function HexValue(s: string): nat
    requires forall i :: 0 <= i < |s| ==> IsHex(s[i])
  {
    if s == "" then 0 else HexValue(s[..|s| - 1]) * 16 + HexDigit(s[|s| - 1])
  }

  function HexText(n: nat): string {
    if n < 16 then [HexChar(n)] else HexText(n / 16) + [HexChar(n % 16)]
  }

  lemma HexSnoc(s: string, c: char)
    requires (forall i :: 0 <= i < |s| ==> IsHex(s[i])) && IsHex(c)
    ensures HexValue(s + [c]) == HexValue(s) * 16 + HexDigit(c)
  {
    assert (s + [c])[..|s|] == s;
  }

  /** A 16-bit number is written with one to four digits, and read back. */
  lemma {:induction false} HexTextIsWord(n: nat, k: nat)
    requires k > 0 && n < Pow16(k)
    ensures 1 <= |HexText(n)| <= k && (forall i :: 0 <= i < |HexText(n)| ==> IsHex(HexText(n)[i]))
    ensures HexValue(HexText(n)) == n
    decreases k
  {
    assert k == 1 ==> Pow16(k) == 16 * Pow16(0);
    if n < 16 {
      assert [HexChar(n)][..0] == "";
    } else {
      HexTextIsWord(n / 16, k - 1);
      HexSnoc(HexText(n / 16), HexChar(n % 16));
    }
  }

  function Pow16(k: nat): nat {
    if k == 0 then 1 else 16 * Pow16(k - 1)
  }

  lemma WordOf16Bits(n: nat)
    requires n < 0x1_0000
    ensures IsWord(HexText(n)) && HexValue(HexText(n)) == n
  {
    assert Pow16(4) == 0x1_0000;
    HexTextIsWord(n, 4);
  }

  predicate AllWords(words: seq<string>) {
    forall i :: 0 <= i < |words| ==> IsWord(words[i])
  }

  /* ---- Splitting at "::" ---- */

  function SplitDouble(s: string): (parts: seq<string>)
    ensures parts != []
    decreases |s|
  {
    if |s| < 2 then [s]
    else if s[0] == ':' && s[1] == ':' then [""] + SplitDouble(s[2..])
    else
      var rest := SplitDouble(s[1..]);
      [[s[0]] + rest[0]] + rest[1..]
  }

  function JoinDouble(parts: seq<string>): string {
    if parts == [] then ""
    else if |parts| == 1 then parts[0]
    else parts[0] + "::" + JoinDouble(parts[1..])
  }

  lemma {:induction false} JoinOfSplitDouble(s: string)
    ensures JoinDouble(SplitDouble(s)) == s
    decreases |s|
  {
    if |s| < 2 {
    } else if s[0] == ':' && s[1] == ':' {
      JoinOfSplitDouble(s[2..]);
      JoinDoubleEmpty(SplitDouble(s[2..]));
      assert s == "::" + s[2..];
    } else {
      JoinOfSplitDouble(s[1..]);
      JoinDoubleCons(s[0], SplitDouble(s[1..]));
      assert s == [s[0]] + s[1..];
    }
  }

  lemma JoinDoubleCons(c: char, rest: seq<string>)
    requires rest != []
    ensures JoinDouble([[c] + rest[0]] + rest[1..]) == [c] + JoinDouble(rest)
  {
    var parts := [[c] + rest[0]] + rest[1..];
    assert parts[1..] == rest[1..];
    if |rest| > 1 {
      assert [c] + rest[0] + "::" + JoinDouble(rest[1..]) == [c] + (rest[0] + "::" + JoinDouble(rest[1..]));
    }
  }

  lemma JoinDoubleEmpty(rest: seq<string>)
    requires rest != []
    ensures JoinDouble([""] + rest) == "::" + JoinDouble(rest)
  {
    assert ([""] + rest)[1..] == rest;
    assert "" + "::" == "::";
  }

  ghost predicate NoDouble(s: string) {
    forall i :: 0 <= i < |s| - 1 ==> !(s[i] == ':' && s[i + 1] == ':')
  }

  lemma {:induction false} NothingToSplit(s: string)
    requires NoDouble(s)
    ensures SplitDouble(s) == [s]
    decreases |s|
  {
    if |s| >= 2 {
      forall i | 0 <= i < |s[1..]| - 1 ensures !(s[1..][i] == ':' && s[1..][i + 1] == ':') {
        assert s[1..][i] == s[i + 1];
      }
      NothingToSplit(s[1..]);
      assert s == [s[0]] + s[1..];
      assert !(s[0] == ':' && s[0 + 1] == ':');
    }
  }

  lemma {:induction false} SplitAtDouble(a: string, b: string)
    requires NoDouble(a) && (a == "" || a[|a| - 1] != ':')
    ensures SplitDouble(a + "::" + b) == [a] + SplitDouble(b)
    decreases |a|
  {
    var s := a + "::" + b;
    if a == "" {
      assert s[2..] == b;
    } else {
      assert s[1..] == a[1..] + "::" + b;
      forall i | 0 <= i < |a[1..]| - 1 ensures !(a[1..][i] == ':' && a[1..][i + 1] == ':') {
        assert a[1..][i] == a[i + 1];
      }
      SplitAtDouble(a[1..], b);
      assert !(s[0] == ':' && s[1] == ':') by {
        if |a| > 1 {
          assert !(a[0] == ':' && a[0 + 1] == ':');
        }
      }
      assert a == [a[0]] + a[1..];
    }
  }

  lemma WordHasNoColon(w: string)
    requires IsWord(w)
    ensures ':' !in w && '.' !in w && '%' !in w
  {
  }

  /** Words joined by colons contain no "::" and neither begin nor end with a
      colon. */
  lemma {:induction false} JoinedWords(words: seq<string>)
    requires AllWords(words)
    ensures var s := Join(words, ':');
      && NoDouble(s)
      && (words == [] <==> s == "")
      && (s != "" ==> s[0] != ':' && s[|s| - 1] != ':')
    decreases |words|
  {
    if |words| == 1 {
      WordHasNoColon(words[0]);
    } else if |words| > 1 {
      JoinedWords(words[1..]);
      WordHasNoColon(words[0]);
      var w, rest := words[0], Join(words[1..], ':');
      var s := Join(words, ':');
      assert s == w + ":" + rest;
      forall i | 0 <= i < |s| - 1 ensures !(s[i] == ':' && s[i + 1] == ':') {
        if i < |w| {
          assert s[i] == w[i];
        } else if i > |w| {
          assert s[i] == rest[i - |w| - 1] && s[i + 1] == rest[i - |w|];
        } else {
          assert s[i + 1] == rest[0];
        }
      }
      assert s[|s| - 1] == rest[|rest| - 1];
    }
  }

  /* ---- The parser ---- */

  function LastColon(s: string): (at: Option<nat>)
    ensures at.Some? ==> at.value < |s| && s[at.value] == ':' && ':' !in s[at.value + 1..]
    ensures at.None? ==> ':' !in s
  {
    if s == "" then None
    else if s[|s| - 1] == ':' then Some(|s| - 1)
    else
      var at := LastColon(s[..|s| - 1]);
      assert at.Some? ==> s[at.value + 1..] == s[..|s| - 1][at.value + 1..] + [s[|s| - 1]];
      assert s == s[..|s| - 1] + [s[|s| - 1]];
      at
  }

  lemma LastColonAt(prefix: string, tail: string)
    requires ':' !in tail
    ensures LastColon(prefix + ":" + tail) == Some(|prefix|)
  {
    var s := prefix + ":" + tail;
    assert s[|prefix|] == ':';
  }

  function Zeros(n: nat): (words: seq<string>)
    ensures |words| == n && forall i :: 0 <= i < n ==> words[i] == "0"
  {
    seq(n, i => "0")
  }

  function ValueOfWords(words: seq<string>): nat
    requires AllWords(words)
  {
    if words == [] then 0
    else
      assert IsWord(words[|words| - 1]);
      ValueOfWords(words[..|words| - 1]) * 0x1_0000 + HexValue(words[|words| - 1])
  }

  function SideWords(side: string): seq<string> {
    if side == "" then [] else Split(side, ':')
  }

  /** The part of the parser that follows the replacement of a dotted quad. */
  function ParseGroups(working: string): Option<nat> {
    ParseHalves(SplitDouble(working))
  }

  function ParseHalves(halves: seq<string>): Option<nat>
    requires halves != []
  {
    if |halves| > 2 then None
    else
      var left := SideWords(halves[0]);
      var right := if |halves| == 1 then [] else SideWords(halves[1]);
      var omitted := 8 - |left| - |right|;
      if (|halves| == 1 && omitted != 0) || (|halves| == 2 && omitted < 1) then None
      else
        var words := left + Zeros(omitted) + right;
        if AllWords(words) then Some(ValueOfWords(words)) else None
  }

  /** A trailing dotted quad becomes two groups. */
  function ReplaceQuad(working: string): Option<string> {
    if '.' !in working then Some(working)
    else
      match LastColon(working)
      case None => None
      case Some(at) =>
        match Ipv4ToNumber(working[at + 1..])
        case None => None
        case Some(v) => Some(working[..at] + ":" + HexText(v / 0x1_0000) + ":" + HexText(v % 0x1_0000))
  }

  function Ipv6ToBigInt(address: string): Option<nat> {
    if '%' in address then None
    else
      match ReplaceQuad(Lower(address))
      case None => None
      case Some(working) => ParseGroups(working)
  }

  /** The parser as it runs: `working` is replaced once, and the words are
      accumulated from the left. */
  method ParseIpv6(address: string) returns (r: Option<nat>)
    ensures r == Ipv6ToBigInt(address)
  {
    if '%' in address {
      return None;
    }
    var working := Lower(address);
    if '.' in working {
      var separator := LastColon(working);
      if separator.None? {
        return None;
      }
      var ipv4 := ParseIpv4(working[separator.value + 1..]);
      if ipv4.None? {
        return None;
      }
      working := working[..separator.value] + ":" + HexText(ipv4.value / 0x1_0000) + ":" + HexText(ipv4.value % 0x1_0000);
    }
    r := ReadGroups(working);
  }

  method ReadGroups(working: string) returns (r: Option<nat>)
    ensures r == ParseGroups(working)
  {
    var halves := SplitDouble(working);
    if |halves| > 2 {
      return None;
    }
    var left := SideWords(halves[0]);
    var right := if |halves| == 1 then [] else SideWords(halves[1]);
    var omitted := 8 - |left| - |right|;
    if (|halves| == 1 && omitted != 0) || (|halves| == 2 && omitted < 1) {
      return None;
    }
    var words := left + Zeros(omitted) + right;
    if !AllWords(words) {
      return None;
    }
    var value := Accumulate(words);
    r := Some(value);
  }

  method Accumulate(words: seq<string>) returns (value: nat)
    requires AllWords(words)
    ensures value == ValueOfWords(words)
  {
    value := 0;
    for i := 0 to |words|
      invariant value == ValueOfWords(words[..i])
    {
      assert words[..i + 1][..i] == words[..i];
      value := value * 0x1_0000 + HexValue(words[i]);
    }
    assert words[..|words|] == words;
  }

  /* ---- The text forms ---- */

  /** Eight groups, or groups around one "::" that stands for at least one group
      of zeros. */
  datatype Groups = Full(words: seq<string>) | Elided(left: seq<string>, right: seq<string>) {
    predicate Valid() {
      match this
      case Full(words) => AllWords(words) && |words| == 8
      case Elided(left, right) => AllWords(left) && AllWords(right) && |left| + |right| <= 7
    }

    function Text(): string {
      match this
      case Full(words) => Join(words, ':')
      case Elided(left, right) => Join(left, ':') + "::" + Join(right, ':')
    }

    /** The eight groups the text stands for. */
    function Words(): (words: seq<string>)
      requires Valid()
      ensures |words| == 8 && AllWords(words)
    {
      match this
      case Full(words) => words
      case Elided(left, right) => left + Zeros(8 - |left| - |right|) + right
    }
  }

  lemma SideOfWords(words: seq<string>)
    requires AllWords(words)
    ensures SideWords(Join(words, ':')) == words
  {
    JoinedWords(words);
    if words != [] {
      forall i | 0 <= i < |words| ensures ':' !in words[i] {
        WordHasNoColon(words[i]);
      }
      SplitOfJoin(words, ':');
    }
  }

  /** Every text of groups is read as the value of its eight groups. */
  lemma GroupsParse(g: Groups)
    requires g.Valid()
    ensures ParseGroups(g.Text()) == Some(ValueOfWords(g.Words()))
  {
    match g
    case Full(words) => FullParses(words);
    case Elided(left, right) => ElidedParses(left, right);
  }

  lemma FullParses(words: seq<string>)
    requires Full(words).Valid()
    ensures ParseGroups(Full(words).Text()) == Some(ValueOfWords(words))
  {
    var text := Join(words, ':');
    JoinedWords(words);
    NothingToSplit(text);
    SideOfWords(words);
    assert words + Zeros(0) + [] == words;
    assert ParseHalves([text]) == Some(ValueOfWords(words));
  }

  lemma ElidedParses(left: seq<string>, right: seq<string>)
    requires Elided(left, right).Valid()
    ensures ParseGroups(Elided(left, right).Text()) == Some(ValueOfWords(Elided(left, right).Words()))
  {
    var a, b := Join(left, ':'), Join(right, ':');
    JoinedWords(left);
    JoinedWords(right);
    SplitAtDouble(a, b);
    NothingToSplit(b);
    SideOfWords(left);
    SideOfWords(right);
    HalvesParse(a, b, left, right);
    assert [a] + [b] == [a, b];
  }

  lemma HalvesParse(a: string, b: string, left: seq<string>, right: seq<string>)
    requires Elided(left, right).Valid() && SideWords(a) == left && SideWords(b) == right
    ensures ParseHalves([a, b]) == Some(ValueOfWords(Elided(left, right).Words()))
  {
  }

  lemma WordsOfSide(side: string)
    ensures Join(SideWords(side), ':') == side
  {
    JoinOfSplit(side, ':');
  }

  /** Nothing but such texts is accepted. */
  lemma OnlyGroupsParse(working: string) returns (g: Groups)
    requires ParseGroups(working).Some?
    ensures g.Valid() && g.Text() == working
  {
    var halves := SplitDouble(working);
    JoinOfSplitDouble(working);
    var left := SideWords(halves[0]);
    WordsOfSide(halves[0]);
    if |halves| == 1 {
      g := Full(left);
      PartsAreWords(left, Zeros(0), []);
    } else {
      var right := SideWords(halves[1]);
      WordsOfSide(halves[1]);
      assert halves[1..] == [halves[1]];
      PartsAreWords(left, Zeros(8 - |left| - |right|), right);
      g := Elided(left, right);
    }
  }

  lemma PartsAreWords(left: seq<string>, middle: seq<string>, right: seq<string>)
    requires AllWords(left + middle + right)
    ensures AllWords(left) && AllWords(right)
  {
    var words := left + middle + right;
    forall i | 0 <= i < |left| ensures IsWord(left[i]) {
      assert words[i] == left[i];
    }
    forall i | 0 <= i < |right| ensures IsWord(right[i]) {
      assert words[|left| + |middle| + i] == right[i];
    }
  }
}
