/** The text forms of section 2.2 of RFC 4291, with what each one means, and the
    proof that the parser reads exactly these. */
module Ipv6TextForms {
  import opened Basics
  import opened Texts
  import opened Ipv4Addresses
  import opened Ipv6Addresses

  /** Groups alone, or groups followed by a dotted quad for the last 32 bits. */
  datatype AddressText = Plain(groups: Groups) | WithQuad(groups: Groups, quad: Quad) {
    predicate Valid() {
      match this
      case Plain(groups) => groups.Valid()
      case WithQuad(Full(words), _) => AllWords(words) && |words| == 6
      case WithQuad(Elided(left, right), _) => AllWords(left) && AllWords(right) && |left| + |right| <= 5
    }

    function Text(): string {
      match this
      case Plain(groups) => groups.Text()
      case WithQuad(groups, quad) => Prefix(groups) + ":" + QuadText(quad)
    }

    /** The eight 16-bit numbers the text stands for. */
    function Numbers(): (numbers: seq<nat>)
      requires Valid()
      ensures |numbers| == 8
    {
      match this
      case Plain(Full(words)) => Hexes(words)
      case Plain(Elided(left, right)) => Hexes(left) + seq(8 - |left| - |right|, i => 0) + Hexes(right)
      case WithQuad(Full(words), quad) => Hexes(words) + QuadNumbers(quad)
      case WithQuad(Elided(left, right), quad) =>
        Hexes(left) + seq(6 - |left| - |right|, i => 0) + Hexes(right) + QuadNumbers(quad)
    }

    /** The 128-bit address. */
    function Meaning(): nat
      requires Valid()
    {
      Horner(Numbers())
    }
  }

  function QuadNumbers(q: Quad): (numbers: seq<nat>)
    ensures |numbers| == 2
  {
    [q.a as int * 256 + q.b as int, q.c as int * 256 + q.d as int]
  }

  function Hexes(words: seq<string>): (numbers: seq<nat>)
    requires AllWords(words)
    ensures |numbers| == |words|
  {
    seq(|words|, i requires 0 <= i < |words| => assert IsWord(words[i]); HexValue(words[i]))
  }

  function Horner(numbers: seq<nat>): nat {
    if numbers == [] then 0 else Horner(numbers[..|numbers| - 1]) * 0x1_0000 + numbers[|numbers| - 1]
  }

  /** What stands before the colon that a further group needs. */
  function Prefix(g: Groups): string {
    match g
    case Full(words) => Join(words, ':')
    case Elided(left, right) => if right == [] then Join(left, ':') + ":" else g.Text()
  }

  function Append(g: Groups, word: string): Groups {
    match g
    case Full(words) => Full(words + [word])
    case Elided(left, right) => Elided(left, right + [word])
  }

  lemma TextOfAppend(g: Groups, word: string)
    requires g.Full? ==> g.words != []
    ensures Append(g, word).Text() == Prefix(g) + ":" + word
    ensures Append(g, word).Text() == Prefix(Append(g, word))
  {
    match g
    case Full(words) => JoinAppend(words, [word], ':');
    case Elided(left, right) =>
      if right == [] {
        assert right + [word] == [word];
        assert Join(left, ':') + "::" + word == Join(left, ':') + ":" + ":" + word;
      } else {
        JoinAppend(right, [word], ':');
        assert Join(left, ':') + "::" + (Join(right, ':') + ":" + word) == g.Text() + ":" + word;
      }
  }

  lemma {:induction false} HornerOfWords(words: seq<string>)
    requires AllWords(words)
    ensures ValueOfWords(words) == Horner(Hexes(words))
    decreases |words|
  {
    if words != [] {
      var front := words[..|words| - 1];
      HornerOfWords(front);
      assert Hexes(words)[..|words| - 1] == Hexes(front);
      assert IsWord(words[|words| - 1]);
    }
  }

  function HighWord(q: Quad): string { HexText(QuadValue(q) / 0x1_0000) }
  function LowWord(q: Quad): string { HexText(QuadValue(q) % 0x1_0000) }

  lemma WordsOfQuad(q: Quad)
    ensures IsWord(HighWord(q)) && IsWord(LowWord(q))
    ensures HexValue(HighWord(q)) == q.a as int * 256 + q.b as int
    ensures HexValue(LowWord(q)) == q.c as int * 256 + q.d as int
  {
    var high, low := q.a as int * 256 + q.b as int, q.c as int * 256 + q.d as int;
    assert QuadValue(q) == high * 0x1_0000 + low;
    WordOf16Bits(high);
    WordOf16Bits(low);
  }

  /** The text with its quad written as two groups. */
  function Expanded(t: AddressText): Groups {
    match t
    case Plain(groups) => groups
    case WithQuad(groups, quad) => Append(Append(groups, HighWord(quad)), LowWord(quad))
  }

  lemma ZeroWord()
    ensures IsWord("0") && HexValue("0") == 0
  {
    assert "0"[..0] == "";
  }

  lemma NumbersOfElided(left: seq<string>, right: seq<string>)
    requires Elided(left, right).Valid()
    ensures Hexes(Elided(left, right).Words()) == Hexes(left) + seq(8 - |left| - |right|, i => 0) + Hexes(right)
  {
    ZeroWord();
  }

  lemma HexesOfTwoMore(words: seq<string>, high: string, low: string, x: nat, y: nat)
    requires AllWords(words) && IsWord(high) && IsWord(low) && HexValue(high) == x && HexValue(low) == y
    ensures AllWords(words + [high] + [low]) && Hexes(words + [high] + [low]) == Hexes(words) + [x, y]
  {
    var all := words + [high] + [low];
    assert all[|words|] == high && all[|words| + 1] == low;
  }

  lemma NumbersWithQuad(g: Groups, high: string, low: string, q: Quad)
    requires WithQuad(g, q).Valid() && IsWord(high) && IsWord(low)
    requires HexValue(high) == q.a as int * 256 + q.b as int && HexValue(low) == q.c as int * 256 + q.d as int
    ensures var e := Append(Append(g, high), low);
      e.Valid() && Hexes(e.Words()) == WithQuad(g, q).Numbers()
  {
    match g
    case Full(words) =>
      HexesOfTwoMore(words, high, low, QuadNumbers(q)[0], QuadNumbers(q)[1]);
    case Elided(left, right) =>
      HexesOfTwoMore(right, high, low, QuadNumbers(q)[0], QuadNumbers(q)[1]);
      ElidedNumbersWithTwoMore(left, right, high, low, QuadNumbers(q));
  }

  lemma ElidedNumbersWithTwoMore(left: seq<string>, right: seq<string>, high: string, low: string, two: seq<nat>)
    requires Elided(left, right + [high] + [low]).Valid() && AllWords(right) && |two| == 2
    requires Hexes(right + [high] + [low]) == Hexes(right) + two
    ensures Hexes(Elided(left, right + [high] + [low]).Words()) ==
            Hexes(left) + seq(6 - |left| - |right|, i => 0) + Hexes(right) + two
  {
    NumbersOfElided(left, right + [high] + [low]);
    Regroup(Hexes(left) + seq(6 - |left| - |right|, i => 0), Hexes(right), two);
  }

  /** Writing the quad as two groups does not change the address. */
  lemma ExpandingKeepsTheMeaning(t: AddressText)
    requires t.Valid()
    ensures Expanded(t).Valid() && ValueOfWords(Expanded(t).Words()) == t.Meaning()
  {
    if t.WithQuad? {
      WordsOfQuad(t.quad);
      NumbersWithQuad(t.groups, HighWord(t.quad), LowWord(t.quad), t.quad);
    } else if t.groups.Elided? {
      NumbersOfElided(t.groups.left, t.groups.right);
    }
    HornerOfNumbers(Expanded(t), t.Numbers());
  }

  lemma HornerOfNumbers(g: Groups, numbers: seq<nat>)
    requires g.Valid() && Hexes(g.Words()) == numbers
    ensures ValueOfWords(g.Words()) == Horner(numbers)
  {
    HornerOfWords(g.Words());
  }

  lemma ExpandedText(t: AddressText)
    requires t.Valid() && t.WithQuad?
    ensures Expanded(t).Text() == Prefix(t.groups) + ":" + HighWord(t.quad) + ":" + LowWord(t.quad)
  {
    TextOfAppend(t.groups, HighWord(t.quad));
    TextOfAppend(Append(t.groups, HighWord(t.quad)), LowWord(t.quad));
  }

  /* ---- Characters ---- */

  predicate AddressChar(c: char) {
    IsHex(c) || c == ':' || c == '.'
  }

  ghost predicate AddressChars(s: string) {
    forall i :: 0 <= i < |s| ==> AddressChar(s[i])
  }

  lemma {:induction false} JoinedChars(words: seq<string>, sep: char, dots: bool)
    requires sep == ':' || sep == '.'
    requires forall i :: 0 <= i < |words| ==> AddressChars(words[i])
    requires !dots ==> sep == ':' && forall i :: 0 <= i < |words| ==> '.' !in words[i]
    ensures AddressChars(Join(words, sep)) && (!dots ==> '.' !in Join(words, sep))
    decreases |words|
  {
    if |words| > 1 {
      JoinedChars(words[1..], sep, dots);
    }
  }

  lemma GroupChars(words: seq<string>)
    requires AllWords(words)
    ensures AddressChars(Join(words, ':')) && '.' !in Join(words, ':')
  {
    forall i | 0 <= i < |words| ensures AddressChars(words[i]) && '.' !in words[i] {
      WordHasNoColon(words[i]);
    }
    JoinedChars(words, ':', false);
  }

  lemma QuadChars(q: Quad)
    ensures AddressChars(QuadText(q)) && ':' !in QuadText(q) && '.' in QuadText(q)
  {
    var parts := QuadParts(q);
    forall i | 0 <= i < 4 ensures AddressChars(parts[i]) && ':' !in parts[i] {
    }
    JoinedChars(parts, '.', true);
    NoColonInJoin(parts);
    assert QuadText(q)[|parts[0]|] == '.';
  }

  lemma {:induction false} NoColonInJoin(parts: seq<string>)
    requires forall i :: 0 <= i < |parts| ==> ':' !in parts[i]
    ensures ':' !in Join(parts, '.')
    decreases |parts|
  {
    if |parts| > 1 {
      NoColonInJoin(parts[1..]);
    }
  }

  lemma GroupsChars(g: Groups)
    requires match g case Full(words) => AllWords(words) case Elided(left, right) => AllWords(left) && AllWords(right)
    ensures AddressChars(g.Text()) && '.' !in g.Text()
    ensures AddressChars(Prefix(g)) && '.' !in Prefix(g)
  {
    match g
    case Full(words) => GroupChars(words);
    case Elided(left, right) =>
      GroupChars(left);
      GroupChars(right);
  }

  lemma TextChars(t: AddressText)
    requires t.Valid()
    ensures AddressChars(t.Text()) && ('.' in t.Text() <==> t.WithQuad?)
  {
    GroupsChars(t.groups);
    if t.WithQuad? {
      QuadChars(t.quad);
      assert t.Text()[|Prefix(t.groups)| + 1..] == QuadText(t.quad);
    }
  }

  lemma NoPercent(address: string)
    requires AddressChars(Lower(address))
    ensures '%' !in address
  {
    forall i | 0 <= i < |address| ensures address[i] != '%' {
      assert AddressChar(Lower(address)[i]);
    }
  }

  /* ---- The parser reads exactly these forms ---- */

  /** Every text form of every address, in either case, is read as that address. */
  lemma ReadsEveryForm(address: string, t: AddressText)
    requires t.Valid() && Lower(address) == t.Text()
    ensures Ipv6ToBigInt(address) == Some(t.Meaning())
  {
    TextChars(t);
    NoPercent(address);
    ExpandingKeepsTheMeaning(t);
    GroupsParse(Expanded(t));
    if t.WithQuad? {
      QuadReplaced(t);
    }
  }

  lemma QuadReplaced(t: AddressText)
    requires t.Valid() && t.WithQuad?
    ensures ReplaceQuad(t.Text()) == Some(Expanded(t).Text())
  {
    var prefix, tail := Prefix(t.groups), QuadText(t.quad);
    TextChars(t);
    QuadChars(t.quad);
    LastColonAt(prefix, tail);
    var working := t.Text();
    assert working[..|prefix|] == prefix && working[|prefix| + 1..] == tail;
    QuadParses(t.quad);
    ExpandedText(t);
  }

  lemma LastColonUnique(a: string, x: string, b: string, y: string)
    requires a + ":" + x == b + ":" + y && ':' !in x && ':' !in y
    ensures a == b && x == y
  {
    LastColonAt(a, x);
    LastColonAt(b, y);
    assert (a + ":" + x)[..|a|] == a && (b + ":" + y)[..|b|] == b;
    assert (a + ":" + x)[|a| + 1..] == x && (b + ":" + y)[|b| + 1..] == y;
  }

  ghost predicate WellSpelled(g: Groups) {
    match g
    case Full(words) => AllWords(words)
    case Elided(left, right) => AllWords(left) && AllWords(right)
  }

  lemma ColonMeansTwoWords(words: seq<string>, prefix: string, word: string)
    requires AllWords(words) && Join(words, ':') == prefix + ":" + word
    ensures |words| >= 2
  {
    var text := prefix + ":" + word;
    assert text[|prefix|] == ':';
    if |words| == 1 {
      WordHasNoColon(words[0]);
    }
  }

  lemma WordMeansRight(left: seq<string>, right: seq<string>, prefix: string, word: string)
    requires Elided(left, right).Text() == prefix + ":" + word && word != "" && ':' !in word
    ensures right != []
  {
    var text := prefix + ":" + word;
    assert text[|text| - 1] == word[|word| - 1];
    assert right == [] ==> Elided(left, right).Text() == Join(left, ':') + "::";
  }

  /** A text that ends in a colon and a word has that word as its last group. */
  lemma EndsInWord(g: Groups, prefix: string, word: string) returns (shorter: Groups)
    requires WellSpelled(g) && g.Text() == prefix + ":" + word && word != "" && ':' !in word
    ensures WellSpelled(shorter) && g == Append(shorter, word) && prefix == Prefix(shorter)
    ensures shorter.Full? ==> shorter.words != []
  {
    match g
    case Full(words) =>
      ColonMeansTwoWords(words, prefix, word);
      var n := |words|;
      shorter := Full(words[..n - 1]);
      assert words == words[..n - 1] + [words[n - 1]];
      WordHasNoColon(words[n - 1]);
      TextOfAppend(shorter, words[n - 1]);
      LastColonUnique(Prefix(shorter), words[n - 1], prefix, word);
    case Elided(left, right) =>
      WordMeansRight(left, right, prefix, word);
      var n := |right|;
      shorter := Elided(left, right[..n - 1]);
      assert right == right[..n - 1] + [right[n - 1]];
      WordHasNoColon(right[n - 1]);
      TextOfAppend(shorter, right[n - 1]);
      LastColonUnique(Prefix(shorter), right[n - 1], prefix, word);
  }

  lemma PrefixIsText(g: Groups, prefix: string, word: string)
    requires Prefix(g) == prefix + ":" + word && word != "" && ':' !in word
    ensures g.Text() == prefix + ":" + word
  {
    if g.Elided? {
      ColonIsNoWord(Join(g.left, ':'), prefix, word);
    }
  }

  lemma ColonIsNoWord(s: string, prefix: string, word: string)
    requires word != "" && ':' !in word
    ensures s + ":" != prefix + ":" + word
  {
    var text := prefix + ":" + word;
    assert text[|text| - 1] == word[|word| - 1] && (s + ":")[|s|] == ':';
  }

  lemma QuadFormOf(working: string, g: Groups) returns (t: AddressText)
    requires '.' in working && ReplaceQuad(working).Some?
    requires g.Valid() && g.Text() == ReplaceQuad(working).value
    ensures t.Valid() && working == t.Text()
  {
    var at := LastColon(working).value;
    var q := OnlyQuadsParse(working[at + 1..]);
    var prefix := working[..at];
    assert working == prefix + ":" + QuadText(q);
    var shorter := TwoLastGroups(g, prefix, q);
    t := WithQuad(shorter, q);
  }

  lemma TwoLastGroups(g: Groups, prefix: string, q: Quad) returns (shorter: Groups)
    requires g.Valid() && g.Text() == prefix + ":" + HighWord(q) + ":" + LowWord(q)
    ensures WithQuad(shorter, q).Valid() && prefix == Prefix(shorter)
  {
    WordsOfQuad(q);
    WordHasNoColon(HighWord(q));
    WordHasNoColon(LowWord(q));
    var once := EndsInWord(g, prefix + ":" + HighWord(q), LowWord(q));
    PrefixIsText(once, prefix, HighWord(q));
    shorter := EndsInWord(once, prefix, HighWord(q));
  }

  /** Nothing else is accepted: whatever the parser reads is, in lower case, one
      of the text forms, read as the address it means. */
  lemma AcceptsOnlyForms(address: string) returns (t: AddressText)
    requires Ipv6ToBigInt(address).Some?
    ensures t.Valid() && Lower(address) == t.Text() && Ipv6ToBigInt(address) == Some(t.Meaning())
  {
    var working := Lower(address);
    var g := OnlyGroupsParse(ReplaceQuad(working).value);
    if '.' !in working {
      t := Plain(g);
    } else {
      t := QuadFormOf(working, g);
    }
    ReadsEveryForm(address, t);
  }
}
