/**
 The grammar of RFC 8259, apart from any reader: strings as characters and escapes, values as syntax
 trees, and what lays them out. Skipping accepts the texts of this grammar and no other, and a string is
 read as what its characters stand for.
 */
module JsonSyntax {
  import opened Bytes
  import opened JsonNumber
  import opened JsonText
  import opened JsonGrammar
  import opened JsonLayout
  import opened JsonTheorems
  import R = JsonReader
  import Utf8

  // Strings (section 7)

  /** What may stand behind a backslash, and what it stands for. */
  const ESCAPES: map<Byte, Byte> := map[0x22 := 0x22, 0x5C := 0x5C, 0x2F := 0x2F, 0x62 := 0x08, 0x66 := 0x0C,
                                        0x6E := 0x0A, 0x72 := 0x0D, 0x74 := 0x09]

  /** A digit or a letter up to F, of either case. */
  predicate IsHex(c: Byte) {
    0x30 <= c <= 0x39 || 0x41 <= c <= 0x46 || 0x61 <= c <= 0x66
  }

  /** The letters of either case count on from nine. */
  function HexPlace(c: Byte): nat
    requires IsHex(c)
  {
    if c <= 0x39 then c - 0x30 else c % 0x20 + 9
  }

  type HexText = d: seq<Byte> | |d| == 4 && forall i :: 0 <= i < 4 ==> IsHex(d[i]) witness [ZERO, ZERO, ZERO, ZERO]

  function HexNumber(d: HexText): nat {
    0x1000 * HexPlace(d[0]) + 0x100 * HexPlace(d[1]) + 0x10 * HexPlace(d[2]) + HexPlace(d[3])
  }

  lemma HexIsPlace(c: Byte)
    ensures HexValue(c) == if IsHex(c) then Some(HexPlace(c)) else None
  {
  }

  lemma EscapeIsTold(c: Byte)
    ensures LetterEscape(c) == if c in ESCAPES then Some(ESCAPES[c]) else None
  {
  }

  /** One character as it is spelled. */
  datatype Spelled =
    | Plain(scalar: Utf8.Scalar)
    | Letter(letter: Byte)
    | Named(digits: HexText)
    | Pair(high: HexText, low: HexText)
  {
    predicate Valid() {
      match this
      case Plain(v) => v >= 0x20 && v != QUOTE && v != BACKSLASH
      case Letter(c) => c in ESCAPES
      case Named(d) => Utf8.IsScalar(HexNumber(d))
      case Pair(high, low) => 0xD800 <= HexNumber(high) <= 0xDBFF && 0xDC00 <= HexNumber(low) <= 0xDFFF
    }

    function Spelling(): seq<Byte> {
      match this
      case Plain(v) => Utf8.Append(v)
      case Letter(c) => [BACKSLASH, c]
      case Named(d) => [BACKSLASH] + ([LOWER_U] + d)
      case Pair(high, low) => [BACKSLASH] + ([LOWER_U] + (high + [BACKSLASH, LOWER_U] + low))
    }

    /** The scalar value it stands for. */
    function Scalar(): Utf8.Scalar
      requires Valid()
    {
      match this
      case Plain(v) => v
      case Letter(c) => ESCAPES[c]
      case Named(d) => HexNumber(d)
      case Pair(high, low) => Utf8.FromPair(HexNumber(high), HexNumber(low))
    }
  }

  type Character = c: Spelled | c.Valid() witness Plain(0x20)

  function Body(characters: seq<Character>): seq<Byte> {
    if characters == [] then [] else characters[0].Spelling() + Body(characters[1..])
  }

  /** The text in UTF-8. */
  function Meaning(characters: seq<Character>): seq<Byte> {
    if characters == [] then [] else Utf8.Append(characters[0].Scalar()) + Meaning(characters[1..])
  }

  // A string is parsed as what its characters stand for

  lemma HexOfText(input: seq<Byte>, pos: nat, d: HexText)
    requires At(input, pos, d)
    ensures Hex4(input, pos) == Ok((HexNumber(d), pos + 4))
  {
    assert input[pos + 0] == d[0] && input[pos + 1] == d[1] && input[pos + 2] == d[2] && input[pos + 3] == d[3];
    HexIsPlace(d[0]);
    HexIsPlace(d[1]);
    HexIsPlace(d[2]);
    HexIsPlace(d[3]);
    var a, b, c := HexPlace(d[0]), HexPlace(d[1]), HexPlace(d[2]);
    assert TakeHex(input, pos + 3, 3, (a * 0x10 + b) * 0x10 + c) == Ok((HexNumber(d), pos + 4));
    assert TakeHex(input, pos + 2, 2, a * 0x10 + b) == Ok((HexNumber(d), pos + 4));
    assert TakeHex(input, pos + 1, 1, a) == Ok((HexNumber(d), pos + 4));
  }

  lemma TextOfHex(input: seq<Byte>, pos: nat) returns (d: HexText)
    requires Hex4(input, pos).Ok?
    ensures At(input, pos, d) && Hex4(input, pos) == Ok((HexNumber(d), pos + 4))
  {
    HexDigitsTaken(input, pos, 0, 0);
    d := [input[pos], input[pos + 1], input[pos + 2], input[pos + 3]];
    HexOfText(input, pos, d);
  }

  lemma {:induction false} HexDigitsTaken(input: seq<Byte>, pos: nat, i: nat, value: nat)
    requires i <= 4 && TakeHex(input, pos, i, value).Ok? && pos <= |input| + i
    ensures forall k :: pos <= k < pos + 4 - i ==> k < |input| && IsHex(input[k])
    decreases 4 - i
  {
    if i < 4 {
      HexIsPlace(Current(input, pos));
      HexDigitsTaken(input, pos + 1, i + 1, value * 0x10 + HexValue(Current(input, pos)).value);
    }
  }

  lemma EscapeOfPair(input: seq<Byte>, pos: nat, high: HexText, low: HexText)
    requires Pair(high, low).Valid() && At(input, pos, [LOWER_U] + (high + [BACKSLASH, LOWER_U] + low))
    ensures TakeEscape(input, pos) == Ok((Utf8.Append(Pair(high, low).Scalar()), pos + 11))
  {
    hide Hex4;
    AtConcat(input, pos, [LOWER_U], high + [BACKSLASH, LOWER_U] + low);
    AtByte(input, pos, LOWER_U);
    PairIn(input, pos + 1, high, low);
    HexOfText(input, pos + 1, high);
    HexOfText(input, pos + 7, low);
    TakenPair(input, pos + 1, HexNumber(high), HexNumber(low));
    EscapeOfCodePoint(input, pos, Pair(high, low).Scalar(), pos + 11);
  }

  lemma EscapeOfNamed(input: seq<Byte>, pos: nat, d: HexText)
    requires Named(d).Valid() && At(input, pos, [LOWER_U] + d)
    ensures TakeEscape(input, pos) == Ok((Utf8.Append(HexNumber(d)), pos + 5))
  {
    hide Hex4;
    AtConcat(input, pos, [LOWER_U], d);
    AtByte(input, pos, LOWER_U);
    HexOfText(input, pos + 1, d);
    EscapeOfCodePoint(input, pos, HexNumber(d), pos + 5);
  }

  lemma UnitOfEscape(input: seq<Byte>, pos: nat)
    requires pos < |input| && input[pos] == BACKSLASH
    ensures TakeEscape(input, pos + 1).Ok? ==> TakeUnit(input, pos) == TakeEscape(input, pos + 1)
  {
  }

  lemma UnitOfSpelling(input: seq<Byte>, pos: nat, c: Character)
    requires At(input, pos, c.Spelling())
    ensures pos < |input| && input[pos] != QUOTE
    ensures TakeUnit(input, pos) == Ok((Utf8.Append(c.Scalar()), pos + |c.Spelling()|))
  {
    hide At, TakeEscape, TakeUnit;
    match c
    case Plain(v) =>
      if v < 0x80 {
        AtByte(input, pos, v);
        UnitOfPlain(input, pos);
      } else {
        UnitOfScalar(input, pos, v);
      }
    case Letter(letter) =>
      AtConcat(input, pos, [BACKSLASH], [letter]);
      assert [BACKSLASH] + [letter] == [BACKSLASH, letter];
      AtByte(input, pos, BACKSLASH);
      AtByte(input, pos + 1, letter);
      EscapeIsTold(letter);
      EscapeOfLetter(input, pos + 1);
      UnitOfEscape(input, pos);
    case Named(d) =>
      AtConcat(input, pos, [BACKSLASH], [LOWER_U] + d);
      AtByte(input, pos, BACKSLASH);
      EscapeOfNamed(input, pos + 1, d);
      UnitOfEscape(input, pos);
    case Pair(high, low) =>
      AtConcat(input, pos, [BACKSLASH], [LOWER_U] + (high + [BACKSLASH, LOWER_U] + low));
      AtByte(input, pos, BACKSLASH);
      EscapeOfPair(input, pos + 1, high, low);
      UnitOfEscape(input, pos);
  }

  lemma UnitOfPlain(input: seq<Byte>, pos: nat)
    requires pos < |input| && 0x20 <= input[pos] < 0x80 && input[pos] != BACKSLASH
    ensures TakeUnit(input, pos) == Ok(([input[pos]], pos + 1))
  {
  }

  lemma EscapeOfLetter(input: seq<Byte>, pos: nat)
    requires LetterEscape(Current(input, pos)).Some?
    ensures TakeEscape(input, pos) == Ok((Utf8.Append(LetterEscape(Current(input, pos)).value), pos + 1))
  {
  }

  /** Every character that is taken is spelled as the grammar says. */
  lemma SpellingOfUnit(input: seq<Byte>, pos: nat) returns (c: Character)
    requires pos < |input| && input[pos] != QUOTE && TakeUnit(input, pos).Ok?
    ensures At(input, pos, c.Spelling())
    ensures TakeUnit(input, pos) == Ok((Utf8.Append(c.Scalar()), pos + |c.Spelling()|))
  {
    hide At;
    if input[pos] == BACKSLASH {
      c := SpellingOfEscape(input, pos);
    } else if input[pos] < 0x80 {
      c := Plain(input[pos]);
      AtByte(input, pos, input[pos]);
    } else {
      var (v, end) := Utf8.Decode(input, pos).value;
      Utf8.AppendOfDecode(input, pos);
      SequenceIsHigh(input, pos);
      c := Plain(v);
    }
  }

  lemma SpellingOfEscape(input: seq<Byte>, pos: nat) returns (c: Character)
    requires pos < |input| && input[pos] == BACKSLASH && TakeEscape(input, pos + 1).Ok?
    ensures At(input, pos, c.Spelling())
    ensures TakeEscape(input, pos + 1) == Ok((Utf8.Append(c.Scalar()), pos + |c.Spelling()|))
  {
    hide At, TakeCodePoint, HexNumber, LetterEscape;
    AtByte(input, pos, BACKSLASH);
    var letter := Current(input, pos + 1);
    EscapeIsTold(letter);
    if LetterEscape(letter).Some? {
      c := Letter(letter);
      AtByte(input, pos + 1, letter);
      AtConcat(input, pos, [BACKSLASH], [letter]);
      assert [BACKSLASH] + [letter] == [BACKSLASH, letter];
    } else {
      AtByte(input, pos + 1, LOWER_U);
      c := SpellingOfCodePoint(input, pos + 2);
      AtConcat(input, pos, [BACKSLASH], [LOWER_U]);
      AtConcat(input, pos, [BACKSLASH] + [LOWER_U], AfterU(c));
      assert [BACKSLASH] + [LOWER_U] + AfterU(c) == c.Spelling();
    }
  }

  /** What follows the first `\u` of an escape. */
  function AfterU(c: Spelled): seq<Byte>
    requires c.Named? || c.Pair?
  {
    if c.Named? then c.digits else c.high + [BACKSLASH, LOWER_U] + c.low
  }

  lemma SpellingOfCodePoint(input: seq<Byte>, pos: nat) returns (c: Character)
    requires TakeCodePoint(input, pos).Ok?
    ensures (c.Named? || c.Pair?) && At(input, pos, AfterU(c))
    ensures TakeCodePoint(input, pos) == Ok((c.Scalar(), pos + |AfterU(c)|))
  {
    hide At, Hex4;
    var d := TextOfHex(input, pos);
    if 0xD800 <= HexNumber(d) <= 0xDBFF {
      var low := TextOfHex(input, pos + 6);
      c := Pair(d, low);
      AtByte(input, pos + 4, BACKSLASH);
      AtByte(input, pos + 5, LOWER_U);
      AtConcat(input, pos + 4, [BACKSLASH], [LOWER_U]);
      assert [BACKSLASH] + [LOWER_U] == [BACKSLASH, LOWER_U];
      AtConcat(input, pos, d, [BACKSLASH, LOWER_U]);
      AtConcat(input, pos, d + [BACKSLASH, LOWER_U], low);
    } else {
      HexIsShort(d);
      c := Named(d);
    }
  }

  lemma HexIsShort(d: HexText)
    ensures HexNumber(d) < 0x10000
  {
    PlaceIsShort(d[0]);
    PlaceIsShort(d[1]);
    PlaceIsShort(d[2]);
    PlaceIsShort(d[3]);
  }

  lemma PlaceIsShort(c: Byte)
    requires IsHex(c)
    ensures HexPlace(c) < 0x10
  {
  }

  lemma {:induction false} BodyOfCharacters(input: seq<Byte>, pos: nat, start: nat, characters: seq<Character>)
    requires At(input, pos, Body(characters) + [QUOTE])
    ensures TakeBody(input, pos, start) == Ok((Meaning(characters), pos + |Body(characters)| + 1))
    decreases |characters|
  {
    hide TakeUnit, At, Spelled.Spelling;
    if characters == [] {
      AtByte(input, pos, QUOTE);
      assert Body(characters) + [QUOTE] == [QUOTE];
    } else {
      var c := characters[0];
      var rest := Body(characters[1..]) + [QUOTE];
      ConcatAssociative(c.Spelling(), Body(characters[1..]), [QUOTE]);
      AtConcat(input, pos, c.Spelling(), rest);
      UnitOfSpelling(input, pos, c);
      BodyOfCharacters(input, pos + |c.Spelling()|, start, characters[1..]);
    }
  }

  lemma {:induction false} CharactersOfBody(input: seq<Byte>, pos: nat, start: nat) returns (characters: seq<Character>)
    requires TakeBody(input, pos, start).Ok?
    ensures At(input, pos, Body(characters) + [QUOTE])
    ensures TakeBody(input, pos, start) == Ok((Meaning(characters), pos + |Body(characters)| + 1))
    decreases |input| - pos
  {
    hide TakeUnit, At, Spelled.Spelling;
    if input[pos] == QUOTE {
      characters := [];
      AtByte(input, pos, QUOTE);
      assert Body([]) + [QUOTE] == [QUOTE];
    } else {
      var c := SpellingOfUnit(input, pos);
      var rest := CharactersOfBody(input, pos + |c.Spelling()|, start);
      characters := [c] + rest;
      assert characters[1..] == rest;
      AtConcat(input, pos, c.Spelling(), Body(rest) + [QUOTE]);
      ConcatAssociative(c.Spelling(), Body(rest), [QUOTE]);
    }
  }

  function StringText(characters: seq<Character>): seq<Byte> {
    [QUOTE] + (Body(characters) + [QUOTE])
  }

  /**
   A string is parsed exactly where characters of the grammar are spelled between quotes, and as the text
   those characters stand for.
   */
  lemma ParsedExactlySpelled(input: seq<Byte>, pos: nat, text: seq<Byte>, end: nat)
    requires Current(input, pos) == QUOTE
    ensures ParseString(input, pos) == Ok((text, end))
       <==> exists characters :: At(input, pos, StringText(characters)) && Meaning(characters) == text
                                 && end == pos + |StringText(characters)|
  {
    hide At, TakeBody, Body;
    AtByte(input, pos, QUOTE);
    if ParseString(input, pos) == Ok((text, end)) {
      var characters := CharactersOfBody(input, pos + 1, pos);
      AtConcat(input, pos, [QUOTE], Body(characters) + [QUOTE]);
    }
    forall characters | At(input, pos, StringText(characters))
      ensures ParseString(input, pos) == Ok((Meaning(characters), pos + |StringText(characters)|))
    {
      ParseOfStringText(input, pos, characters);
    }
  }

  lemma ParseOfStringText(input: seq<Byte>, pos: nat, characters: seq<Character>)
    requires At(input, pos, StringText(characters))
    ensures ParseString(input, pos) == Ok((Meaning(characters), pos + |StringText(characters)|))
  {
    hide At, TakeBody;
    AtConcat(input, pos, [QUOTE], Body(characters) + [QUOTE]);
    BodyOfCharacters(input, pos + 1, pos, characters);
  }

  // Values (sections 2 to 6)

  type ValidNumber = n: Number | n.Valid() witness Number(false, [ZERO], None, None)

  datatype Syntax =
    | Nothing
    | Truth(flag: bool)
    | Numeral(number: ValidNumber)
    | String(characters: seq<Character>)
    | List(items: seq<Syntax>)
    | Record(members: seq<Member>)

  /** Names may repeat, as the grammar lets them. */
  datatype Member = Member(name: seq<Character>, value: Syntax)

  function StringToken(characters: seq<Character>): Token {
    StringText(characters)
  }

  function NameTokens(name: seq<Character>): seq<Token> {
    [StringToken(name), [COLON]]
  }

  function NumeralToken(n: ValidNumber): Token {
    NumberStarts(n);
    n.Text()
  }

  function SyntaxTokens(s: Syntax): seq<Token>
    decreases s, 1
  {
    match s
    case Nothing => [NULL_TEXT]
    case Truth(flag) => [if flag then TRUE_TEXT else FALSE_TEXT]
    case Numeral(n) => [NumeralToken(n)]
    case String(characters) => [StringToken(characters)]
    case List(items) => [[OPEN_BRACKET]] + ListTokens(items, true) + [[CLOSE_BRACKET]]
    case Record(members) => [[OPEN_BRACE]] + MemberTokens(members, true) + [[CLOSE_BRACE]]
  }

  function ListTokens(items: seq<Syntax>, first: bool): seq<Token>
    decreases items, 0
  {
    if items == [] then [] else Comma(first) + SyntaxTokens(items[0]) + ListTokens(items[1..], false)
  }

  function MemberTokens(members: seq<Member>, first: bool): seq<Token>
    decreases members, 0
  {
    if members == [] then []
    else
      Comma(first) + NameTokens(members[0].name) + SyntaxTokens(members[0].value)
      + MemberTokens(members[1..], false)
  }

  /** How deep containers nest. */
  function Nesting(s: Syntax): nat
    decreases s, 1
  {
    match s
    case List(items) => 1 + ListNesting(items)
    case Record(members) => 1 + MemberNesting(members)
    case _ => 0
  }

  function ListNesting(items: seq<Syntax>): nat
    decreases items, 0
  {
    if items == [] then 0 else Larger(Nesting(items[0]), ListNesting(items[1..]))
  }

  function MemberNesting(members: seq<Member>): nat
    decreases members, 0
  {
    if members == [] then 0 else Larger(Nesting(members[0].value), MemberNesting(members[1..]))
  }

  function Larger(a: nat, b: nat): nat {
    if a < b then b else a
  }

  lemma SyntaxStarts(s: Syntax)
    ensures SyntaxTokens(s) != []
    ensures SyntaxTokens(s)[0][0] != CLOSE_BRACKET && SyntaxTokens(s)[0][0] != CLOSE_BRACE
  {
    match s
    case Numeral(n) => NumberStarts(n);
    case List(items) => assert SyntaxTokens(s)[0] == [OPEN_BRACKET];
    case Record(members) => assert SyntaxTokens(s)[0] == [OPEN_BRACE];
    case _ =>
  }

  // Every text of the grammar is skipped

  lemma SkipOfLiteral(input: Text, pos: nat, depth: nat, max: nat, literal: seq<Byte>)
    requires literal == NULL_TEXT || literal == TRUE_TEXT || literal == FALSE_TEXT
    requires At(input, SkipSpace(input, pos), literal)
    ensures SkipAt(input, pos, depth, max) == Ok(SkipSpace(input, pos) + |literal|)
  {
    hide SkipSpace, ScanNumber, ParseString;
    SkipTwice(input, pos);
    LiteralStarts(input, SkipSpace(input, pos), literal);
  }

  lemma SkipOfNumber(input: Text, pos: nat, depth: nat, max: nat, n: ValidNumber)
    requires NumberAt(input, SkipSpace(input, pos)) == Ok((n, SkipSpace(input, pos) + |n.Text()|))
    ensures SkipAt(input, pos, depth, max) == Ok(SkipSpace(input, pos) + |n.Text()|)
  {
    hide SkipSpace, ScanNumber, Number.Text, ParseString;
    SkipTwice(input, pos);
    NumberIsPeeked(input, SkipSpace(input, pos));
  }

  lemma SkipOfString(input: Text, pos: nat, depth: nat, max: nat, characters: seq<Character>)
    requires At(input, SkipSpace(input, pos), StringText(characters))
    ensures SkipAt(input, pos, depth, max) == Ok(SkipSpace(input, pos) + |StringText(characters)|)
  {
    hide SkipSpace, ScanNumber, ParseString;
    SkipTwice(input, pos);
    assert input[SkipSpace(input, pos) + 0] == StringText(characters)[0];
    ParseOfStringText(input, SkipSpace(input, pos), characters);
  }

  lemma SkipOfContainer(input: Text, pos: nat, depth: nat, max: nat, opening: Byte, start: nat)
    requires opening == OPEN_BRACKET || opening == OPEN_BRACE
    requires EnterAt(input, pos, opening, depth, max) == Ok(start)
    ensures SkipAt(input, pos, depth, max)
         == if opening == OPEN_BRACKET then SkipItems(input, start, depth + 1, max, true)
            else SkipEntries(input, start, depth + 1, max, true)
  {
    hide SkipSpace, ScanNumber, ParseString, SkipItems, SkipEntries;
    SkipTwice(input, pos);
  }

  /** A text of the grammar that nests no deeper than the limit is skipped, and no further. */
  lemma {:induction false} SkipOfSyntax(input: Text, pos: nat, s: Syntax, depth: nat, max: nat, end: nat)
    requires depth + Nesting(s) <= max
    requires LaidEnd(input, pos, SyntaxTokens(s)) == Some(end)
    requires EndsNumber(Current(input, end))
    ensures SkipAt(input, pos, depth, max) == Ok(end)
    decreases s, 1
  {
    hide SkipAt, EnterAt, At, SkipSpace, Number.Text, StringText;
    match s
    case Nothing =>
      LaidOne(input, pos, NULL_TEXT);
      SkipOfLiteral(input, pos, depth, max, NULL_TEXT);
    case Truth(flag) =>
      LaidOne(input, pos, if flag then TRUE_TEXT else FALSE_TEXT);
      SkipOfLiteral(input, pos, depth, max, if flag then TRUE_TEXT else FALSE_TEXT);
    case Numeral(n) =>
      LaidOne(input, pos, NumeralToken(n));
      ScanOfText(input, SkipSpace(input, pos), n);
      SkipOfNumber(input, pos, depth, max, n);
    case String(characters) =>
      LaidOne(input, pos, StringToken(characters));
      SkipOfString(input, pos, depth, max, characters);
    case List(items) =>
      var start := InnerOfLaid(input, pos, [OPEN_BRACKET], ListTokens(items, true), [CLOSE_BRACKET], depth, max);
      SkipOfContainer(input, pos, depth, max, OPEN_BRACKET, start);
      SkipOfList(input, start, items, true, depth + 1, max, end);
    case Record(members) =>
      var start := InnerOfLaid(input, pos, [OPEN_BRACE], MemberTokens(members, true), [CLOSE_BRACE], depth, max);
      SkipOfContainer(input, pos, depth, max, OPEN_BRACE, start);
      SkipOfMembers(input, start, members, true, depth + 1, max, end);
  }

  /** Behind an item stands a comma or the closing bracket, so a number ends there. */
  lemma EndsBeforeRest(input: seq<Byte>, pos: nat, more: bool, rest: seq<Token>, closing: Token)
    requires LaidEnd(input, pos, rest + [closing]).Some?
    requires closing == [CLOSE_BRACKET] || closing == [CLOSE_BRACE]
    requires if more then rest != [] && rest[0] == [COMMA] else rest == []
    ensures EndsNumber(Current(input, pos))
  {
    EndsBefore(input, pos, rest + [closing]);
  }

  lemma Regroup<T>(a: seq<T>, b: seq<T>, c: seq<T>, d: seq<T>)
    ensures a + b + c + d == a + (b + (c + d))
  {
  }

  /** The first item, what is left, and the closing bracket. */
  lemma ListInParts(items: seq<Syntax>, first: bool)
    requires items != []
    ensures ListTokens(items, first) + [[CLOSE_BRACKET]]
         == Comma(first) + (SyntaxTokens(items[0]) + (ListTokens(items[1..], false) + [[CLOSE_BRACKET]]))
  {
    hide SyntaxTokens, Comma;
    var item, rest := SyntaxTokens(items[0]), ListTokens(items[1..], false);
    assert ListTokens(items, first) == Comma(first) + item + rest;
    Regroup(Comma(first), item, rest, [[CLOSE_BRACKET]]);
  }

  lemma FirstOfList(input: Text, pos: nat, items: seq<Syntax>, first: bool, end: nat) returns (start: nat, middle: nat)
    requires items != [] && LaidEnd(input, pos, ListTokens(items, first) + [[CLOSE_BRACKET]]) == Some(end)
    ensures Advance(input, pos, first, CLOSE_BRACKET) == Ok((true, start))
    ensures LaidEnd(input, start, SyntaxTokens(items[0])) == Some(middle) && EndsNumber(Current(input, middle))
    ensures LaidEnd(input, middle, ListTokens(items[1..], false) + [[CLOSE_BRACKET]]) == Some(end)
  {
    hide Advance, LaidEnd, SkipSpace, At;
    var rest := ListTokens(items[1..], false);
    var tokens := SyntaxTokens(items[0]) + (rest + [[CLOSE_BRACKET]]);
    ListInParts(items, first);
    SyntaxStarts(items[0]);
    start := AdvanceToItem(input, pos, first, CLOSE_BRACKET, tokens);
    LaidConcat(input, start, SyntaxTokens(items[0]), rest + [[CLOSE_BRACKET]]);
    middle := LaidEnd(input, start, SyntaxTokens(items[0])).value;
    EndsBeforeRest(input, middle, items[1..] != [], rest, [CLOSE_BRACKET]);
  }

  lemma {:induction false} SkipOfList(input: Text, pos: nat, items: seq<Syntax>, first: bool, depth: nat, max: nat,
                                      end: nat)
    requires depth + ListNesting(items) <= max
    requires LaidEnd(input, pos, ListTokens(items, first) + [[CLOSE_BRACKET]]) == Some(end)
    ensures SkipItems(input, pos, depth, max, first) == Ok(end)
    decreases items, 0
  {
    hide Advance, EndAt, LaidEnd, SkipSpace, At;
    if items == [] {
      assert ListTokens(items, first) + [[CLOSE_BRACKET]] == [[CLOSE_BRACKET]];
      AdvanceToClose(input, pos, first, CLOSE_BRACKET, end);
    } else {
      var start, middle := FirstOfList(input, pos, items, first, end);
      SkipOfSyntax(input, start, items[0], depth, max, middle);
      SkipOfList(input, middle, items[1..], false, depth, max, end);
    }
  }

  lemma KeyOfString(input: Text, pos: nat, first: bool, name: seq<Character>, rest: seq<Token>) returns (start: nat)
    requires LaidEnd(input, pos, Comma(first) + NameTokens(name) + rest).Some?
    ensures KeyAt(input, pos, first) == Ok((Some(Meaning(name)), start))
    ensures LaidEnd(input, start, rest) == LaidEnd(input, pos, Comma(first) + NameTokens(name) + rest)
  {
    hide LaidEnd, At, SkipSpace, ParseString;
    var tokens := NameTokens(name) + rest;
    assert Comma(first) + NameTokens(name) + rest == Comma(first) + tokens;
    var quote := AdvanceToItem(input, pos, first, CLOSE_BRACE, tokens);
    LaidStart(input, quote, tokens);
    ParseOfStringText(input, quote, name);
    var colon: seq<Token> := [[COLON]] + rest;
    assert tokens[1..] == colon;
    LaidStart(input, quote + |StringText(name)|, colon);
    assert colon[1..] == rest;
    start := SkipSpace(input, quote + |StringText(name)|) + 1;
  }

  /** The first member, what is left, and the closing brace. */
  lemma MembersInParts(members: seq<Member>, first: bool)
    requires members != []
    ensures MemberTokens(members, first) + [[CLOSE_BRACE]]
         == Comma(first) + NameTokens(members[0].name)
            + (SyntaxTokens(members[0].value) + (MemberTokens(members[1..], false) + [[CLOSE_BRACE]]))
  {
    hide SyntaxTokens, NameTokens, Comma;
    var head := Comma(first) + NameTokens(members[0].name);
    var value := SyntaxTokens(members[0].value);
    var rest := MemberTokens(members[1..], false);
    assert MemberTokens(members, first) == head + value + rest;
    Regroup(head, value, rest, [[CLOSE_BRACE]]);
  }

  lemma FirstOfMembers(input: Text, pos: nat, members: seq<Member>, first: bool, end: nat)
      returns (start: nat, middle: nat)
    requires members != []
    requires LaidEnd(input, pos, MemberTokens(members, first) + [[CLOSE_BRACE]]) == Some(end)
    ensures KeyAt(input, pos, first) == Ok((Some(Meaning(members[0].name)), start))
    ensures LaidEnd(input, start, SyntaxTokens(members[0].value)) == Some(middle) && EndsNumber(Current(input, middle))
    ensures LaidEnd(input, middle, MemberTokens(members[1..], false) + [[CLOSE_BRACE]]) == Some(end)
  {
    hide KeyAt, LaidEnd, SkipSpace, At;
    var value := SyntaxTokens(members[0].value);
    var rest := MemberTokens(members[1..], false);
    MembersInParts(members, first);
    start := KeyOfString(input, pos, first, members[0].name, value + (rest + [[CLOSE_BRACE]]));
    LaidConcat(input, start, value, rest + [[CLOSE_BRACE]]);
    middle := LaidEnd(input, start, value).value;
    EndsBeforeRest(input, middle, members[1..] != [], rest, [CLOSE_BRACE]);
  }

  lemma {:induction false} SkipOfMembers(input: Text, pos: nat, members: seq<Member>, first: bool, depth: nat,
                                         max: nat, end: nat)
    requires depth + MemberNesting(members) <= max
    requires LaidEnd(input, pos, MemberTokens(members, first) + [[CLOSE_BRACE]]) == Some(end)
    ensures SkipEntries(input, pos, depth, max, first) == Ok(end)
    decreases members, 0
  {
    hide KeyAt, EndAt, LaidEnd, SkipSpace, At;
    if members == [] {
      assert MemberTokens(members, first) + [[CLOSE_BRACE]] == [[CLOSE_BRACE]];
      NoMoreKeys(input, pos, first, end);
    } else {
      var start, middle := FirstOfMembers(input, pos, members, first, end);
      SkipOfSyntax(input, start, members[0].value, depth, max, middle);
      SkipOfMembers(input, middle, members[1..], false, depth, max, end);
    }
  }

  // Whatever is skipped is a text of the grammar

  /** What is laid out behind the spaces is laid out before them. */
  lemma LaidBehindSpaces(input: seq<Byte>, pos: nat, tokens: seq<Token>)
    requires tokens != []
    ensures LaidEnd(input, SkipSpace(input, pos), tokens) == LaidEnd(input, pos, tokens)
  {
    SkipTwice(input, pos);
  }

  lemma LaidFirst(input: seq<Byte>, pos: nat, token: Token, tokens: seq<Token>)
    requires At(input, SkipSpace(input, pos), token)
    ensures LaidEnd(input, pos, [token] + tokens) == LaidEnd(input, SkipSpace(input, pos) + |token|, tokens)
  {
    assert ([token] + tokens)[1..] == tokens;
  }

  /** Past the comma, before an item that starts at `start`. */
  lemma LaidAdvanced(input: seq<Byte>, pos: nat, first: bool, closing: Byte, start: nat, tokens: seq<Token>)
    requires Advance(input, pos, first, closing) == Ok((true, start)) && closing != 0 && tokens != []
    ensures LaidEnd(input, pos, Comma(first) + tokens) == LaidEnd(input, start, tokens)
  {
    hide SkipSpace, At;
    if first {
      assert Comma(first) + tokens == tokens;
      LaidBehindSpaces(input, pos, tokens);
    } else {
      var comma := SkipSpace(input, pos);
      AtByte(input, comma, COMMA);
      LaidFirst(input, pos, [COMMA], tokens);
      LaidBehindSpaces(input, comma + 1, tokens);
    }
  }

  lemma LaidClose(input: seq<Byte>, pos: nat, closing: Byte, end: nat)
    requires closing == CLOSE_BRACKET || closing == CLOSE_BRACE
    requires EndAt(input, SkipSpace(input, pos), closing) == Ok(end)
    ensures LaidEnd(input, pos, [[closing]]) == Some(end)
  {
    hide SkipSpace;
    SkipTwice(input, pos);
    AtByte(input, SkipSpace(input, pos), closing);
    LaidOne(input, pos, [closing]);
  }

  lemma KeyIsLaid(input: Text, pos: nat, first: bool, quote: nat, name: seq<Character>, start: nat, tokens: seq<Token>)
    requires Advance(input, pos, first, CLOSE_BRACE) == Ok((true, quote)) && At(input, quote, StringText(name))
    requires var colon := SkipSpace(input, quote + |StringText(name)|);
             Current(input, colon) == COLON && start == colon + 1
    ensures LaidEnd(input, pos, Comma(first) + NameTokens(name) + tokens) == LaidEnd(input, start, tokens)
  {
    hide SkipSpace, At, Advance, StringText, LaidEnd;
    var end := quote + |StringText(name)|;
    var behind: seq<Token> := [[COLON]] + tokens;
    var all := [StringToken(name)] + behind;
    AtByte(input, SkipSpace(input, end), COLON);
    LaidAdvanced(input, pos, first, CLOSE_BRACE, quote, all);
    assert Comma(first) + all == Comma(first) + NameTokens(name) + tokens;
    AdvancedPastSpaces(input, pos, first, CLOSE_BRACE, quote);
    LaidFirst(input, quote, StringToken(name), behind);
    LaidFirst(input, end, [COLON], tokens);
  }

  lemma StringOfKey(input: Text, pos: nat, first: bool, key: Text, start: nat) returns (name: seq<Character>)
    requires KeyAt(input, pos, first) == Ok((Some(key), start))
    ensures Meaning(name) == key
    ensures forall tokens: seq<Token> ::
              LaidEnd(input, pos, Comma(first) + NameTokens(name) + tokens) == LaidEnd(input, start, tokens)
  {
    hide SkipSpace, At, ParseString, LaidEnd, StringText, NameTokens, Comma, Advance;
    var quote := Advance(input, pos, first, CLOSE_BRACE).value.1;
    var end := ParseString(input, quote).value.1;
    ParsedExactlySpelled(input, quote, key, end);
    name :| At(input, quote, StringText(name)) && Meaning(name) == key && end == quote + |StringText(name)|;
    forall tokens: seq<Token>
      ensures LaidEnd(input, pos, Comma(first) + NameTokens(name) + tokens) == LaidEnd(input, start, tokens)
    {
      KeyIsLaid(input, pos, first, quote, name, start, tokens);
    }
  }

  lemma AdvancedPastSpaces(input: seq<Byte>, pos: nat, first: bool, closing: Byte, start: nat)
    requires Advance(input, pos, first, closing) == Ok((true, start))
    ensures SkipSpace(input, start) == start
  {
    hide SkipSpace;
    SkipTwice(input, pos);
    SkipTwice(input, SkipSpace(input, pos) + 1);
  }

  /** A scalar that is skipped. */
  lemma ScalarOfSkip(input: Text, pos: nat, depth: nat, max: nat) returns (s: Syntax)
    requires SkipAt(input, pos, depth, max).Ok?
    requires var c := Current(input, SkipSpace(input, pos)); c != OPEN_BRACKET && c != OPEN_BRACE
    ensures Nesting(s) == 0
    ensures LaidEnd(input, pos, SyntaxTokens(s)) == Some(SkipAt(input, pos, depth, max).value)
  {
    hide SkipSpace, ScanNumber, ParseString, LaidEnd, Number.Text, At, StringText;
    SkipTwice(input, pos);
    var start := SkipSpace(input, pos);
    var c := Current(input, start);
    if c == NULL_TEXT[0] {
      s := Nothing;
      LaidOne(input, pos, NULL_TEXT);
    } else if c == TRUE_TEXT[0] {
      s := Truth(true);
      LaidOne(input, pos, TRUE_TEXT);
    } else if c == FALSE_TEXT[0] {
      s := Truth(false);
      LaidOne(input, pos, FALSE_TEXT);
    } else if c == QUOTE {
      var (text, end) := ParseString(input, start).value;
      ParsedExactlySpelled(input, start, text, end);
      var characters :| At(input, start, StringText(characters)) && Meaning(characters) == text
                        && end == start + |StringText(characters)|;
      s := String(characters);
      LaidOne(input, pos, StringToken(characters));
    } else {
      var n := ScanNumber(input, start).value;
      TextOfScan(input, start);
      s := Numeral(n);
      LaidOne(input, pos, NumeralToken(n));
    }
  }

  lemma BracketsAreLaid(input: Text, pos: nat, opening: Byte, depth: nat, max: nat, body: seq<Token>, closing: Token)
    requires opening == OPEN_BRACKET || opening == OPEN_BRACE
    requires EnterAt(input, pos, opening, depth, max).Ok?
    ensures LaidEnd(input, pos, [[opening]] + body + [closing])
         == LaidEnd(input, EnterAt(input, pos, opening, depth, max).value, body + [closing])
  {
    hide SkipSpace, LaidEnd, At;
    AtByte(input, SkipSpace(input, pos), opening);
    LaidFirst(input, pos, [opening], body + [closing]);
    ConcatAssociative([[opening]], body, [closing]);
  }

  /** Whatever is skipped is a text of the grammar that nests no deeper than the limit. */
  lemma {:induction false} SyntaxOfSkip(input: Text, pos: nat, depth: nat, max: nat) returns (s: Syntax)
    requires SkipAt(input, pos, depth, max).Ok? && depth <= max
    ensures depth + Nesting(s) <= max
    ensures LaidEnd(input, pos, SyntaxTokens(s)) == Some(SkipAt(input, pos, depth, max).value)
    decreases |input| - pos, 0
  {
    hide SkipAt, SkipItems, SkipEntries, SkipSpace, LaidEnd, At;
    var start := SkipSpace(input, pos);
    var opening := Current(input, start);
    if opening == OPEN_BRACKET || opening == OPEN_BRACE {
      ContainerIsEntered(input, pos, depth, max, opening);
      SkipOfContainer(input, pos, depth, max, opening, start + 1);
      if opening == OPEN_BRACKET {
        var items := ListOfSkip(input, start + 1, depth + 1, max, true);
        s := List(items);
        BracketsAreLaid(input, pos, OPEN_BRACKET, depth, max, ListTokens(items, true), [CLOSE_BRACKET]);
      } else {
        var members := MembersOfSkip(input, start + 1, depth + 1, max, true);
        s := Record(members);
        BracketsAreLaid(input, pos, OPEN_BRACE, depth, max, MemberTokens(members, true), [CLOSE_BRACE]);
      }
    } else {
      s := ScalarOfSkip(input, pos, depth, max);
    }
  }

  lemma ContainerIsEntered(input: Text, pos: nat, depth: nat, max: nat, opening: Byte)
    requires opening == OPEN_BRACKET || opening == OPEN_BRACE
    requires SkipAt(input, pos, depth, max).Ok? && Current(input, SkipSpace(input, pos)) == opening
    ensures EnterAt(input, pos, opening, depth, max) == Ok(SkipSpace(input, pos) + 1)
    ensures depth < max && SkipSpace(input, pos) < |input|
  {
    hide SkipSpace, ScanNumber, ParseString, SkipItems, SkipEntries;
    SkipTwice(input, pos);
  }

  lemma ListIsLaid(input: Text, pos: nat, first: bool, start: nat, items: seq<Syntax>, middle: nat)
    requires items != [] && Advance(input, pos, first, CLOSE_BRACKET) == Ok((true, start))
    requires LaidEnd(input, start, SyntaxTokens(items[0])) == Some(middle)
    ensures LaidEnd(input, pos, ListTokens(items, first) + [[CLOSE_BRACKET]])
         == LaidEnd(input, middle, ListTokens(items[1..], false) + [[CLOSE_BRACKET]])
  {
    hide SkipSpace, LaidEnd, Advance, SyntaxTokens, ListTokens, Comma;
    var item := SyntaxTokens(items[0]);
    var behind := ListTokens(items[1..], false) + [[CLOSE_BRACKET]];
    LaidConcat(input, start, item, behind);
    SyntaxStarts(items[0]);
    LaidAdvanced(input, pos, first, CLOSE_BRACKET, start, item + behind);
    ListInParts(items, first);
  }

  lemma MembersAreLaid(input: Text, pos: nat, first: bool, start: nat, members: seq<Member>, middle: nat)
    requires members != []
    requires forall tokens: seq<Token> ::
               LaidEnd(input, pos, Comma(first) + NameTokens(members[0].name) + tokens) == LaidEnd(input, start, tokens)
    requires LaidEnd(input, start, SyntaxTokens(members[0].value)) == Some(middle)
    ensures LaidEnd(input, pos, MemberTokens(members, first) + [[CLOSE_BRACE]])
         == LaidEnd(input, middle, MemberTokens(members[1..], false) + [[CLOSE_BRACE]])
  {
    hide LaidEnd, SyntaxTokens;
    LaidConcat(input, start, SyntaxTokens(members[0].value), MemberTokens(members[1..], false) + [[CLOSE_BRACE]]);
    MembersInParts(members, first);
  }

  lemma {:induction false} ListOfSkip(input: Text, pos: nat, depth: nat, max: nat, first: bool)
      returns (items: seq<Syntax>)
    requires SkipItems(input, pos, depth, max, first).Ok? && depth <= max
    ensures depth + ListNesting(items) <= max
    ensures LaidEnd(input, pos, ListTokens(items, first) + [[CLOSE_BRACKET]])
         == Some(SkipItems(input, pos, depth, max, first).value)
    decreases |input| - pos, 1
  {
    hide SkipAt, SkipSpace, LaidEnd, EndAt;
    var (more, start) := Advance(input, pos, first, CLOSE_BRACKET).value;
    if !more {
      items := [];
      LaidClose(input, pos, CLOSE_BRACKET, SkipItems(input, pos, depth, max, first).value);
      assert ListTokens([], first) + [[CLOSE_BRACKET]] == [[CLOSE_BRACKET]];
    } else {
      var item := SyntaxOfSkip(input, start, depth, max);
      var next := SkipAt(input, start, depth, max).value;
      var rest := ListOfSkip(input, next, depth, max, false);
      items := [item] + rest;
      assert items[1..] == rest;
      ListIsLaid(input, pos, first, start, items, next);
    }
  }

  lemma {:induction false} MembersOfSkip(input: Text, pos: nat, depth: nat, max: nat, first: bool)
      returns (members: seq<Member>)
    requires SkipEntries(input, pos, depth, max, first).Ok? && depth <= max
    ensures depth + MemberNesting(members) <= max
    ensures LaidEnd(input, pos, MemberTokens(members, first) + [[CLOSE_BRACE]])
         == Some(SkipEntries(input, pos, depth, max, first).value)
    decreases |input| - pos, 1
  {
    hide SkipAt, SkipSpace, LaidEnd, EndAt, KeyAt;
    var (key, start) := KeyAt(input, pos, first).value;
    if key.None? {
      members := [];
      NoKeyBehindSpaces(input, pos, first, start);
      LaidClose(input, pos, CLOSE_BRACE, SkipEntries(input, pos, depth, max, first).value);
      assert MemberTokens([], first) + [[CLOSE_BRACE]] == [[CLOSE_BRACE]];
    } else {
      var name := StringOfKey(input, pos, first, key.value, start);
      var value := SyntaxOfSkip(input, start, depth, max);
      var next := SkipAt(input, start, depth, max).value;
      var rest := MembersOfSkip(input, next, depth, max, false);
      members := [Member(name, value)] + rest;
      assert members[1..] == rest;
      MembersAreLaid(input, pos, first, start, members, next);
    }
  }

  lemma NoKeyBehindSpaces(input: Text, pos: nat, first: bool, start: nat)
    requires KeyAt(input, pos, first) == Ok((None, start))
    ensures start == SkipSpace(input, pos)
  {
    hide SkipSpace, ParseString;
  }

  // Texts

  /** A JSON text: spaces, a value that nests no deeper than `max`, and spaces. */
  ghost predicate IsJsonText(input: Text, max: nat) {
    exists s: Syntax :: Nesting(s) <= max && LaidThrough(input, 0, SyntaxTokens(s))
  }

  predicate Skips(input: Text, max: nat) {
    var r := SkipAt(input, 0, 0, max);
    r.Ok? && R.Finished(input, r.value) == Ok(())
  }

  lemma SpacesAreSkipped(input: seq<Byte>, pos: nat)
    requires pos <= |input|
    ensures R.Finished(input, pos) == Ok(()) <==> SpacesFrom(input, pos)
    ensures SpacesFrom(input, pos) ==> EndsNumber(Current(input, pos))
    decreases |input| - pos
  {
    if pos < |input| {
      SpacesAreSkipped(input, pos + 1);
    }
  }

  /**
   Skipping a value and finding nothing behind it succeeds exactly on the texts of the grammar of RFC 8259
   whose strings are UTF-8 without lone surrogates and whose containers nest no deeper than the limit.
   */
  lemma SkipsExactlyJsonTexts(input: Text, max: nat)
    ensures Skips(input, max) <==> IsJsonText(input, max)
  {
    hide SkipAt, LaidEnd;
    if Skips(input, max) {
      var s := SyntaxOfSkip(input, 0, 0, max);
      SpacesAreSkipped(input, SkipAt(input, 0, 0, max).value);
      assert LaidThrough(input, 0, SyntaxTokens(s));
    }
    if IsJsonText(input, max) {
      var s: Syntax :| Nesting(s) <= max && LaidThrough(input, 0, SyntaxTokens(s));
      var end := LaidEnd(input, 0, SyntaxTokens(s)).value;
      SpacesAreSkipped(input, end);
      SkipOfSyntax(input, 0, s, 0, max, end);
    }
  }
}
