/**
 Preprocessed source as it is printed: blanks, comments, directives, names, numbers, literals and operators one
 behind the other. What is printed without running together is lexed back to exactly what was printed. The
 definitions share nothing with the lexer but the file that a directive names.
 */
module MetadataPrinting {
  import opened Bytes
  import opened AttributeGrammar
  import opened MetadataLexer
  import opened MetadataTokens

  // Elements

  datatype Character = Plain(c: char) | Behind(c: char)

  datatype Element =
    | White(c: char)
    | Block(body: string)
    | Slashes(body: string)
    | LineIs(blanks: string, said: string, ended: bool)
    | PragmaIs(blanks: string, said: string, ended: bool)
    | Name(word: string)
    | Number(digits: string)
    | Text(prefix: string, delimiter: char, characters: seq<Character>)
    | Raw(prefix: string, mark: string, body: string)
    | Sign(spelling: string)

  const PREFIXES := {"", "u8", "u", "U", "L"}
  const RAW_PREFIXES := {"R", "u8R", "uR", "UR", "LR"}
  const OPERATORS := {"::", "->", "&&", "||", "==", "!=", "<=", ">=", "<<", ">>", "++", "--"}

  predicate IsBlank(c: char) {
    c == ' ' || c == '\t' || c == '\n' || c == 11 as char || c == 12 as char || c == '\r'
  }

  predicate InNumber(c: char) {
    '0' <= c <= '9'
  }

  predicate InName(c: char) {
    InNumber(c) || 'a' <= c <= 'z' || 'A' <= c <= 'Z' || c == '_' || c as nat >= 0x80
  }

  function Behinds(characters: seq<Character>): string {
    if characters == [] then ""
    else (match characters[0] case Plain(c) => [c] case Behind(c) => ['\\', c]) + Behinds(characters[1..])
  }

  function Spelled(e: Element): string {
    match e
    case White(c) => [c]
    case Block(body) => "/*" + (body + "*/")
    case Slashes(body) => "//" + body
    case LineIs(blanks, said, ended) => "#" + (blanks + ("line" + said)) + Ending(ended)
    case PragmaIs(blanks, said, ended) => "#" + (blanks + ("pragma" + said)) + Ending(ended)
    case Name(word) => word
    case Number(digits) => digits
    case Text(prefix, delimiter, characters) => prefix + ([delimiter] + Behinds(characters) + [delimiter])
    case Raw(prefix, mark, body) => prefix + ("R\"" + mark + "(" + body + (")" + mark + "\""))
    case Sign(spelling) => spelling
  }

  /** Only the last line may lack its end. */
  function Ending(ended: bool): string {
    if ended then "\n" else ""
  }

  function Printed(es: seq<Element>): string {
    if es == [] then "" else Spelled(es[0]) + Printed(es[1..])
  }

  /** Between here and its end the body holds no part of what ends it. */
  predicate EndsOnlyAtEnd(body: string, closing: string) {
    forall k :: 0 <= k < |body| ==> !StartsAt(body + closing, k, closing)
  }

  predicate IsRest(blanks: string, said: string) {
    && (forall c :: c in blanks ==> IsBlank(c) && c != '\n') && '\n' !in said
    && (said != "" ==> IsBlank(said[0]))
  }

  predicate IsElement(e: Element, lineOf: LineReader) {
    match e
    case White(c) => IsBlank(c)
    case Block(body) => EndsOnlyAtEnd(body, "*/")
    case Slashes(body) => '\n' !in body
    case LineIs(blanks, said, _) => IsRest(blanks, said) && lineOf(said).Some?
    case PragmaIs(blanks, said, _) => IsRest(blanks, said)
    case Name(word) => word != "" && !InNumber(word[0]) && forall c :: c in word ==> InName(c)
    case Number(digits) =>
      && digits != "" && InNumber(digits[0])
      && forall k :: 1 <= k < |digits| ==> GoesOn(digits[k - 1], digits[k])
    case Text(prefix, delimiter, characters) =>
      && prefix in PREFIXES && (delimiter == '"' || delimiter == '\'')
      && Plain(delimiter) !in characters && Plain('\\') !in characters
    case Raw(prefix, mark, body) =>
      prefix in PREFIXES && |mark| <= 16 && '(' !in mark && EndsOnlyAtEnd(body, ")" + mark + "\"")
    case Sign(spelling) =>
      || spelling in OPERATORS
      || (|spelling| == 1 && !IsBlank(spelling[0]) && !InName(spelling[0]) && spelling[0] != '"' && spelling[0] != '\'')
  }

  /** A number goes on with words, points, separators, and with signs behind the letter of an exponent. */
  predicate GoesOn(last: char, next: char) {
    InName(next) || next == '.' || next == '\'' || ((next == '+' || next == '-') && last in {'e', 'E', 'p', 'P'})
  }

  /** The element ends where the rest begins; `begins` tells whether it starts a line. */
  predicate StandsBefore(e: Element, rest: string, begins: bool) {
    match e
    case Slashes(_) => rest == "" || rest[0] == '\n'
    case LineIs(_, _, ended) => begins && (!ended ==> rest == "")
    case PragmaIs(_, _, ended) => begins && (!ended ==> rest == "")
    case Name(word) =>
      rest == "" || EndsName(word, rest[0])
    case Number(digits) => rest == "" || digits == "" || !GoesOn(digits[|digits| - 1], rest[0])
    case Sign(spelling) =>
      |spelling| == 1 ==> && (begins ==> spelling != "#")
                          && (rest == "" || (spelling + [rest[0]] !in OPERATORS && spelling + [rest[0]] !in {"//", "/*"}))
    case _ => true
  }

  /** Behind the name comes nothing that would go on with it, and no quote that it would be the prefix of. */
  predicate EndsName(word: string, next: char) {
    && !InName(next) && (next == '\'' ==> word !in PREFIXES)
    && (next == '"' ==> word !in PREFIXES && word !in RAW_PREFIXES)
  }

  predicate StartsLine(e: Element, begins: bool) {
    '\n' in Spelled(e) || ((e.White? || e.LineIs? || e.PragmaIs?) && begins)
  }

  /** The elements do not run together. */
  predicate AreApart(es: seq<Element>, begins: bool, lineOf: LineReader) {
    es == [] || (&& IsElement(es[0], lineOf) && StandsBefore(es[0], Printed(es[1..]), begins)
                 && AreApart(es[1..], StartsLine(es[0], begins), lineOf))
  }

  // What is to be found

  function KindOf(e: Element, lineOf: LineReader): PieceKind
    requires IsElement(e, lineOf)
  {
    match e
    case White(_) => Blank
    case Block(_) => Remark
    case Slashes(_) => Remark
    case LineIs(_, said, _) => var (number, file) := lineOf(said).value; LineChange(number, file)
    case PragmaIs(_, _, _) => Pragma
    case Name(word) => Lexeme(if word == "using" then Keyword else Identifier)
    case Number(_) => Lexeme(Literal)
    case Text(_, _, _) => Lexeme(Literal)
    case Raw(_, _, _) => Lexeme(Literal)
    case Sign(_) => Lexeme(Punctuation)
  }

  predicate AreElements(es: seq<Element>, lineOf: LineReader) {
    forall e :: e in es ==> IsElement(e, lineOf)
  }

  function PiecesOf(es: seq<Element>, at: nat, lineOf: LineReader): seq<Piece>
    requires AreElements(es, lineOf)
  {
    if es == [] then []
    else var end := at + |Spelled(es[0])|; [Piece(KindOf(es[0], lineOf), at, end)] + PiecesOf(es[1..], end, lineOf)
  }

  /** The tokens: names, numbers, literals and operators, spelled as they were printed. */
  function TokensFrom(es: seq<Element>, at: nat, lineOf: LineReader): seq<Token>
    requires AreElements(es, lineOf)
  {
    if es == [] then []
    else TokensOfOne(es[0], at, lineOf) + TokensFrom(es[1..], at + |Spelled(es[0])|, lineOf)
  }

  function TokensOfOne(e: Element, at: nat, lineOf: LineReader): seq<Token>
    requires IsElement(e, lineOf)
  {
    var kind := KindOf(e, lineOf);
    if kind.Lexeme? then [Token(kind.token, Spelled(e), at, at + |Spelled(e)|)] else []
  }

  /** The file that the last line directive names, or the one that was named before. */
  function FileFrom(es: seq<Element>, file: string, lineOf: LineReader): string
    requires AreElements(es, lineOf)
  {
    if es == [] then file
    else
      assert IsElement(es[0], lineOf);
      FileFrom(es[1..], if es[0].LineIs? then lineOf(es[0].said).value.1 else file, lineOf)
  }

  /** A whole file, with a byte order mark or without. */
  ghost predicate IsSheet(text: string, marked: bool, es: seq<Element>, lineOf: LineReader) {
    && text == Lead(marked) + Printed(es) && AreApart(es, true, lineOf)
    && (!marked ==> !StartsAt(text, 0, MARK))
  }

  function Lead(marked: bool): string {
    if marked then MARK else ""
  }

  function RowOf(marked: bool, es: seq<Element>, lineOf: LineReader): seq<Piece>
    requires AreElements(es, lineOf)
  {
    (if marked then [Piece(Mark, 0, 3)] else []) + PiecesOf(es, |Lead(marked)|, lineOf)
  }

  // One element

  predicate Stands(text: string, i: nat, e: Element, rest: string) {
    i <= |text| && text[i..] == Spelled(e) + rest
  }

  lemma {:induction false} ApartAreElements(es: seq<Element>, begins: bool, lineOf: LineReader)
    requires AreApart(es, begins, lineOf)
    ensures AreElements(es, lineOf)
  {
    if es != [] {
      ApartAreElements(es[1..], StartsLine(es[0], begins), lineOf);
    }
  }

  lemma SameCharacters(c: char)
    ensures IsSpace(c) == IsBlank(c) && IsWord(c) == InName(c)
  {
  }

  lemma SuffixAt(text: string, i: nat, s: string, k: nat)
    requires i <= |text| && text[i..] == s && k < |s|
    ensures i + k < |text| && text[i + k] == s[k]
  {
    assert text[i..][k] == text[i + k];
  }

  lemma SuffixBehind(text: string, i: nat, a: string, b: string)
    requires i <= |text| && text[i..] == a + b
    ensures i + |a| <= |text| && text[i..i + |a|] == a && text[i + |a|..] == b
  {
    assert text[i..i + |a|] == text[i..][..|a|];
    assert text[i + |a|..] == text[i..][|a|..];
  }

  /** A part starts at a place exactly when the text from there starts with it. */
  lemma StartsFrom(text: string, i: nat, s: string, part: string, k: nat)
    requires i <= |text| && text[i..] == s
    ensures StartsAt(text, i + k, part) <==> StartsAt(s, k, part)
  {
    if i + k + |part| <= |text| {
      SliceOfSuffix(text, i, k, |part|);
    }
  }

  lemma SliceOfSuffix(text: string, i: nat, k: nat, n: nat)
    requires i + k + n <= |text|
    ensures text[i + k..i + k + n] == text[i..][k..k + n]
  {
  }

  lemma WhiteIsPiece(text: string, i: nat, e: Element, rest: string, begins: bool, lineOf: LineReader)
    requires e.White? && Stands(text, i, e, rest) && IsElement(e, lineOf)
    ensures IsPiece(text, Piece(Blank, i, i + 1), begins, lineOf)
  {
    SuffixAt(text, i, Spelled(e) + rest, 0);
    SameCharacters(e.c);
  }

  /** What ends a body is first found behind it. */
  lemma FirstBehind(text: string, from: nat, body: string, closing: string, rest: string)
    requires closing != "" && from <= |text| && text[from..] == body + closing + rest && EndsOnlyAtEnd(body, closing)
    ensures IsFirst(text, closing, from, from + |body|)
  {
    var s := body + closing + rest;
    assert s[|body|..|body| + |closing|] == closing;
    StartsFrom(text, from, s, closing, |body|);
    forall k: nat | from <= k < from + |body|
      ensures !StartsAt(text, k, closing)
    {
      StartsFrom(text, from, s, closing, k - from);
      assert !StartsAt(body + closing, k - from, closing);
      assert s[k - from..k - from + |closing|] == (body + closing)[k - from..k - from + |closing|];
    }
  }

  lemma StartsWithFirst(text: string, part: string)
    requires part != ""
    ensures StartsAt(text, 0, part) ==> text != "" && text[0] == part[0]
  {
    if StartsAt(text, 0, part) {
      assert text[0] == text[0..|part|][0];
    }
  }

  lemma RemarkIsPiece(text: string, p: Piece, begins: bool, lineOf: LineReader)
    requires p.begin < p.end <= |text| && text[p.begin] == '/' && IsCommentAt(text, p)
    requires StartsAt(text, p.begin, "//") || StartsAt(text, p.begin, "/*")
    ensures IsPiece(text, p, begins, lineOf)
  {
    hide IsLexemeAt, IsDirective, IsCommentAt, StartsAt;
    StartsWithFirst(text, MARK);
  }

  lemma BlockIsPiece(text: string, i: nat, e: Element, rest: string, begins: bool, lineOf: LineReader)
    requires e.Block? && Stands(text, i, e, rest) && IsElement(e, lineOf)
    ensures IsPiece(text, Piece(Remark, i, i + |Spelled(e)|), begins, lineOf)
  {
    hide IsPiece, IsFirst, StartsAt, EndsOnlyAtEnd;
    assert Spelled(e) + rest == "/*" + (e.body + "*/" + rest);
    BlockStands(text, i, e.body, rest);
    RemarkIsPiece(text, Piece(Remark, i, i + |Spelled(e)|), begins, lineOf);
  }

  lemma BlockStands(text: string, i: nat, body: string, rest: string)
    requires i <= |text| && text[i..] == "/*" + (body + "*/" + rest) && EndsOnlyAtEnd(body, "*/")
    ensures i + 4 + |body| <= |text| && text[i] == '/' && StartsAt(text, i, "/*") && !StartsAt(text, i, "//")
    ensures IsFirst(text, "*/", i + 2, i + 2 + |body|)
  {
    hide IsFirst, EndsOnlyAtEnd;
    SuffixBehind(text, i, "/*", body + "*/" + rest);
    FirstBehind(text, i + 2, body, "*/", rest);
    SuffixAt(text, i, "/*" + (body + "*/" + rest), 0);
    assert text[i..i + 2][1] == '*';
  }

  lemma SlashesArePiece(text: string, i: nat, e: Element, rest: string, begins: bool, lineOf: LineReader)
    requires e.Slashes? && Stands(text, i, e, rest) && IsElement(e, lineOf) && StandsBefore(e, rest, begins)
    ensures IsPiece(text, Piece(Remark, i, i + |Spelled(e)|), begins, lineOf)
  {
    hide IsFirst, IsLineEnd;
    SuffixBehind(text, i, "//" + e.body, rest);
    LineEndAt(text, i, "//" + e.body, rest);
    assert "//" + e.body + rest == "//" + (e.body + rest);
    SuffixBehind(text, i, "//", e.body + rest);
    SuffixAt(text, i, "//" + (e.body + rest), 0);
    RemarkIsPiece(text, Piece(Remark, i, i + |Spelled(e)|), begins, lineOf);
  }

  lemma LineEndAt(text: string, i: nat, line: string, rest: string)
    requires i <= |text| && text[i..] == line + rest && '\n' !in line && (rest != "" ==> rest[0] == '\n')
    ensures IsLineEnd(text, i, i + |line|)
  {
    forall k | i <= k < i + |line|
      ensures text[k] != '\n'
    {
      SuffixAt(text, i, line + rest, k - i);
    }
    if rest != "" {
      SuffixAt(text, i, line + rest, |line|);
    }
  }

  lemma WordOfLine(blanks: string, key: string, said: string)
    requires IsRest(blanks, said) && key != "" && forall c :: c in key ==> !IsBlank(c)
    ensures var line := blanks + (key + said);
            && IsFirstWord(line, |blanks|, |blanks| + |key|)
            && line[|blanks|..|blanks| + |key|] == key && line[|blanks| + |key|..] == said
  {
    var line := blanks + (key + said);
    forall k | 0 <= k < |blanks|
      ensures IsSpace(line[k])
    {
      assert line[k] in blanks;
    }
    forall k | |blanks| <= k < |blanks| + |key|
      ensures !IsSpace(line[k])
    {
      assert line[k] in key;
    }
  }

  lemma DirectiveIsPiece(text: string, i: nat, blanks: string, key: string, said: string, rest: string,
                         ended: bool, kind: PieceKind, lineOf: LineReader)
    requires IsRest(blanks, said) && key != "" && forall c :: c in key ==> !IsBlank(c)
    requires i <= |text| && text[i..] == "#" + (blanks + (key + said)) + Ending(ended) + rest && (!ended ==> rest == "")
    requires if key == "line" then lineOf(said).Some? && kind == LineChange(lineOf(said).value.0, lineOf(said).value.1)
             else key == "pragma" && kind == Pragma
    ensures IsPiece(text, Piece(kind, i, i + 1 + |blanks| + |key| + |said| + |Ending(ended)|), true, lineOf)
  {
    hide IsLexemeAt, IsCommentAt, IsLineEnd, IsFirstWord, StartsAt, IsRest;
    var line := blanks + (key + said);
    var p := Piece(kind, i, i + 1 + |line| + |Ending(ended)|);
    WordOfLine(blanks, key, said);
    NoLineEnd(blanks, key, said);
    var stop := LineStands(text, i, line, ended, rest);
    assert IsDirectiveTo(text, p, stop, |blanks|, |blanks| + |key|, lineOf);
    StartsWithFirst(text, MARK);
  }

  lemma NoLineEnd(blanks: string, key: string, said: string)
    requires IsRest(blanks, said) && forall c :: c in key ==> !IsBlank(c)
    ensures '\n' !in blanks + (key + said)
  {
  }

  lemma LineStands(text: string, i: nat, line: string, ended: bool, rest: string) returns (stop: nat)
    requires i <= |text| && text[i..] == "#" + line + Ending(ended) + rest && (!ended ==> rest == "") && '\n' !in line
    ensures stop == i + 1 + |line| <= |text| && text[i] == '#' && text[i + 1..stop] == line
    ensures IsLineEnd(text, i, stop) && (stop < |text| <==> ended)
  {
    hide IsLineEnd;
    assert "#" + line + Ending(ended) + rest == ("#" + line) + (Ending(ended) + rest);
    LineEndAt(text, i, "#" + line, Ending(ended) + rest);
    SuffixAt(text, i, ("#" + line) + (Ending(ended) + rest), 0);
    SuffixBehind(text, i, "#" + line, Ending(ended) + rest);
    stop := i + 1 + |line|;
    assert text[i + 1..stop] == text[i..stop][1..];
  }

  /** What neither starts a comment nor is blank nor stands for a directive is a lexeme. */
  lemma LexemeIsPiece(text: string, p: Piece, begins: bool, lineOf: LineReader)
    requires p.begin < p.end <= |text| && (p.begin == 0 ==> !StartsAt(text, 0, MARK)) && IsLexemeAt(text, p)
    requires !IsBlank(text[p.begin]) && (begins ==> text[p.begin] != '#')
    requires text[p.begin] == '/' && p.begin + 1 < |text| ==> text[p.begin + 1] != '/' && text[p.begin + 1] != '*'
    ensures IsPiece(text, p, begins, lineOf)
  {
    hide IsLexemeAt, IsDirective, IsCommentAt;
    var i := p.begin;
    SameCharacters(text[i]);
    if i + 2 <= |text| {
      assert text[i..i + 2] == [text[i], text[i + 1]];
    }
  }

  lemma SignIsPiece(text: string, i: nat, e: Element, rest: string, begins: bool, lineOf: LineReader)
    requires e.Sign? && Stands(text, i, e, rest) && IsElement(e, lineOf) && StandsBefore(e, rest, begins)
    requires i == 0 ==> !StartsAt(text, 0, MARK)
    ensures IsPiece(text, Piece(Lexeme(Punctuation), i, i + |Spelled(e)|), begins, lineOf)
  {
    hide IsLexemeAt, IsPiece, StartsAt;
    var s := e.spelling;
    SignStandsAlone(text, i, s, rest);
    LexemeIsPiece(text, Piece(Lexeme(Punctuation), i, i + |s|), begins, lineOf);
  }

  lemma SignStandsAlone(text: string, i: nat, s: string, rest: string)
    requires i <= |text| && text[i..] == s + rest
    requires s in OPERATORS || (|s| == 1 && !IsBlank(s[0]) && !InName(s[0]) && s[0] != '"' && s[0] != '\'')
    requires |s| == 1 && rest != "" ==> s + [rest[0]] !in OPERATORS && s + [rest[0]] !in {"//", "/*"}
    ensures i + |s| <= |text| && text[i] == s[0] && !IsBlank(s[0])
    ensures text[i] == '/' && i + 1 < |text| ==> text[i + 1] != '/' && text[i + 1] != '*'
    ensures IsLexemeAt(text, Piece(Lexeme(Punctuation), i, i + |s|))
  {
    hide IsRawLiteral, IsQuotedLiteral, IsLongestWord, KindOfWord;
    SuffixAt(text, i, s + rest, 0);
    SuffixBehind(text, i, s, rest);
    SameCharacters(text[i]);
    if i + 2 <= |text| {
      TwoCharacters(text, i, s, rest);
    }
  }

  lemma TwoCharacters(text: string, i: nat, s: string, rest: string)
    requires i + 2 <= |text| && text[i..] == s + rest && 1 <= |s| <= 2
    ensures text[i..i + 2] == [text[i], text[i + 1]]
    ensures text[i..i + 2] == if |s| == 1 then s + [rest[0]] else s
  {
    SuffixAt(text, i, s + rest, 0);
    SuffixAt(text, i, s + rest, 1);
  }

  // Names and numbers

  lemma NameStartsNoLiteral(text: string, i: nat, e: Element, rest: string, begins: bool, lineOf: LineReader)
    requires e.Name? && Stands(text, i, e, rest) && IsElement(e, lineOf) && StandsBefore(e, rest, begins)
    ensures i < |text| && !IsRawStart(text, QuoteAt(text, i)) && !IsQuote(text, QuoteAt(text, i))
  {
    hide QuoteAt, IsRawStart, IsQuote;
    var word := e.word;
    SuffixBehind(text, i, word, rest);
    forall k | 0 <= k < |word|
      ensures text[i + k] == word[k] && InName(word[k])
    {
      SuffixAt(text, i, word + rest, k);
      assert word[k] in word;
    }
    if rest != "" {
      SuffixAt(text, i, word + rest, |word|);
    }
    PrefixInName(text, i, word, rest);
    NoLiteralAt(text, i, word, QuoteAt(text, i) - i);
  }

  lemma NoLiteralAt(text: string, i: nat, word: string, q: nat)
    requires i + |word| <= |text| && q <= |word| && word[..q] in PREFIXES
    requires forall k :: 0 <= k < |word| ==> text[i + k] == word[k] && InName(word[k])
    requires i + |word| < |text| ==> EndsName(word, text[i + |word|])
    ensures !IsRawStart(text, i + q) && !IsQuote(text, i + q)
  {
    if q == |word| {
      assert word[..q] == word;
    } else {
      assert text[i + q] == word[q];
      if q + 1 == |word| {
        assert word == word[..q] + [word[q]];
        RawPrefix(word[..q]);
      } else {
        assert text[i + (q + 1)] == word[q + 1];
      }
    }
  }

  lemma RawPrefix(prefix: string)
    requires prefix in PREFIXES
    ensures prefix + "R" in RAW_PREFIXES
  {
    assert "" + "R" == "R" && "u8" + "R" == "u8R" && "u" + "R" == "uR" && "U" + "R" == "UR" && "L" + "R" == "LR";
  }

  /** What could be the prefix of a literal at a name is a prefix of the name. */
  lemma PrefixInName(text: string, i: nat, word: string, rest: string)
    requires i <= |text| && text[i..] == word + rest && word != "" && (rest != "" ==> !InName(rest[0]))
    ensures i < |text| && QuoteAt(text, i) - i <= |word| && word[..QuoteAt(text, i) - i] in PREFIXES
  {
    SuffixAt(text, i, word + rest, 0);
    if StartsAt(text, i, "u8") {
      assert text[i + 1] == text[i..i + 2][1] == '8';
      SuffixAt(text, i, word + rest, 1);
      assert word[..2] == text[i..i + 2];
    } else if QuoteAt(text, i) == i + 1 {
      assert word[..1] == [text[i]];
    }
  }

  lemma NameIsPiece(text: string, i: nat, e: Element, rest: string, begins: bool, lineOf: LineReader)
    requires e.Name? && Stands(text, i, e, rest) && IsElement(e, lineOf) && StandsBefore(e, rest, begins)
    requires i == 0 ==> !StartsAt(text, 0, MARK)
    ensures IsPiece(text, Piece(KindOf(e, lineOf), i, i + |Spelled(e)|), begins, lineOf)
  {
    hide IsRawLiteral, IsQuotedLiteral, QuoteAt, IsRawStart, IsQuote;
    var word := e.word;
    SuffixBehind(text, i, word, rest);
    NameStartsNoLiteral(text, i, e, rest, begins, lineOf);
    forall k | 0 <= k < |word|
      ensures text[i + k] == word[k] && InName(word[k])
    {
      SuffixAt(text, i, word + rest, k);
      assert word[k] in word;
    }
    forall k | i < k < i + |word|
      ensures Extends(text, i, k)
    {
      assert text[k] == word[k - i];
    }
    assert word[0] == text[i];
    if rest != "" {
      SuffixAt(text, i, word + rest, |word|);
    }
    LexemeIsPiece(text, Piece(KindOf(e, lineOf), i, i + |word|), begins, lineOf);
  }

  lemma NumberIsPiece(text: string, i: nat, e: Element, rest: string, begins: bool, lineOf: LineReader)
    requires e.Number? && Stands(text, i, e, rest) && IsElement(e, lineOf) && StandsBefore(e, rest, begins)
    requires i == 0 ==> !StartsAt(text, 0, MARK)
    ensures IsPiece(text, Piece(Lexeme(Literal), i, i + |Spelled(e)|), begins, lineOf)
  {
    hide IsRawLiteral, IsQuotedLiteral, IsLongestWord, GoesOn, StartsAt, IsPiece;
    SuffixBehind(text, i, e.digits, rest);
    SuffixAt(text, i, e.digits + rest, 0);
    NumberStands(text, i, e.digits, rest);
    NumberIsNoName(text, i, i + |e.digits|);
    LexemeIsPiece(text, Piece(Lexeme(Literal), i, i + |e.digits|), begins, lineOf);
  }

  lemma NumberStands(text: string, i: nat, digits: string, rest: string)
    requires i <= |text| && text[i..] == digits + rest && digits != "" && InNumber(digits[0])
    requires forall k :: 1 <= k < |digits| ==> GoesOn(digits[k - 1], digits[k])
    requires rest == "" || !GoesOn(digits[|digits| - 1], rest[0])
    ensures IsLongestWord(text, i, i + |digits|)
  {
    SuffixBehind(text, i, digits, rest);
    forall k | 0 <= k < |digits|
      ensures text[i + k] == digits[k]
    {
      SuffixAt(text, i, digits + rest, k);
    }
    assert digits[0] == text[i];
    forall k | i < k < i + |digits|
      ensures Extends(text, i, k)
    {
      assert text[k] == digits[k - i] && text[k - 1] == digits[k - i - 1];
      assert GoesOn(digits[k - i - 1], digits[k - i]);
    }
    if rest != "" {
      SuffixAt(text, i, digits + rest, |digits|);
      assert text[i + |digits| - 1] == digits[|digits| - 1];
    }
  }

  lemma NumberIsNoName(text: string, i: nat, end: nat)
    requires i < end <= |text| && InNumber(text[i]) && IsLongestWord(text, i, end)
    ensures IsLexemeAt(text, Piece(Lexeme(Literal), i, end))
  {
    hide IsRawLiteral, IsQuotedLiteral, IsLongestWord;
    assert text[i..end][0] == text[i];
    if i + 2 <= |text| {
      assert text[i..i + 2][0] == text[i];
    }
  }

  // Literals

  lemma PrefixOfLiteral(text: string, i: nat, prefix: string, rest: string)
    requires i <= |text| && text[i..] == prefix + rest && prefix in PREFIXES && rest != ""
    requires rest[0] == '"' || rest[0] == '\'' || rest[0] == 'R'
    ensures i < |text| && QuoteAt(text, i) == i + |prefix| && !IsBlank(text[i]) && text[i] != '#' && text[i] != '/'
  {
    SuffixBehind(text, i, prefix, rest);
    SuffixAt(text, i, prefix + rest, 0);
    SuffixAt(text, i, prefix + rest, |prefix|);
    if i + 2 <= |text| {
      assert text[i..i + 2] == [text[i], text[i + 1]];
    }
  }

  /** The printed characters leave no backslash open, and every delimiter among them is behind one. */
  lemma {:induction false} CharactersStand(text: string, from: nat, at: nat, characters: seq<Character>, rest: string,
                                           delimiter: char)
    requires from <= at <= |text| && text[at..] == Behinds(characters) + rest && !IsEscaped(text, from, at)
    requires delimiter != '\\' && Plain(delimiter) !in characters && Plain('\\') !in characters
    ensures var end := at + |Behinds(characters)|;
            && end <= |text| && text[end..] == rest && !IsEscaped(text, from, end)
            && forall k :: at <= k < end && text[k] == delimiter ==> IsEscaped(text, from, k)
    decreases |characters|
  {
    if characters != [] {
      var first := match characters[0] case Plain(c) => [c] case Behind(c) => ['\\', c];
      var others := Behinds(characters[1..]);
      assert Behinds(characters) + rest == first + (others + rest);
      SuffixBehind(text, at, first, others + rest);
      SuffixAt(text, at, first + (others + rest), 0);
      if characters[0].Behind? {
        SuffixAt(text, at, first + (others + rest), 1);
        assert IsEscaped(text, from, at + 1);
      }
      assert !IsEscaped(text, from, at + |first|);
      CharactersStand(text, from, at + |first|, characters[1..], rest, delimiter);
    }
  }

  lemma TextIsPiece(text: string, i: nat, e: Element, rest: string, begins: bool, lineOf: LineReader)
    requires e.Text? && Stands(text, i, e, rest) && IsElement(e, lineOf)
    requires i == 0 ==> !StartsAt(text, 0, MARK)
    ensures IsPiece(text, Piece(Lexeme(Literal), i, i + |Spelled(e)|), begins, lineOf)
  {
    hide IsQuotedLiteral, IsRawLiteral, IsLongestWord, KindOfWord, QuoteAt;
    var content := [e.delimiter] + Behinds(e.characters) + [e.delimiter];
    assert Spelled(e) + rest == e.prefix + (content + rest);
    PrefixOfLiteral(text, i, e.prefix, content + rest);
    SuffixBehind(text, i, e.prefix, content + rest);
    QuotedStands(text, i + |e.prefix|, e.characters, rest, e.delimiter);
    LexemeIsPiece(text, Piece(Lexeme(Literal), i, i + |Spelled(e)|), begins, lineOf);
  }

  lemma QuotedStands(text: string, quote: nat, characters: seq<Character>, rest: string, delimiter: char)
    requires quote <= |text| && text[quote..] == [delimiter] + Behinds(characters) + [delimiter] + rest
    requires delimiter != '\\' && Plain(delimiter) !in characters && Plain('\\') !in characters
    ensures quote < |text| && text[quote] == delimiter
    ensures quote + |Behinds(characters)| + 2 <= |text|
    ensures IsQuotedLiteral(text, quote, quote + |Behinds(characters)| + 2)
  {
    hide IsEscaped;
    var q, inner := [delimiter], Behinds(characters);
    assert q + inner + q + rest == q + (inner + (q + rest));
    SuffixBehind(text, quote, q, inner + (q + rest));
    SuffixAt(text, quote, q + (inner + (q + rest)), 0);
    NothingEscaped(text, quote + 1);
    CharactersStand(text, quote + 1, quote + 1, characters, q + rest, delimiter);
    SuffixAt(text, quote + 1 + |inner|, q + rest, 0);
  }

  lemma NothingEscaped(text: string, from: nat)
    requires from <= |text|
    ensures !IsEscaped(text, from, from)
  {
  }

  lemma RawIsPiece(text: string, i: nat, e: Element, rest: string, begins: bool, lineOf: LineReader)
    requires e.Raw? && Stands(text, i, e, rest) && IsElement(e, lineOf)
    requires i == 0 ==> !StartsAt(text, 0, MARK)
    ensures IsPiece(text, Piece(Lexeme(Literal), i, i + |Spelled(e)|), begins, lineOf)
  {
    hide IsPiece, IsLexemeAt, IsRawLiteral, IsRawStart, QuoteAt, Spelled, StartsAt, EndsOnlyAtEnd;
    var content := e.mark + ("(" + (e.body + (")" + e.mark + "\"") + rest));
    RawRegroup(e, rest);
    PrefixOfLiteral(text, i, e.prefix, "R\"" + content);
    SuffixBehind(text, i, e.prefix, "R\"" + content);
    RawStands(text, i + |e.prefix|, e.mark, e.body, rest);
    RawIsLexeme(text, i, i + |e.prefix|, i + |Spelled(e)|);
    LexemeIsPiece(text, Piece(Lexeme(Literal), i, i + |Spelled(e)|), begins, lineOf);
  }

  lemma RawIsLexeme(text: string, i: nat, quote: nat, end: nat)
    requires i < end <= |text| && QuoteAt(text, i) == quote && IsRawStart(text, quote) && IsRawLiteral(text, quote, end)
    ensures IsLexemeAt(text, Piece(Lexeme(Literal), i, end))
  {
    hide IsRawLiteral, IsRawStart, QuoteAt;
  }

  lemma RawStands(text: string, quote: nat, mark: string, body: string, rest: string)
    requires quote <= |text| && text[quote..] == "R\"" + (mark + ("(" + (body + (")" + mark + "\"") + rest)))
    requires |mark| <= 16 && '(' !in mark && EndsOnlyAtEnd(body, ")" + mark + "\"")
    ensures quote + 2 * |mark| + |body| + 5 <= |text|
    ensures IsRawStart(text, quote) && IsRawLiteral(text, quote, quote + 2 * |mark| + |body| + 5)
  {
    hide IsFirst, EndsOnlyAtEnd;
    var closing := ")" + mark + "\"";
    var behind := body + closing + rest;
    var content := mark + ("(" + behind);
    SuffixBehind(text, quote, "R\"", content);
    SuffixAt(text, quote, "R\"" + content, 0);
    SuffixAt(text, quote, "R\"" + content, 1);
    SuffixBehind(text, quote + 2, mark, "(" + behind);
    var open := quote + 2 + |mark|;
    SuffixBehind(text, open, "(", behind);
    OpeningIsFirst(text, quote + 2, mark, behind);
    FirstBehind(text, open + 1, body, closing, rest);
    SuffixBehind(text, open + 1, body + closing, rest);
    assert IsRawLiteralTo(text, quote, open, open + 1 + |body|, quote + 2 * |mark| + |body| + 5);
  }

  lemma RawRegroup(e: Element, rest: string)
    requires e.Raw?
    ensures var closing := ")" + e.mark + "\"";
            && Spelled(e) + rest == e.prefix + ("R\"" + (e.mark + ("(" + (e.body + closing + rest))))
            && |Spelled(e)| == |e.prefix| + 2 * |e.mark| + |e.body| + 5
  {
    var closing := ")" + e.mark + "\"";
    assert "R\"" + e.mark + "(" + e.body + closing + rest == "R\"" + (e.mark + ("(" + (e.body + closing + rest)));
  }

  lemma OpeningIsFirst(text: string, from: nat, mark: string, behind: string)
    requires from <= |text| && text[from..] == mark + ("(" + behind) && '(' !in mark
    ensures IsFirst(text, "(", from, from + |mark|)
  {
    SuffixBehind(text, from, mark, "(" + behind);
    SuffixBehind(text, from + |mark|, "(", behind);
    forall k: nat | from <= k < from + |mark|
      ensures !StartsAt(text, k, "(")
    {
      SuffixAt(text, from, mark + ("(" + behind), k - from);
      assert text[k] == mark[k - from];
      StartsWithOne(text, k, '(');
    }
  }

  lemma StartsWithOne(text: string, k: nat, c: char)
    ensures StartsAt(text, k, [c]) ==> k < |text| && text[k] == c
  {
    if k < |text| {
      assert text[k..k + 1] == [text[k]];
    }
  }

  lemma ElementIsPiece(text: string, i: nat, e: Element, rest: string, begins: bool, lineOf: LineReader)
    requires Stands(text, i, e, rest) && IsElement(e, lineOf) && StandsBefore(e, rest, begins)
    requires i == 0 ==> !StartsAt(text, 0, MARK)
    ensures IsPiece(text, Piece(KindOf(e, lineOf), i, i + |Spelled(e)|), begins, lineOf)
  {
    hide IsPiece, StartsAt;
    match e
    case White(_) => WhiteIsPiece(text, i, e, rest, begins, lineOf);
    case Block(_) => BlockIsPiece(text, i, e, rest, begins, lineOf);
    case Slashes(_) => SlashesArePiece(text, i, e, rest, begins, lineOf);
    case LineIs(blanks, said, ended) =>
      DirectiveIsPiece(text, i, blanks, "line", said, rest, ended, KindOf(e, lineOf), lineOf);
    case PragmaIs(blanks, said, ended) =>
      DirectiveIsPiece(text, i, blanks, "pragma", said, rest, ended, Pragma, lineOf);
    case Name(_) => NameIsPiece(text, i, e, rest, begins, lineOf);
    case Number(_) => NumberIsPiece(text, i, e, rest, begins, lineOf);
    case Text(_, _, _) => TextIsPiece(text, i, e, rest, begins, lineOf);
    case Raw(_, _, _) => RawIsPiece(text, i, e, rest, begins, lineOf);
    case Sign(_) => SignIsPiece(text, i, e, rest, begins, lineOf);
  }

  // The whole file

  lemma {:induction false} LineEndsIn(text: string, i: nat, j: nat)
    requires i <= j <= |text|
    ensures Newlines(text, i, j) > 0 <==> '\n' in text[i..j]
    decreases j - i
  {
    if i < j {
      LineEndsIn(text, i, j - 1);
      assert text[i..j] == text[i..j - 1] + [text[j - 1]];
    }
  }

  /** Whether a line starts behind the element, told from the element. */
  lemma StartsAsPrinted(text: string, row: seq<Piece>, e: Element, rest: string, lineOf: LineReader)
    requires IsRow(text, row, lineOf) && IsElement(e, lineOf) && Spelled(e) != "" && Stands(text, EndOf(row), e, rest)
    ensures var end := EndOf(row) + |Spelled(e)|;
            && end <= |text|
            && (IsLineStart(text, row + [Piece(KindOf(e, lineOf), EndOf(row), end)], end)
                <==> StartsLine(e, IsLineStart(text, row, EndOf(row))))
  {
    hide IsRow, IsLineStart, Newlines, Spelled, IsElement, KindOf, StartsLine;
    KindStarts(e, IsLineStart(text, row, EndOf(row)), lineOf);
    RowIsInOrder(text, row, lineOf);
    var i := EndOf(row);
    SuffixBehind(text, i, Spelled(e), rest);
    LineEndsIn(text, i, i + |Spelled(e)|);
    LineStartGoesOn(text, row, Piece(KindOf(e, lineOf), i, i + |Spelled(e)|));
  }

  lemma KindStarts(e: Element, begins: bool, lineOf: LineReader)
    requires IsElement(e, lineOf)
    ensures StartsLine(e, begins) <==>
            '\n' in Spelled(e) || (!KindOf(e, lineOf).Remark? && !KindOf(e, lineOf).Lexeme? && begins)
  {
    hide Spelled;
  }

  lemma LastFileMore(pieces: seq<Piece>, p: Piece)
    ensures LastFile(pieces + [p]) == if p.kind.LineChange? then p.kind.file else LastFile(pieces)
  {
    assert (pieces + [p])[..|pieces|] == pieces;
  }

  lemma TokensMore(text: string, pieces: seq<Piece>, p: Piece)
    requires AreInside(text, pieces) && p.begin < p.end <= |text|
    ensures AreInside(text, pieces + [p])
    ensures TokensOf(text, pieces + [p]) == TokensOf(text, pieces) + if p.kind.Lexeme? then [TokenOf(text, p)] else []
  {
    assert (pieces + [p])[..|pieces|] == pieces;
  }

  lemma SomethingSpelled(e: Element, lineOf: LineReader)
    requires IsElement(e, lineOf)
    ensures Spelled(e) != ""
  {
  }

  /** Behind a row the elements that are left become pieces one by one. */
  lemma {:induction false} LexedFrom(text: string, row: seq<Piece>, es: seq<Element>, lineOf: LineReader)
    requires IsRow(text, row, lineOf) && AreInside(text, row) && EndOf(row) <= |text|
    requires text[EndOf(row)..] == Printed(es) && AreApart(es, IsLineStart(text, row, EndOf(row)), lineOf)
    requires EndOf(row) == 0 ==> !StartsAt(text, 0, MARK)
    ensures AreElements(es, lineOf)
    ensures var all := row + PiecesOf(es, EndOf(row), lineOf); IsLexing(text, all, lineOf) && AreInside(text, all)
    decreases |es|
  {
    hide IsRow, IsPiece, IsLineStart, StartsAt, IsElement, StandsBefore, Spelled, StartsLine, KindOf;
    ApartAreElements(es, IsLineStart(text, row, EndOf(row)), lineOf);
    if es == [] {
      assert row + PiecesOf(es, EndOf(row), lineOf) == row;
    } else {
      var i, e, rest := EndOf(row), es[0], Printed(es[1..]);
      var p := Piece(KindOf(e, lineOf), i, i + |Spelled(e)|);
      SomethingSpelled(e, lineOf);
      SuffixBehind(text, i, Spelled(e), rest);
      ElementIsPiece(text, i, e, rest, IsLineStart(text, row, i), lineOf);
      StartsAsPrinted(text, row, e, rest, lineOf);
      RowMore(text, row, p, lineOf);
      LexedFrom(text, row + [p], es[1..], lineOf);
      Regroup(row, p, PiecesOf(es[1..], p.end, lineOf));
    }
  }

  lemma {:induction false} PiecesAreTokens(text: string, row: seq<Piece>, es: seq<Element>, i: nat, lineOf: LineReader)
    requires AreInside(text, row) && AreElements(es, lineOf) && i <= |text| && text[i..] == Printed(es)
    ensures var all := row + PiecesOf(es, i, lineOf);
            && AreInside(text, all)
            && TokensOf(text, all) == TokensOf(text, row) + TokensFrom(es, i, lineOf)
            && LastFile(all) == FileFrom(es, LastFile(row), lineOf)
    decreases |es|
  {
    hide IsElement, Spelled, KindOf, TokensOf, LastFile, TokenOf;
    if es == [] {
      assert row + PiecesOf(es, i, lineOf) == row;
    } else {
      var e := es[0];
      var p := Piece(KindOf(e, lineOf), i, i + |Spelled(e)|);
      SomethingSpelled(e, lineOf);
      SuffixBehind(text, i, Spelled(e), Printed(es[1..]));
      TokensMore(text, row, p);
      LastFileMore(row, p);
      FileOfElement(e, lineOf);
      PiecesAreTokens(text, row + [p], es[1..], p.end, lineOf);
      Regroup(row, p, PiecesOf(es[1..], p.end, lineOf));
      if p.kind.Lexeme? {
        TokenOfElement(text, i, e, Printed(es[1..]), lineOf);
      }
      var own := if p.kind.Lexeme? then [TokenOf(text, p)] else [];
      assert TokensOf(text, row) + own + TokensFrom(es[1..], p.end, lineOf)
          == TokensOf(text, row) + (own + TokensFrom(es[1..], p.end, lineOf));
    }
  }

  lemma TokenOfElement(text: string, i: nat, e: Element, rest: string, lineOf: LineReader)
    requires Stands(text, i, e, rest) && IsElement(e, lineOf) && KindOf(e, lineOf).Lexeme?
    ensures Spelled(e) != "" && i + |Spelled(e)| <= |text|
    ensures TokenOf(text, Piece(KindOf(e, lineOf), i, i + |Spelled(e)|))
         == Token(KindOf(e, lineOf).token, Spelled(e), i, i + |Spelled(e)|)
  {
    SomethingSpelled(e, lineOf);
    SuffixBehind(text, i, Spelled(e), rest);
  }

  lemma FileOfElement(e: Element, lineOf: LineReader)
    requires IsElement(e, lineOf)
    ensures KindOf(e, lineOf).LineChange? <==> e.LineIs?
    ensures e.LineIs? ==> lineOf(e.said).Some? && KindOf(e, lineOf).file == lineOf(e.said).value.1
  {
  }

  lemma Regroup<T>(a: seq<T>, x: T, b: seq<T>)
    ensures a + [x] + b == a + ([x] + b)
  {
  }

  lemma LeadIsRow(text: string, marked: bool, es: seq<Element>, lineOf: LineReader)
    requires IsSheet(text, marked, es, lineOf)
    ensures var row := if marked then [Piece(Mark, 0, 3)] else [];
            && IsRow(text, row, lineOf) && AreInside(text, row) && EndOf(row) == |Lead(marked)|
            && IsLineStart(text, row, EndOf(row)) && text[EndOf(row)..] == Printed(es)
            && LastFile(row) == "" && TokensOf(text, row) == []
  {
    hide AreApart, IsDirective;
    if marked {
      assert text[0..3] == MARK;
      assert text[0] == MARK[0];
      RowMore(text, [], Piece(Mark, 0, 3), lineOf);
      TokensMore(text, [], Piece(Mark, 0, 3));
      assert [] + [Piece(Mark, 0, 3)] == [Piece(Mark, 0, 3)];
    }
  }

  /** What is printed and does not run together is lexed to what was printed, and in no other way. */
  lemma PrintedIsLexed(text: string, marked: bool, es: seq<Element>, lineOf: LineReader, pieces: seq<Piece>)
    requires IsSheet(text, marked, es, lineOf)
    ensures AreElements(es, lineOf)
    ensures IsLexing(text, pieces, lineOf) <==> pieces == RowOf(marked, es, lineOf)
    ensures IsLexing(text, pieces, lineOf) ==>
              && AreInside(text, pieces) && TokensOf(text, pieces) == TokensFrom(es, |Lead(marked)|, lineOf)
              && LastFile(pieces) == FileFrom(es, "", lineOf)
  {
    hide IsLexing, IsRow, IsLineStart, TokensOf, LastFile, StartsAt, PiecesOf, TokensFrom, FileFrom, Printed, AreApart;
    LeadIsRow(text, marked, es, lineOf);
    LexedFrom(text, if marked then [Piece(Mark, 0, 3)] else [], es, lineOf);
    PiecesAreTokens(text, if marked then [Piece(Mark, 0, 3)] else [], es, |Lead(marked)|, lineOf);
    if IsLexing(text, pieces, lineOf) {
      LexingIsUnique(text, pieces, RowOf(marked, es, lineOf), lineOf);
    }
  }

  /** The lexer accepts what is printed exactly when the last line directive names a file, with the tokens printed. */
  lemma LexGivesPrinted(text: string, marked: bool, es: seq<Element>, lineOf: LineReader,
                        r: Result<Lexed, LexError>, pieces: seq<Piece>)
    requires IsSheet(text, marked, es, lineOf) && IsAnswer(text, lineOf, r, pieces)
    ensures AreElements(es, lineOf)
    ensures if FileFrom(es, "", lineOf) == "" then r == Err(NoLineInformation)
            else r.Ok? && r.value.tokens == TokensFrom(es, |Lead(marked)|, lineOf)
  {
    hide IsSheet, IsLexing, IsRow, TokensOf, LastFile;
    PrintedIsLexed(text, marked, es, lineOf, pieces);
    PrintedIsLexed(text, marked, es, lineOf, RowOf(marked, es, lineOf));
  }

  // Whatever is lexed was printed

  lemma Suffix(text: string, i: nat, j: nat)
    requires i <= j <= |text|
    ensures text[i..] == text[i..j] + text[j..]
  {
  }

  /** The piece is that element, and what follows lets it end there. */
  predicate IsPrintOf(text: string, p: Piece, begins: bool, lineOf: LineReader, e: Element) {
    && p.begin < p.end <= |text| && IsElement(e, lineOf) && p.kind == KindOf(e, lineOf)
    && text[p.begin..p.end] == Spelled(e) && StandsBefore(e, text[p.end..], begins)
  }

  lemma DirectiveOfPiece(text: string, p: Piece, lineOf: LineReader) returns (e: Element)
    requires p.begin < p.end <= |text| && text[p.begin] == '#' && IsDirective(text, p, lineOf)
    ensures IsPrintOf(text, p, true, lineOf, e)
  {
    hide IsLineEnd, IsFirstWord, IsRest;
    var stop: nat, a: nat, b: nat :| IsDirectiveTo(text, p, stop, a, b, lineOf);
    var line := LineParts(text, p.begin, stop, p.end);
    WordParts(line, a, b);
    e := if line[a..b] == "line" then LineIs(line[..a], line[b..], stop < |text|)
         else PragmaIs(line[..a], line[b..], stop < |text|);
  }

  lemma LineParts(text: string, i: nat, stop: nat, end: nat) returns (line: string)
    requires i < |text| && text[i] == '#' && IsLineEnd(text, i, stop) && i < stop
    requires end == if stop < |text| then stop + 1 else stop
    ensures line == text[i + 1..stop] && '\n' !in line
    ensures text[i..end] == "#" + line + Ending(stop < |text|)
  {
    line := text[i + 1..stop];
  }

  lemma WordParts(line: string, a: nat, b: nat)
    requires IsFirstWord(line, a, b) && '\n' !in line
    ensures a <= b <= |line| && IsRest(line[..a], line[b..]) && line == line[..a] + (line[a..b] + line[b..])
  {
    forall c | c in line[..a]
      ensures IsBlank(c) && c != '\n'
    {
      assert c in line;
    }
  }

  lemma RemarkOfPiece(text: string, p: Piece, begins: bool, lineOf: LineReader) returns (e: Element)
    requires p.begin < p.end <= |text| && IsCommentAt(text, p)
    requires StartsAt(text, p.begin, "//") || StartsAt(text, p.begin, "/*")
    ensures IsPrintOf(text, p, begins, lineOf, e)
  {
    if StartsAt(text, p.begin, "//") {
      e := SlashesOfPiece(text, p, begins, lineOf);
    } else {
      e := BlockOfPiece(text, p, begins, lineOf);
    }
  }

  lemma SlashesOfPiece(text: string, p: Piece, begins: bool, lineOf: LineReader) returns (e: Element)
    requires p.begin < p.end <= |text| && p.kind == Remark && IsLineEnd(text, p.begin, p.end)
    requires StartsAt(text, p.begin, "//")
    ensures IsPrintOf(text, p, begins, lineOf, e)
  {
    BehindSlashes(text, p.begin, p.end);
    assert text[p.begin + 1] == text[p.begin..p.begin + 2][1];
    e := Slashes(text[p.begin + 2..p.end]);
    assert text[p.begin..p.end] == text[p.begin..p.begin + 2] + text[p.begin + 2..p.end];
    forall c | c in e.body
      ensures c != '\n'
    {
      var k :| 0 <= k < |e.body| && e.body[k] == c;
      assert c == text[p.begin + 2 + k];
    }
  }

  lemma BlockOfPiece(text: string, p: Piece, begins: bool, lineOf: LineReader) returns (e: Element)
    requires p.begin < p.end <= |text| && p.kind == Remark && p.end >= 2
    requires StartsAt(text, p.begin, "/*") && IsFirst(text, "*/", p.begin + 2, p.end - 2)
    ensures IsPrintOf(text, p, begins, lineOf, e)
  {
    e := Block(text[p.begin + 2..p.end - 2]);
    BodyOfFirst(text, "*/", p.begin + 2, p.end - 2);
    assert text[p.begin..p.end] == text[p.begin..p.begin + 2] + (text[p.begin + 2..p.end - 2] + text[p.end - 2..p.end]);
  }

  /** Up to the first closing the body holds none. */
  lemma BodyOfFirst(text: string, closing: string, from: nat, at: nat)
    requires IsFirst(text, closing, from, at)
    ensures at + |closing| <= |text| && text[at..at + |closing|] == closing
    ensures EndsOnlyAtEnd(text[from..at], closing)
  {
    var body := text[from..at];
    assert text[from..] == body + closing + text[at + |closing|..];
    forall k | 0 <= k < |body|
      ensures !StartsAt(body + closing, k, closing)
    {
      if StartsAt(body + closing, k, closing) {
        var s := body + closing + text[at + |closing|..];
        assert s[k..k + |closing|] == (body + closing)[k..k + |closing|];
        StartsFrom(text, from, s, closing, k);
      }
    }
  }

  lemma WordOfPiece(text: string, p: Piece, begins: bool, lineOf: LineReader) returns (e: Element)
    requires p.begin < p.end <= |text| && IsWord(text[p.begin]) && IsLongestWord(text, p.begin, p.end)
    requires p.kind == Lexeme(KindOfWord(text, p.begin, p.end))
    requires !IsRawStart(text, QuoteAt(text, p.begin)) && !IsQuote(text, QuoteAt(text, p.begin))
    ensures IsPrintOf(text, p, begins, lineOf, e)
  {
    if InNumber(text[p.begin]) {
      e := NumberOfPiece(text, p, begins, lineOf);
    } else {
      e := NameOfPiece(text, p, begins, lineOf);
    }
  }

  lemma NumberOfPiece(text: string, p: Piece, begins: bool, lineOf: LineReader) returns (e: Element)
    requires p.begin < p.end <= |text| && InNumber(text[p.begin]) && IsLongestWord(text, p.begin, p.end)
    requires p.kind == Lexeme(KindOfWord(text, p.begin, p.end))
    ensures IsPrintOf(text, p, begins, lineOf, e)
  {
    var digits := text[p.begin..p.end];
    e := Number(digits);
    assert digits[0] == text[p.begin] && digits != "using";
    forall k | 1 <= k < |digits|
      ensures GoesOn(digits[k - 1], digits[k])
    {
      assert digits[k] == text[p.begin + k] && digits[k - 1] == text[p.begin + k - 1];
      assert Extends(text, p.begin, p.begin + k);
    }
    assert digits[|digits| - 1] == text[p.end - 1];
  }

  lemma NameOfPiece(text: string, p: Piece, begins: bool, lineOf: LineReader) returns (e: Element)
    requires p.begin < p.end <= |text| && IsWord(text[p.begin]) && !InNumber(text[p.begin])
    requires IsLongestWord(text, p.begin, p.end) && p.kind == Lexeme(KindOfWord(text, p.begin, p.end))
    requires !IsRawStart(text, QuoteAt(text, p.begin)) && !IsQuote(text, QuoteAt(text, p.begin))
    ensures IsPrintOf(text, p, begins, lineOf, e)
  {
    hide QuoteAt, IsRawStart, IsQuote;
    var word := text[p.begin..p.end];
    e := Name(word);
    forall c | c in word
      ensures InName(c)
    {
      var k :| 0 <= k < |word| && word[k] == c;
      assert c == text[p.begin + k];
      assert k > 0 ==> Extends(text, p.begin, p.begin + k);
    }
    if p.end < |text| {
      assert !Extends(text, p.begin, p.end);
      NameEnds(text, p.begin, p.end);
    }
  }

  lemma NameEnds(text: string, i: nat, end: nat)
    requires i < end < |text| && !InName(text[end])
    requires !IsRawStart(text, QuoteAt(text, i)) && !IsQuote(text, QuoteAt(text, i))
    ensures EndsName(text[i..end], text[end])
  {
    hide QuoteAt;
    var word := text[i..end];
    if word in PREFIXES {
      QuoteBehindPrefix(text, i, word);
    } else if word in RAW_PREFIXES {
      var prefix := word[..|word| - 1];
      PrefixOfRaw(word);
      assert text[i..i + |prefix|] == prefix;
      assert text[end - 1] == word[|word| - 1];
      QuoteBehindPrefix(text, i, prefix);
    }
  }

  lemma PrefixOfRaw(word: string)
    requires word in RAW_PREFIXES
    ensures word[..|word| - 1] in PREFIXES && word[|word| - 1] == 'R'
  {
    assert "R"[..0] == "" && "u8R"[..2] == "u8" && "uR"[..1] == "u" && "UR"[..1] == "U" && "LR"[..1] == "L";
  }

  lemma QuoteBehindPrefix(text: string, i: nat, prefix: string)
    requires prefix in PREFIXES && i + |prefix| < |text| && text[i..i + |prefix|] == prefix
    requires text[i + |prefix|] == '"' || text[i + |prefix|] == '\'' || text[i + |prefix|] == 'R' || !InName(text[i + |prefix|])
    ensures QuoteAt(text, i) == i + |prefix|
  {
    assert prefix != "" ==> text[i] == prefix[0];
    if i + 2 <= |text| {
      assert text[i..i + 2] == [text[i], text[i + 1]];
    }
  }

  lemma PrefixBefore(text: string, i: nat)
    requires i < |text|
    ensures text[i..QuoteAt(text, i)] in PREFIXES
  {
    assert text[i..i] == "" && text[i..i + 1] == [text[i]];
  }

  /** Between the delimiters stand characters, each plain or behind a backslash. */
  lemma {:induction false} CharactersOf(text: string, from: nat, at: nat, end: nat, delimiter: char)
      returns (characters: seq<Character>)
    requires from <= at <= end < |text| && !IsEscaped(text, from, at) && !IsEscaped(text, from, end)
    requires forall k :: at <= k < end && text[k] == delimiter ==> IsEscaped(text, from, k)
    ensures Plain(delimiter) !in characters && Plain('\\') !in characters
    ensures text[at..end] == Behinds(characters)
    decreases end - at
  {
    if at == end {
      characters := [];
    } else if text[at] == '\\' {
      assert IsEscaped(text, from, at + 1);
      assert at + 1 < end;
      assert !IsEscaped(text, from, at + 2);
      var others := CharactersOf(text, from, at + 2, end, delimiter);
      characters := [Behind(text[at + 1])] + others;
      assert text[at..end] == ['\\', text[at + 1]] + text[at + 2..end];
      assert characters[1..] == others;
    } else {
      assert !IsEscaped(text, from, at + 1);
      var others := CharactersOf(text, from, at + 1, end, delimiter);
      characters := [Plain(text[at])] + others;
      assert text[at..end] == [text[at]] + text[at + 1..end];
      assert characters[1..] == others;
    }
  }

  lemma TextOfPiece(text: string, p: Piece, begins: bool, lineOf: LineReader) returns (e: Element)
    requires p.begin < p.end <= |text| && p.kind == Lexeme(Literal) && IsQuote(text, QuoteAt(text, p.begin))
    requires IsQuotedLiteral(text, QuoteAt(text, p.begin), p.end)
    ensures IsPrintOf(text, p, begins, lineOf, e)
  {
    hide IsEscaped, QuoteAt;
    var i, quote, end := p.begin, QuoteAt(text, p.begin), p.end - 1;
    PrefixBefore(text, i);
    NothingEscaped(text, quote + 1);
    var delimiter := text[quote];
    var characters := CharactersOf(text, quote + 1, quote + 1, end, delimiter);
    e := Text(text[i..quote], delimiter, characters);
    QuotedParts(text, i, quote, end);
  }

  lemma QuotedParts(text: string, i: nat, quote: nat, end: nat)
    requires i <= quote < end < |text|
    ensures text[i..end + 1] == text[i..quote] + ([text[quote]] + text[quote + 1..end] + [text[end]])
  {
  }

  lemma RawOfPiece(text: string, p: Piece, begins: bool, lineOf: LineReader) returns (e: Element)
    requires p.begin < p.end <= |text| && p.kind == Lexeme(Literal) && IsRawStart(text, QuoteAt(text, p.begin))
    requires IsRawLiteral(text, QuoteAt(text, p.begin), p.end)
    ensures IsPrintOf(text, p, begins, lineOf, e)
  {
    hide QuoteAt, IsFirst, EndsOnlyAtEnd, StartsAt;
    var i, quote := p.begin, QuoteAt(text, p.begin);
    PrefixBefore(text, i);
    var open: nat, close: nat :| IsRawLiteralTo(text, quote, open, close, p.end);
    OpeningBehind(text, quote + 2, open);
    var mark := text[quote + 2..open];
    var closing := ")" + mark + "\"";
    BodyOfFirst(text, closing, open + 1, close);
    BodyBehind(text, closing, open + 1, close);
    e := Raw(text[i..quote], mark, text[open + 1..close]);
    RawParts(text, i, quote, open, close, p.end);
  }

  lemma OpeningBehind(text: string, from: nat, open: nat)
    requires IsFirst(text, "(", from, open)
    ensures from <= open < |text| && text[open] == '(' && '(' !in text[from..open]
  {
    assert text[open..open + 1][0] == '(';
    forall k | from <= k < open
      ensures text[k] != '('
    {
      if text[k] == '(' {
        assert text[k..k + 1] == "(";
        assert StartsAt(text, k, "(");
      }
    }
  }

  lemma BodyBehind(text: string, closing: string, from: nat, at: nat)
    requires IsFirst(text, closing, from, at)
    ensures from <= at && at + |closing| <= |text| && text[at..at + |closing|] == closing
  {
  }

  lemma RawParts(text: string, i: nat, quote: nat, open: nat, close: nat, end: nat)
    requires i <= quote < quote + 2 <= open < close <= end <= |text|
    requires text[quote] == 'R' && text[quote + 1] == '"' && text[open] == '('
    requires text[close..end] == ")" + text[quote + 2..open] + "\""
    ensures text[i..end] == text[i..quote] + ("R\"" + text[quote + 2..open] + "(" + text[open + 1..close]
                                              + (")" + text[quote + 2..open] + "\""))
  {
    assert text[i..end] == text[i..quote] + ([text[quote], text[quote + 1]] + text[quote + 2..open] + [text[open]]
                                             + text[open + 1..close] + text[close..end]);
  }

  lemma SignOfPiece(text: string, p: Piece, begins: bool, lineOf: LineReader) returns (e: Element)
    requires p.begin < p.end <= |text| && p.kind == Lexeme(Punctuation) && !IsBlank(text[p.begin])
    requires !IsQuote(text, QuoteAt(text, p.begin)) && !IsWord(text[p.begin])
    requires p.end == (if IsPair(text, p.begin) then p.begin + 2 else p.begin + 1)
    requires !StartsAt(text, p.begin, "//") && !StartsAt(text, p.begin, "/*") && (begins ==> text[p.begin] != '#')
    ensures IsPrintOf(text, p, begins, lineOf, e)
  {
    var i := p.begin;
    var s := text[i..p.end];
    e := Sign(s);
    if i + 2 <= |text| {
      assert text[i..i + 2] == [text[i], text[i + 1]];
    }
    QuoteHere(text, i);
    if !IsPair(text, i) {
      assert s == [text[i]];
      if p.end < |text| {
        assert s + [text[p.end..][0]] == text[i..i + 2];
      }
    }
  }

  lemma QuoteHere(text: string, i: nat)
    requires i < |text|
    ensures text[i] == '"' || text[i] == '\'' ==> IsQuote(text, QuoteAt(text, i))
  {
    if i + 2 <= |text| {
      assert text[i..i + 2][0] == text[i];
    }
  }

  lemma LexemeOfPiece(text: string, p: Piece, begins: bool, lineOf: LineReader) returns (e: Element)
    requires p.begin < p.end <= |text| && IsLexemeAt(text, p) && !IsBlank(text[p.begin])
    requires !StartsAt(text, p.begin, "//") && !StartsAt(text, p.begin, "/*") && (begins ==> text[p.begin] != '#')
    ensures IsPrintOf(text, p, begins, lineOf, e)
  {
    hide IsRawLiteral, IsQuotedLiteral, IsLongestWord, QuoteAt, StartsAt, IsPair, IsRawStart, IsQuote, IsWord, KindOfWord;
    hide IsPrintOf;
    if IsRawStart(text, QuoteAt(text, p.begin)) {
      e := RawOfPiece(text, p, begins, lineOf);
    } else if IsQuote(text, QuoteAt(text, p.begin)) {
      e := TextOfPiece(text, p, begins, lineOf);
    } else if IsWord(text[p.begin]) {
      e := WordOfPiece(text, p, begins, lineOf);
    } else {
      e := SignOfPiece(text, p, begins, lineOf);
    }
  }

  lemma ElementOfPiece(text: string, p: Piece, begins: bool, lineOf: LineReader) returns (e: Element)
    requires IsPiece(text, p, begins, lineOf) && p.kind != Mark
    ensures IsPrintOf(text, p, begins, lineOf, e)
  {
    hide IsLexemeAt, IsDirective, IsCommentAt, StartsAt, IsPrintOf;
    SameCharacters(text[p.begin]);
    if IsSpace(text[p.begin]) {
      e := WhiteOfPiece(text, p, begins, lineOf);
    } else if begins && text[p.begin] == '#' {
      e := DirectiveOfPiece(text, p, lineOf);
    } else if StartsAt(text, p.begin, "//") || StartsAt(text, p.begin, "/*") {
      e := RemarkOfPiece(text, p, begins, lineOf);
    } else {
      e := LexemeOfPiece(text, p, begins, lineOf);
    }
  }

  lemma WhiteOfPiece(text: string, p: Piece, begins: bool, lineOf: LineReader) returns (e: Element)
    requires p.begin < p.end <= |text| && p.kind == Blank && p.end == p.begin + 1 && IsBlank(text[p.begin])
    ensures IsPrintOf(text, p, begins, lineOf, e)
  {
    e := White(text[p.begin]);
    assert text[p.begin..p.end] == [text[p.begin]];
  }

  /** From any piece of a lexing on, the text is printed elements that stand apart. */
  lemma {:induction false} ElementsFrom(text: string, pieces: seq<Piece>, k: nat, lineOf: LineReader)
      returns (es: seq<Element>)
    requires IsLexing(text, pieces, lineOf) && k <= |pieces| && EndOf(pieces[..k]) <= |text|
    requires forall j :: k <= j < |pieces| ==> pieces[j].kind != Mark
    ensures AreElements(es, lineOf) && text[EndOf(pieces[..k])..] == Printed(es)
    ensures AreApart(es, IsLineStart(text, pieces[..k], EndOf(pieces[..k])), lineOf)
    ensures PiecesOf(es, EndOf(pieces[..k]), lineOf) == pieces[k..]
    decreases |pieces| - k
  {
    hide IsPiece, IsLineStart, IsRow, KindOf, Spelled, IsElement, StandsBefore, StartsLine;
    if k == |pieces| {
      assert pieces[..k] == pieces;
      es := [];
    } else {
      var row, p := pieces[..k], pieces[k];
      PieceOfRow(text, pieces, k, lineOf);
      RowTo(text, pieces, k, lineOf);
      var begins := IsLineStart(text, row, p.begin);
      var e := ElementOfPiece(text, p, begins, lineOf);
      assert pieces[..k + 1] == row + [p];
      var others := ElementsFrom(text, pieces, k + 1, lineOf);
      es := [e] + others;
      assert es[1..] == others;
      Suffix(text, p.begin, p.end);
      SomethingSpelled(e, lineOf);
      StartsAsPrinted(text, row, e, Printed(others), lineOf);
      assert pieces[k..] == [p] + pieces[k + 1..];
    }
  }

  lemma RowTo(text: string, pieces: seq<Piece>, k: nat, lineOf: LineReader)
    requires IsRow(text, pieces, lineOf) && k <= |pieces|
    ensures IsRow(text, pieces[..k], lineOf)
  {
    hide IsPiece, IsLineStart;
    forall j | 0 <= j < k
      ensures IsPieceOf(text, pieces[..k], j, lineOf)
    {
      assert IsPieceOf(text, pieces, j, lineOf);
      assert pieces[..k][..j] == pieces[..j];
    }
  }

  lemma MarkStands(text: string, p: Piece, begins: bool, lineOf: LineReader)
    requires IsPiece(text, p, begins, lineOf) && p.kind == Mark
    ensures p == Piece(Mark, 0, 3) && StartsAt(text, 0, MARK)
  {
    hide IsLineEnd, IsFirst, IsRawLiteral, IsQuotedLiteral, IsLongestWord, QuoteAt, StartsAt, IsFirstWord, KindOfWord;
  }

  /** The mark can only come first. */
  lemma MarkIsFirst(text: string, pieces: seq<Piece>, k: nat, lineOf: LineReader)
    requires IsRow(text, pieces, lineOf) && k < |pieces| && pieces[k].kind == Mark
    ensures k == 0 && pieces[0] == Piece(Mark, 0, 3) && StartsAt(text, 0, MARK)
  {
    hide IsLineStart, IsRow, StartsAt, IsPiece;
    PieceOfRow(text, pieces, k, lineOf);
    if k > 0 {
      PieceOfRow(text, pieces, k - 1, lineOf);
      assert pieces[..k][|pieces[..k]| - 1] == pieces[k - 1];
    }
    MarkStands(text, pieces[k], IsLineStart(text, pieces[..k], pieces[k].begin), lineOf);
  }

  /** A text is lexed exactly when it is printed elements that stand apart. */
  lemma LexedIsPrinted(text: string, pieces: seq<Piece>, lineOf: LineReader) returns (marked: bool, es: seq<Element>)
    requires IsLexing(text, pieces, lineOf)
    ensures IsSheet(text, marked, es, lineOf) && AreElements(es, lineOf) && pieces == RowOf(marked, es, lineOf)
  {
    hide IsPiece, IsLineStart, IsRow, AreApart;
    marked := StartsAt(text, 0, MARK);
    var first := if marked then 1 else 0;
    StartsWithMark(text, pieces, lineOf);
    forall j | first <= j < |pieces|
      ensures pieces[j].kind != Mark
    {
      if pieces[j].kind == Mark {
        MarkIsFirst(text, pieces, j, lineOf);
      }
    }
    es := ElementsFrom(text, pieces, first, lineOf);
    LineStartsFirst(text, pieces[..first], lineOf);
    assert pieces == pieces[..first] + pieces[first..];
    Suffix(text, 0, |Lead(marked)|);
  }

  lemma StartsWithMark(text: string, pieces: seq<Piece>, lineOf: LineReader)
    requires IsLexing(text, pieces, lineOf)
    ensures StartsAt(text, 0, MARK) ==> pieces != [] && pieces[0] == Piece(Mark, 0, 3) && pieces[..1] == [pieces[0]]
  {
    hide IsRow, IsDirective, IsLexemeAt, IsCommentAt;
    if StartsAt(text, 0, MARK) {
      StartsWithFirst(text, MARK);
      assert pieces != [];
      PieceOfRow(text, pieces, 0, lineOf);
      assert pieces[..0] == [];
    }
  }

  lemma LineStartsFirst(text: string, row: seq<Piece>, lineOf: LineReader)
    requires row == [] || (row == [Piece(Mark, 0, 3)] && 3 <= |text|)
    ensures IsLineStart(text, row, EndOf(row))
  {
  }

  /** The lexer gets through a text exactly when it is printed so; else there is no lexing of it. */
  lemma LexedExactlyWhenPrinted(text: string, lineOf: LineReader, r: Result<Lexed, LexError>, pieces: seq<Piece>)
    requires IsAnswer(text, lineOf, r, pieces)
    ensures r.Ok? || r == Err(NoLineInformation) <==> exists marked, es :: IsSheet(text, marked, es, lineOf)
  {
    hide IsLexing, IsSheet, IsRow;
    if r.Ok? || r == Err(NoLineInformation) {
      var marked, es := LexedIsPrinted(text, pieces, lineOf);
    }
    if marked, es :| IsSheet(text, marked, es, lineOf) {
      LexGivesPrinted(text, marked, es, lineOf, r, pieces);
    }
  }

  /** Lines are counted by line feeds and by nothing else. */
  lemma {:induction false} LinesAreLineFeeds(text: string, i: nat, j: nat)
    requires i <= j <= |text|
    ensures Newlines(text, i, j) == multiset(text[i..j])['\n']
    decreases j - i
  {
    if i < j {
      LinesAreLineFeeds(text, i, j - 1);
      assert text[i..j] == text[i..j - 1] + [text[j - 1]];
    }
  }
}
