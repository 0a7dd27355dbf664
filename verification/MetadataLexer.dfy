/**
 The lexer for preprocessed source: line directives, comments and literals are told from everything that
 can be an attribute, and every token gets the line the directives give it.
 */
module MetadataLexer {
  import opened Bytes
  import opened AttributeGrammar
  import opened Decimals

  /** What a `#line` directive says, or nothing when it is malformed: `std::istringstream` and the file system decide. */
  type LineReader = string -> Option<(U32, string)>

  /** The byte order mark of UTF-8. */
  const MARK := [0xef as char, 0xbb as char, 0xbf as char]

  // Characters

  predicate IsSpace(c: char) {
    c == ' ' || '\t' <= c <= '\r'
  }

  predicate IsWord(c: char) {
    IsDigit(c) || 'a' <= c <= 'z' || 'A' <= c <= 'Z' || c == '_' || c as nat >= 128
  }

  predicate StartsAt(text: string, i: nat, part: string) {
    i + |part| <= |text| && text[i..i + |part|] == part
  }

  /** The part is at `at`, and nowhere from `from` up to there. */
  predicate IsFirst(text: string, part: string, from: nat, at: nat) {
    from <= at && StartsAt(text, at, part) && forall k: nat :: from <= k < at ==> !StartsAt(text, k, part)
  }

  method FindFirst(text: string, part: string, from: nat) returns (at: Option<nat>)
    ensures at.Some? ==> IsFirst(text, part, from, at.value)
    ensures at.None? ==> forall k: nat :: from <= k ==> !StartsAt(text, k, part)
  {
    var k := from;
    while k + |part| <= |text|
      invariant from <= k && forall j: nat :: from <= j < k ==> !StartsAt(text, j, part)
      decreases |text| - k
    {
      if text[k..k + |part|] == part {
        return Some(k);
      }
      k := k + 1;
    }
    return None;
  }

  /** The number of line ends in `[i, j)`. */
  function Newlines(text: string, i: nat, j: nat): nat
    requires i <= j <= |text|
    decreases j - i
  {
    if i == j then 0 else Newlines(text, i, j - 1) + if text[j - 1] == '\n' then 1 else 0
  }

  lemma {:induction false} NewlinesAdd(text: string, i: nat, j: nat, k: nat)
    requires i <= j <= k <= |text|
    ensures Newlines(text, i, k) == Newlines(text, i, j) + Newlines(text, j, k)
    decreases k - j
  {
    if j < k {
      NewlinesAdd(text, i, j, k - 1);
    }
  }

  // Pieces: what the text is made of

  datatype PieceKind = Blank | Mark | LineChange(number: U32, file: string) | Pragma | Remark | Lexeme(token: TokenKind)

  datatype Piece = Piece(kind: PieceKind, begin: nat, end: nat)

  /** The end of the line that `i` is on, without the character that ends it. */
  ghost predicate IsLineEnd(text: string, i: nat, stop: nat) {
    i <= stop <= |text| && (forall k :: i <= k < stop ==> text[k] != '\n') && (stop < |text| ==> text[stop] == '\n')
  }

  /** The first word of a line is `[a, b)`; on a blank line it is empty. */
  ghost predicate IsFirstWord(line: string, a: nat, b: nat) {
    && a <= b <= |line| && (forall k :: 0 <= k < a ==> IsSpace(line[k])) && (a < |line| ==> !IsSpace(line[a]))
    && (forall k :: a <= k < b ==> !IsSpace(line[k])) && (b < |line| ==> IsSpace(line[b]))
  }

  ghost predicate IsDirective(text: string, p: Piece, lineOf: LineReader) {
    exists stop: nat, a: nat, b: nat :: IsDirectiveTo(text, p, stop, a, b, lineOf)
  }

  ghost predicate IsDirectiveTo(text: string, p: Piece, stop: nat, a: nat, b: nat, lineOf: LineReader) {
    && IsLineEnd(text, p.begin, stop) && p.begin < stop && p.end == (if stop < |text| then stop + 1 else stop)
    && var line := text[p.begin + 1..stop];
    && IsFirstWord(line, a, b)
    && if line[a..b] == "line" then
         var said := lineOf(line[b..]);
         said.Some? && p.kind == LineChange(said.value.0, said.value.1)
       else
         line[a..b] == "pragma" && p.kind == Pragma
  }

  /** Where a literal that starts at `i` has its quote, or its `R`. */
  function QuoteAt(text: string, i: nat): (quote: nat)
    requires i < |text|
    ensures i <= quote <= |text|
  {
    if StartsAt(text, i, "u8") then i + 2
    else if text[i] == 'u' || text[i] == 'U' || text[i] == 'L' then i + 1
    else i
  }

  predicate IsRawStart(text: string, quote: nat) {
    quote + 1 < |text| && text[quote] == 'R' && text[quote + 1] == '"'
  }

  predicate IsQuote(text: string, quote: nat) {
    quote < |text| && (text[quote] == '"' || text[quote] == '\'')
  }

  /** A raw literal ends at the first repetition of its delimiter, which is at most sixteen characters long. */
  ghost predicate IsRawLiteral(text: string, quote: nat, end: nat)
    requires quote + 2 <= |text|
  {
    exists open: nat, close: nat :: IsRawLiteralTo(text, quote, open, close, end)
  }

  ghost predicate IsRawLiteralTo(text: string, quote: nat, open: nat, close: nat, end: nat)
    requires quote + 2 <= |text|
  {
    && IsFirst(text, "(", quote + 2, open) && open <= quote + 18 && open < |text|
    && var closing := ")" + text[quote + 2..open] + "\"";
    IsFirst(text, closing, open + 1, close) && end == close + |closing|
  }

  /** The character at `i` stands behind a backslash that is itself not escaped. */
  predicate IsEscaped(text: string, from: nat, i: nat)
    requires i <= |text|
    decreases i
  {
    from < i && text[i - 1] == '\\' && !IsEscaped(text, from, i - 1)
  }

  /** A literal ends behind the first delimiter that is not escaped. */
  ghost predicate IsQuotedLiteral(text: string, quote: nat, end: nat)
    requires quote < |text|
  {
    && quote + 2 <= end <= |text| && text[end - 1] == text[quote] && !IsEscaped(text, quote + 1, end - 1)
    && forall k :: quote < k < end - 1 && text[k] == text[quote] ==> IsEscaped(text, quote + 1, k)
  }

  /** The character at `i` goes on with the word or the number that starts at `begin`. */
  predicate Extends(text: string, begin: nat, i: nat)
    requires begin < i < |text|
  {
    || IsWord(text[i])
    || (IsDigit(text[begin])
        && (|| text[i] == '.' || text[i] == '\''
            || ((text[i] == '+' || text[i] == '-') && text[i - 1] in {'e', 'E', 'p', 'P'})))
  }

  ghost predicate IsLongestWord(text: string, begin: nat, end: nat) {
    && begin < end <= |text|
    && (forall k :: begin < k < end ==> Extends(text, begin, k))
    && (end < |text| ==> !Extends(text, begin, end))
  }

  function KindOfWord(text: string, begin: nat, end: nat): TokenKind
    requires begin < end <= |text|
  {
    if text[begin..end] == "using" then Keyword else if IsDigit(text[begin]) then Literal else Identifier
  }

  predicate IsPair(text: string, i: nat) {
    i + 2 <= |text| && text[i..i + 2] in {"::", "->", "&&", "||", "==", "!=", "<=", ">=", "<<", ">>", "++", "--"}
  }

  /** To the end of the line, or to the first closing behind the opening. */
  ghost predicate IsCommentAt(text: string, p: Piece)
    requires p.begin < p.end <= |text|
  {
    && p.kind == Remark
    && if StartsAt(text, p.begin, "//") then IsLineEnd(text, p.begin, p.end)
       else p.end >= 2 && IsFirst(text, "*/", p.begin + 2, p.end - 2)
  }

  ghost predicate IsLexemeAt(text: string, p: Piece)
    requires p.begin < p.end <= |text|
  {
    var i := p.begin;
    if IsRawStart(text, QuoteAt(text, i)) then
      p.kind == Lexeme(Literal) && IsRawLiteral(text, QuoteAt(text, i), p.end)
    else if IsQuote(text, QuoteAt(text, i)) then
      p.kind == Lexeme(Literal) && IsQuotedLiteral(text, QuoteAt(text, i), p.end)
    else if IsWord(text[i]) then
      p.kind == Lexeme(KindOfWord(text, i, p.end)) && IsLongestWord(text, i, p.end)
    else
      p.kind == Lexeme(Punctuation) && p.end == if IsPair(text, i) then i + 2 else i + 1
  }

  /** The piece that starts where `p` starts is `p`. */
  ghost predicate IsPiece(text: string, p: Piece, lineStart: bool, lineOf: LineReader) {
    && p.begin < p.end <= |text|
    && var i, c := p.begin, text[p.begin];
    if IsSpace(c) then p.kind == Blank && p.end == i + 1
    else if i == 0 && StartsAt(text, 0, MARK) then p.kind == Mark && p.end == 3
    else if lineStart && c == '#' then IsDirective(text, p, lineOf)
    else if StartsAt(text, i, "//") || StartsAt(text, i, "/*") then IsCommentAt(text, p)
    else IsLexemeAt(text, p)
  }

  datatype LexError = InvalidLine | NotPreprocessed | UnterminatedComment | InvalidRawLiteral | UnterminatedRawLiteral
                    | UnterminatedLiteral | NoLineInformation

  // Reading one piece

  method FindLineEnd(text: string, i: nat) returns (stop: nat)
    requires i <= |text|
    ensures IsLineEnd(text, i, stop)
  {
    stop := i;
    while stop < |text| && text[stop] != '\n'
      invariant i <= stop <= |text| && forall k :: i <= k < stop ==> text[k] != '\n'
    {
      stop := stop + 1;
    }
  }

  method FirstWord(line: string) returns (a: nat, b: nat)
    ensures IsFirstWord(line, a, b)
  {
    a := 0;
    while a < |line| && IsSpace(line[a])
      invariant a <= |line| && forall k :: 0 <= k < a ==> IsSpace(line[k])
    {
      a := a + 1;
    }
    b := a;
    while b < |line| && !IsSpace(line[b])
      invariant a <= b <= |line| && forall k :: a <= k < b ==> !IsSpace(line[k])
    {
      b := b + 1;
    }
  }

  lemma LineEndIsUnique(text: string, i: nat, s: nat, t: nat)
    requires IsLineEnd(text, i, s) && IsLineEnd(text, i, t)
    ensures s == t
  {
  }

  lemma FirstWordIsUnique(line: string, a: nat, b: nat, c: nat, d: nat)
    requires IsFirstWord(line, a, b) && IsFirstWord(line, c, d)
    ensures a == c && b == d
  {
  }

  lemma FirstIsUnique(text: string, part: string, from: nat, x: nat, y: nat)
    requires IsFirst(text, part, from, x) && IsFirst(text, part, from, y)
    ensures x == y
  {
  }

  method ReadDirective(text: string, i: nat, lineOf: LineReader) returns (r: Result<Piece, LexError>)
    requires i < |text| && text[i] == '#'
    ensures r.Ok? ==> r.value.begin == i && i < r.value.end <= |text| && IsDirective(text, r.value, lineOf)
    ensures r != Err(NoLineInformation)
    ensures r.Err? ==> forall p: Piece :: p.begin == i ==> !IsDirective(text, p, lineOf)
  {
    hide IsLineEnd, IsFirstWord;
    var stop := FindLineEnd(text, i);
    HashInLine(text, i, stop);
    var line := text[i + 1..stop];
    var a, b := FirstWord(line);
    var end := if stop < |text| then stop + 1 else stop;
    OnlyDirective(text, i, stop, a, b, lineOf);
    if line[a..b] == "line" {
      var said := lineOf(line[b..]);
      if said.None? {
        return Err(InvalidLine);
      }
      var p := Piece(LineChange(said.value.0, said.value.1), i, end);
      assert IsDirectiveTo(text, p, stop, a, b, lineOf);
      return Ok(p);
    } else if line[a..b] != "pragma" {
      return Err(NotPreprocessed);
    } else {
      var p := Piece(Pragma, i, end);
      assert IsDirectiveTo(text, p, stop, a, b, lineOf);
      return Ok(p);
    }
  }

  lemma HashInLine(text: string, i: nat, stop: nat)
    requires i < |text| && text[i] == '#' && IsLineEnd(text, i, stop)
    ensures i < stop <= |text|
  {
  }

  /** A directive is told by its own line. */
  lemma OnlyDirective(text: string, i: nat, stop: nat, a: nat, b: nat, lineOf: LineReader)
    requires i < |text| && text[i] == '#' && IsLineEnd(text, i, stop) && IsFirstWord(text[i + 1..stop], a, b)
    ensures forall p: Piece :: p.begin == i && IsDirective(text, p, lineOf) ==> IsDirectiveTo(text, p, stop, a, b, lineOf)
  {
    forall p: Piece | p.begin == i && IsDirective(text, p, lineOf)
      ensures IsDirectiveTo(text, p, stop, a, b, lineOf)
    {
      var s: nat, c: nat, d: nat :| IsDirectiveTo(text, p, s, c, d, lineOf);
      LineEndIsUnique(text, i, s, stop);
      FirstWordIsUnique(text[i + 1..stop], a, b, c, d);
    }
  }

  method ReadRawLiteral(text: string, quote: nat) returns (r: Result<nat, LexError>)
    requires IsRawStart(text, quote)
    ensures r.Ok? ==> quote < r.value <= |text| && IsRawLiteral(text, quote, r.value)
    ensures r != Err(NoLineInformation)
    ensures r.Err? ==> forall end: nat :: !IsRawLiteral(text, quote, end)
  {
    var open := FindFirst(text, "(", quote + 2);
    if open.None? || open.value - quote > 18 {
      if open.Some? {
        OnlyOpening(text, quote, open.value);
      }
      return Err(InvalidRawLiteral);
    }
    OnlyOpening(text, quote, open.value);
    var closing := ")" + text[quote + 2..open.value] + "\"";
    var close := FindFirst(text, closing, open.value + 1);
    if close.None? {
      return Err(UnterminatedRawLiteral);
    }
    assert IsRawLiteralTo(text, quote, open.value, close.value, close.value + |closing|);
    return Ok(close.value + |closing|);
  }

  lemma OnlyOpening(text: string, quote: nat, open: nat)
    requires quote + 2 <= |text| && IsFirst(text, "(", quote + 2, open)
    ensures forall o: nat, c: nat, end: nat :: IsRawLiteralTo(text, quote, o, c, end) ==> o == open
  {
    forall o: nat, c: nat, end: nat | IsRawLiteralTo(text, quote, o, c, end)
      ensures o == open
    {
      FirstIsUnique(text, "(", quote + 2, o, open);
    }
  }

  method ReadQuotedLiteral(text: string, quote: nat) returns (r: Result<nat, LexError>)
    requires IsQuote(text, quote)
    ensures r.Ok? ==> IsQuotedLiteral(text, quote, r.value)
    ensures r != Err(NoLineInformation)
    ensures r.Err? ==> forall end: nat :: !IsQuotedLiteral(text, quote, end)
  {
    var i := quote + 1;
    while i < |text|
      invariant quote < i <= |text|
      invariant i < |text| ==> !IsEscaped(text, quote + 1, i)
      invariant forall k :: quote < k < i && text[k] == text[quote] ==> IsEscaped(text, quote + 1, k)
    {
      if text[i] == '\\' {
        i := if i + 2 < |text| then i + 2 else |text|;
        continue;
      }
      i := i + 1;
      if text[i - 1] == text[quote] {
        return Ok(i);
      }
    }
    return Err(UnterminatedLiteral);
  }

  method ReadWord(text: string, begin: nat) returns (end: nat)
    requires begin < |text| && IsWord(text[begin])
    ensures IsLongestWord(text, begin, end)
  {
    end := begin + 1;
    while end < |text| && Extends(text, begin, end)
      invariant begin < end <= |text| && forall k :: begin < k < end ==> Extends(text, begin, k)
    {
      end := end + 1;
    }
  }

  /** One round of the lexer: the piece at `i`, or why there is none. */
  method NextPiece(text: string, i: nat, lineStart: bool, lineOf: LineReader) returns (r: Result<Piece, LexError>)
    requires i < |text|
    ensures r.Ok? ==> r.value.begin == i && IsPiece(text, r.value, lineStart, lineOf)
    ensures r != Err(NoLineInformation)
    ensures r.Err? ==> forall p: Piece :: p.begin == i ==> !IsPiece(text, p, lineStart, lineOf)
  {
    hide IsDirective, IsRawLiteral, IsQuotedLiteral, IsLongestWord, IsLineEnd, IsFirst, IsLexemeAt, IsCommentAt;
    if IsSpace(text[i]) {
      return Ok(Piece(Blank, i, i + 1));
    } else if i == 0 && StartsAt(text, 0, MARK) {
      return Ok(Piece(Mark, 0, 3));
    } else if lineStart && text[i] == '#' {
      r := ReadDirective(text, i, lineOf);
    } else if StartsAt(text, i, "//") || StartsAt(text, i, "/*") {
      r := ReadComment(text, i);
    } else {
      r := ReadLexeme(text, i);
    }
  }

  method ReadComment(text: string, i: nat) returns (r: Result<Piece, LexError>)
    requires StartsAt(text, i, "//") || StartsAt(text, i, "/*")
    ensures r.Ok? ==> r.value.begin == i && i < r.value.end <= |text| && IsCommentAt(text, r.value)
    ensures r != Err(NoLineInformation)
    ensures r.Err? ==> forall p: Piece :: p.begin == i && i < p.end <= |text| ==> !IsCommentAt(text, p)
  {
    hide IsLineEnd, IsFirst;
    if StartsAt(text, i, "//") {
      var end := FindLineEnd(text, i);
      BehindSlashes(text, i, end);
      return Ok(Piece(Remark, i, end));
    }
    var at := FindFirst(text, "*/", i + 2);
    if at.None? {
      NeverFirst(text, "*/", i + 2);
      return Err(UnterminatedComment);
    }
    FirstBounds(text, "*/", i + 2, at.value);
    return Ok(Piece(Remark, i, at.value + 2));
  }

  method ReadLexeme(text: string, i: nat) returns (r: Result<Piece, LexError>)
    requires i < |text|
    ensures r.Ok? ==> r.value.begin == i && i < r.value.end <= |text| && IsLexemeAt(text, r.value)
    ensures r != Err(NoLineInformation)
    ensures r.Err? ==> forall p: Piece :: p.begin == i && i < p.end <= |text| ==> !IsLexemeAt(text, p)
  {
    hide IsRawLiteral, IsQuotedLiteral, IsLongestWord;
    var quote := QuoteAt(text, i);
    if IsRawStart(text, quote) {
      var end :- ReadRawLiteral(text, quote);
      return Ok(Piece(Lexeme(Literal), i, end));
    } else if IsQuote(text, quote) {
      var end :- ReadQuotedLiteral(text, quote);
      QuotedBounds(text, quote, end);
      return Ok(Piece(Lexeme(Literal), i, end));
    } else if IsWord(text[i]) {
      var end := ReadWord(text, i);
      WordBounds(text, i, end);
      return Ok(Piece(Lexeme(KindOfWord(text, i, end)), i, end));
    } else {
      return Ok(Piece(Lexeme(Punctuation), i, if IsPair(text, i) then i + 2 else i + 1));
    }
  }

  lemma BehindSlashes(text: string, i: nat, end: nat)
    requires StartsAt(text, i, "//") && IsLineEnd(text, i, end)
    ensures i < end <= |text|
  {
    assert text[i] == text[i..i + 2][0];
  }

  lemma NeverFirst(text: string, part: string, from: nat)
    requires forall k: nat :: from <= k ==> !StartsAt(text, k, part)
    ensures forall at: nat :: !IsFirst(text, part, from, at)
  {
  }

  lemma FirstBounds(text: string, part: string, from: nat, at: nat)
    requires IsFirst(text, part, from, at)
    ensures from <= at && at + |part| <= |text|
  {
  }

  lemma QuotedBounds(text: string, quote: nat, end: nat)
    requires quote < |text| && IsQuotedLiteral(text, quote, end)
    ensures quote < end <= |text|
  {
  }

  lemma WordBounds(text: string, begin: nat, end: nat)
    requires IsLongestWord(text, begin, end)
    ensures begin < end <= |text|
  {
  }

  // At a place there is at most one piece

  lemma PieceIsUnique(text: string, p: Piece, q: Piece, lineStart: bool, lineOf: LineReader)
    requires p.begin == q.begin && IsPiece(text, p, lineStart, lineOf) && IsPiece(text, q, lineStart, lineOf)
    ensures p == q
  {
    hide IsDirective, IsRawLiteral, IsQuotedLiteral, IsLongestWord, IsLineEnd, IsFirst;
    var i := p.begin;
    var c, quote := text[i], QuoteAt(text, i);
    if IsSpace(c) || (i == 0 && StartsAt(text, 0, MARK)) {
    } else if lineStart && c == '#' {
      DirectiveIsUnique(text, p, q, lineOf);
    } else if StartsAt(text, i, "//") {
      LineEndIsUnique(text, i, p.end, q.end);
    } else if StartsAt(text, i, "/*") {
      FirstIsUnique(text, "*/", i + 2, p.end - 2, q.end - 2);
    } else if IsRawStart(text, quote) {
      RawLiteralIsUnique(text, quote, p.end, q.end);
    } else if IsQuote(text, quote) {
      QuotedLiteralIsUnique(text, quote, p.end, q.end);
    } else if IsWord(c) {
      LongestWordIsUnique(text, i, p.end, q.end);
    }
  }

  lemma DirectiveIsUnique(text: string, p: Piece, q: Piece, lineOf: LineReader)
    requires p.begin == q.begin < |text| && text[p.begin] == '#'
    requires IsDirective(text, p, lineOf) && IsDirective(text, q, lineOf)
    ensures p == q
  {
    hide IsLineEnd, IsFirstWord;
    var s: nat, a: nat, b: nat :| IsDirectiveTo(text, p, s, a, b, lineOf);
    OnlyDirective(text, p.begin, s, a, b, lineOf);
    assert IsDirectiveTo(text, q, s, a, b, lineOf);
  }

  lemma RawLiteralIsUnique(text: string, quote: nat, end: nat, other: nat)
    requires quote + 2 <= |text| && IsRawLiteral(text, quote, end) && IsRawLiteral(text, quote, other)
    ensures end == other
  {
    var o: nat, c: nat :| IsRawLiteralTo(text, quote, o, c, end);
    var p: nat, d: nat :| IsRawLiteralTo(text, quote, p, d, other);
    OnlyOpening(text, quote, o);
    FirstIsUnique(text, ")" + text[quote + 2..o] + "\"", o + 1, c, d);
  }

  lemma QuotedLiteralIsUnique(text: string, quote: nat, end: nat, other: nat)
    requires quote < |text| && IsQuotedLiteral(text, quote, end) && IsQuotedLiteral(text, quote, other)
    ensures end == other
  {
  }

  lemma LongestWordIsUnique(text: string, begin: nat, end: nat, other: nat)
    requires IsLongestWord(text, begin, end) && IsLongestWord(text, begin, other)
    ensures end == other
  {
  }

  // The text as a row of pieces

  function EndOf(pieces: seq<Piece>): nat {
    if pieces == [] then 0 else pieces[|pieces| - 1].end
  }

  /** Between the start of every comment and token before `i` and `i` itself a line ends. */
  predicate IsLineStart(text: string, pieces: seq<Piece>, i: nat) {
    i <= |text| && forall k :: 0 <= k < |pieces| && (pieces[k].kind == Remark || pieces[k].kind.Lexeme?) ==>
      pieces[k].begin <= i && Newlines(text, pieces[k].begin, i) > 0
  }

  /** Pieces one behind the other from the start of the text, each of which is the piece that starts there. */
  ghost predicate IsRow(text: string, pieces: seq<Piece>, lineOf: LineReader) {
    forall k :: 0 <= k < |pieces| ==> IsPieceOf(text, pieces, k, lineOf)
  }

  ghost predicate IsPieceOf(text: string, pieces: seq<Piece>, k: nat, lineOf: LineReader)
    requires k < |pieces|
  {
    && pieces[k].begin == EndOf(pieces[..k])
    && IsPiece(text, pieces[k], IsLineStart(text, pieces[..k], pieces[k].begin), lineOf)
  }

  /** A row of pieces that covers the text. */
  ghost predicate IsLexing(text: string, pieces: seq<Piece>, lineOf: LineReader) {
    IsRow(text, pieces, lineOf) && EndOf(pieces) == |text|
  }

  lemma RowMore(text: string, pieces: seq<Piece>, p: Piece, lineOf: LineReader)
    requires IsRow(text, pieces, lineOf) && p.begin == EndOf(pieces)
    requires IsPiece(text, p, IsLineStart(text, pieces, p.begin), lineOf)
    ensures IsRow(text, pieces + [p], lineOf) && EndOf(pieces + [p]) == p.end
  {
    hide IsPiece, IsLineStart;
    var more := pieces + [p];
    forall k | 0 <= k < |more|
      ensures IsPieceOf(text, more, k, lineOf)
    {
      if k < |pieces| {
        assert IsPieceOf(text, pieces, k, lineOf);
        assert more[..k] == pieces[..k];
      } else {
        assert more[..k] == pieces;
      }
    }
  }

  /** All rows of one text begin alike. */
  lemma {:induction false} RowsAgree(text: string, a: seq<Piece>, b: seq<Piece>, n: nat, lineOf: LineReader)
    requires IsRow(text, a, lineOf) && IsRow(text, b, lineOf) && n <= |a| && n <= |b|
    ensures a[..n] == b[..n]
  {
    hide IsPiece, IsLineStart;
    if n > 0 {
      RowsAgree(text, a, b, n - 1, lineOf);
      assert IsPieceOf(text, a, n - 1, lineOf) && IsPieceOf(text, b, n - 1, lineOf);
      PieceIsUnique(text, a[n - 1], b[n - 1], IsLineStart(text, a[..n - 1], a[n - 1].begin), lineOf);
      assert a[..n] == a[..n - 1] + [a[n - 1]] && b[..n] == b[..n - 1] + [b[n - 1]];
    }
  }

  /** A text is lexed in one way. */
  lemma LexingIsUnique(text: string, a: seq<Piece>, b: seq<Piece>, lineOf: LineReader)
    requires IsLexing(text, a, lineOf) && IsLexing(text, b, lineOf)
    ensures a == b
  {
    hide IsPiece, IsLineStart;
    var n := if |a| < |b| then |a| else |b|;
    RowsAgree(text, a, b, n, lineOf);
    assert a[..|a|] == a && b[..|b|] == b;
    NoPieceBehind(text, a, n, lineOf);
    NoPieceBehind(text, b, n, lineOf);
  }

  lemma PieceOfRow(text: string, a: seq<Piece>, k: nat, lineOf: LineReader)
    requires IsRow(text, a, lineOf) && k < |a|
    ensures a[k].begin == EndOf(a[..k])
    ensures IsPiece(text, a[k], IsLineStart(text, a[..k], a[k].begin), lineOf)
    ensures a[k].begin < a[k].end <= |text|
  {
    hide IsLineStart;
    assert IsPieceOf(text, a, k, lineOf);
  }

  lemma NoPieceBehind(text: string, a: seq<Piece>, n: nat, lineOf: LineReader)
    requires IsRow(text, a, lineOf) && n <= |a| && EndOf(a[..n]) == |text|
    ensures n == |a|
  {
    hide IsRow;
    if n < |a| {
      PieceOfRow(text, a, n, lineOf);
    }
  }

  /** Where no piece starts behind a row, the text is not lexed at all. */
  lemma StuckIsNoLexing(text: string, row: seq<Piece>, lineOf: LineReader)
    requires IsRow(text, row, lineOf) && EndOf(row) < |text|
    requires forall p: Piece :: p.begin == EndOf(row) ==> !IsPiece(text, p, IsLineStart(text, row, p.begin), lineOf)
    ensures forall pieces :: !IsLexing(text, pieces, lineOf)
  {
    hide IsPiece, IsLineStart, IsRow;
    forall pieces
      ensures !IsLexing(text, pieces, lineOf)
    {
      if IsLexing(text, pieces, lineOf) {
        var n := if |row| < |pieces| then |row| else |pieces|;
        RowsAgree(text, row, pieces, n, lineOf);
        if |row| < |pieces| {
          assert row[..n] == row;
          PieceOfRow(text, pieces, n, lineOf);
        } else {
          assert pieces[..n] == pieces;
          NoPieceBehind(text, row, n, lineOf);
        }
      }
    }
  }
}
