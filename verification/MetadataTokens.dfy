/** The lexer's run over a whole text: its tokens, their lines, and the groups that are scanned from them. */
module MetadataTokens {
  import opened Bytes
  import opened AttributeGrammar
  import opened AttributeScan
  import opened MetadataLexer

  datatype Location = Location(file: string, line: U32)

  datatype Lexed = Lexed(tokens: seq<Token>, locations: seq<Location>)

  const LINES := 0x1_0000_0000

  // Tokens

  predicate AreInside(text: string, pieces: seq<Piece>) {
    forall k :: 0 <= k < |pieces| ==> pieces[k].begin < pieces[k].end <= |text|
  }

  predicate AreInOrder(pieces: seq<Piece>) {
    forall k, l :: 0 <= k < l < |pieces| ==> pieces[k].end <= pieces[l].begin
  }

  function TokenOf(text: string, p: Piece): Token
    requires p.kind.Lexeme? && p.begin < p.end <= |text|
  {
    Token(p.kind.token, text[p.begin..p.end], p.begin, p.end)
  }

  /** The tokens are the pieces that are neither space, nor directive, nor comment. */
  function TokensOf(text: string, pieces: seq<Piece>): seq<Token>
    requires AreInside(text, pieces)
  {
    if pieces == [] then []
    else
      var front, last := pieces[..|pieces| - 1], pieces[|pieces| - 1];
      TokensOf(text, front) + if last.kind.Lexeme? then [TokenOf(text, last)] else []
  }

  /** The piece that a token is. */
  lemma {:induction false} PieceOfToken(text: string, pieces: seq<Piece>, k: nat) returns (at: nat)
    requires AreInside(text, pieces) && k < |TokensOf(text, pieces)|
    ensures at < |pieces| && pieces[at].kind.Lexeme? && TokensOf(text, pieces)[k] == TokenOf(text, pieces[at])
  {
    var front := pieces[..|pieces| - 1];
    if k < |TokensOf(text, front)| {
      at := PieceOfToken(text, front, k);
      assert front[at] == pieces[at];
    } else {
      at := |pieces| - 1;
    }
  }

  lemma {:induction false} TokensAreSorted(text: string, pieces: seq<Piece>)
    requires AreInside(text, pieces) && AreInOrder(pieces)
    ensures IsSorted(TokensOf(text, pieces))
    ensures pieces != [] ==> forall t :: t in TokensOf(text, pieces) ==> t.end <= pieces[|pieces| - 1].end
    decreases |pieces|
  {
    if pieces != [] {
      var front, last := pieces[..|pieces| - 1], pieces[|pieces| - 1];
      TokensAreSorted(text, front);
      forall t | t in TokensOf(text, front)
        ensures t.end <= last.begin
      {
        assert front != [] && front[|front| - 1] == pieces[|front| - 1];
      }
    }
  }

  lemma {:induction false} RowIsInOrder(text: string, pieces: seq<Piece>, lineOf: LineReader)
    requires IsRow(text, pieces, lineOf)
    ensures AreInside(text, pieces) && AreInOrder(pieces)
  {
    hide IsPiece, IsRow;
    forall k | 0 <= k < |pieces|
      ensures pieces[k].begin < pieces[k].end <= |text|
    {
      PieceOfRow(text, pieces, k, lineOf);
    }
    forall k, l | 0 <= k < l < |pieces|
      ensures pieces[k].end <= pieces[l].begin
    {
      RowGrows(text, pieces, k, l, lineOf);
    }
  }

  lemma {:induction false} RowGrows(text: string, pieces: seq<Piece>, k: nat, l: nat, lineOf: LineReader)
    requires IsRow(text, pieces, lineOf) && k < l < |pieces|
    ensures pieces[k].end <= pieces[l].begin
    decreases l
  {
    hide IsPiece, IsRow;
    PieceOfRow(text, pieces, l, lineOf);
    PieceOfRow(text, pieces, l - 1, lineOf);
    if k < l - 1 {
      RowGrows(text, pieces, k, l - 1, lineOf);
    }
  }

  // Lines

  /** The directive `d` is the last one before `i` that sets the line. */
  predicate IsLastChange(pieces: seq<Piece>, d: nat, i: nat) {
    && d < |pieces| && pieces[d].kind.LineChange? && pieces[d].begin < i
    && forall e :: d < e < |pieces| && pieces[e].kind.LineChange? ==> i <= pieces[e].begin
  }

  predicate IsAfter(text: string, change: Piece, i: nat, at: Location)
    requires i <= |text|
  {
    && change.kind.LineChange? && change.end <= i
    && at == Location(change.kind.file, (change.kind.number + Newlines(text, change.end, i)) % LINES)
  }

  /** The line is that of the last directive and the line ends since; without one the file has no name. */
  ghost predicate IsLocation(text: string, pieces: seq<Piece>, i: nat, at: Location)
    requires i <= |text|
  {
    || (exists d: nat :: IsLastChange(pieces, d, i) && IsAfter(text, pieces[d], i, at))
    || (at == Location("", (1 + Newlines(text, 0, i)) % LINES)
        && forall e :: 0 <= e < |pieces| && pieces[e].kind.LineChange? ==> i <= pieces[e].begin)
  }

  function LastFile(pieces: seq<Piece>): string {
    if pieces == [] then ""
    else if pieces[|pieces| - 1].kind.LineChange? then pieces[|pieces| - 1].kind.file
    else LastFile(pieces[..|pieces| - 1])
  }

  lemma LocationStays(text: string, pieces: seq<Piece>, p: Piece, i: nat, at: Location)
    requires i <= |text| && i <= p.begin && IsLocation(text, pieces, i, at)
    ensures IsLocation(text, pieces + [p], i, at)
  {
    hide Newlines;
    var more := pieces + [p];
    if d: nat :| IsLastChange(pieces, d, i) && IsAfter(text, pieces[d], i, at) {
      assert more[d] == pieces[d];
      assert IsLastChange(more, d, i) && IsAfter(text, more[d], i, at);
    }
  }

  /** Behind a piece that sets no line, the line has grown by the line ends in the piece. */
  lemma LocationGoesOn(text: string, pieces: seq<Piece>, p: Piece, at: Location)
    requires p.begin < p.end <= |text| && !p.kind.LineChange? && EndOf(pieces) == p.begin && AreInside(text, pieces)
    requires AreInOrder(pieces) && IsLocation(text, pieces, p.begin, at)
    ensures IsLocation(text, pieces + [p], p.end, Further(text, at, p.begin, p.end))
  {
    hide Newlines, IsAfter, Further;
    var more := pieces + [p];
    var next := Further(text, at, p.begin, p.end);
    NoneBehind(text, pieces, p.begin);
    if d: nat :| IsLastChange(pieces, d, p.begin) && IsAfter(text, pieces[d], p.begin, at) {
      AfterGoesOn(text, pieces[d], p.begin, p.end, at);
      assert more[d] == pieces[d];
      assert IsLastChange(more, d, p.end) && IsAfter(text, more[d], p.end, next);
    } else {
      UnnamedGoesOn(text, p.begin, p.end);
    }
  }

  /** A place further on in the text, with no directive between. */
  function Further(text: string, at: Location, i: nat, j: nat): Location
    requires i <= j <= |text|
  {
    Location(at.file, (at.line + Newlines(text, i, j)) % LINES)
  }

  lemma LineGoesOn(text: string, number: nat, from: nat, i: nat, j: nat)
    requires from <= i <= j <= |text|
    ensures ((number + Newlines(text, from, i)) % LINES + Newlines(text, i, j)) % LINES
         == (number + Newlines(text, from, j)) % LINES
  {
    NewlinesAdd(text, from, i, j);
    Wrapped(number + Newlines(text, from, i), Newlines(text, i, j));
  }

  lemma AfterGoesOn(text: string, change: Piece, i: nat, j: nat, at: Location)
    requires i <= j <= |text| && IsAfter(text, change, i, at)
    ensures IsAfter(text, change, j, Further(text, at, i, j))
  {
    hide Newlines;
    LineGoesOn(text, change.kind.number, change.end, i, j);
  }

  lemma UnnamedGoesOn(text: string, i: nat, j: nat)
    requires i <= j <= |text|
    ensures Further(text, Location("", (1 + Newlines(text, 0, i)) % LINES), i, j)
         == Location("", (1 + Newlines(text, 0, j)) % LINES)
  {
    hide Newlines;
    LineGoesOn(text, 1, 0, i, j);
  }

  lemma Wrapped(n: nat, more: nat)
    ensures (n % LINES + more) % LINES == (n + more) % LINES
  {
    assert n == LINES * (n / LINES) + n % LINES;
  }

  lemma NoneBehind(text: string, pieces: seq<Piece>, i: nat)
    requires EndOf(pieces) == i && AreInside(text, pieces) && AreInOrder(pieces)
    ensures forall e :: 0 <= e < |pieces| ==> pieces[e].begin < i
  {
    forall e | 0 <= e < |pieces|
      ensures pieces[e].begin < i
    {
      assert pieces[e].begin < pieces[e].end;
      assert e < |pieces| - 1 ==> pieces[e].end <= pieces[|pieces| - 1].begin;
    }
  }

  lemma LocationSet(text: string, pieces: seq<Piece>, p: Piece)
    requires p.begin < p.end <= |text| && p.kind.LineChange?
    ensures IsLocation(text, pieces + [p], p.end, Location(p.kind.file, p.kind.number))
  {
    var more := pieces + [p];
    assert IsLastChange(more, |pieces|, p.end);
    assert IsAfter(text, more[|pieces|], p.end, Location(p.kind.file, p.kind.number));
  }

  // Line starts

  lemma LineStartGoesOn(text: string, pieces: seq<Piece>, p: Piece)
    requires p.begin < p.end <= |text| && EndOf(pieces) == p.begin && AreInside(text, pieces) && AreInOrder(pieces)
    ensures IsLineStart(text, pieces + [p], p.end) <==>
            Newlines(text, p.begin, p.end) > 0
            || (p.kind != Remark && !p.kind.Lexeme? && IsLineStart(text, pieces, p.begin))
  {
    hide Newlines;
    var more := pieces + [p];
    NoneBehind(text, pieces, p.begin);
    forall k | 0 <= k < |pieces|
      ensures more[k] == pieces[k]
      ensures Newlines(text, more[k].begin, p.end)
           == Newlines(text, more[k].begin, p.begin) + Newlines(text, p.begin, p.end)
    {
      NewlinesAdd(text, pieces[k].begin, p.begin, p.end);
    }
    assert more[|pieces|] == p;
    if IsLineStart(text, more, p.end) && Newlines(text, p.begin, p.end) == 0 {
      assert p.kind != Remark && !p.kind.Lexeme?;
      forall k | 0 <= k < |pieces| && (pieces[k].kind == Remark || pieces[k].kind.Lexeme?)
        ensures Newlines(text, pieces[k].begin, p.begin) > 0
      {
        assert more[k] == pieces[k];
      }
    }
  }

  // The run

  /** Steps over `[begin, end)`: every line end counts, and the last makes the next character start a line. */
  method Advance(text: string, begin: nat, end: nat, line: U32, lineStart: bool) returns (next: U32, starts: bool)
    requires begin <= end <= |text|
    ensures next == (line + Newlines(text, begin, end)) % LINES
    ensures starts <==> lineStart || Newlines(text, begin, end) > 0
  {
    next, starts := line, lineStart;
    for i := begin to end
      invariant next == (line + Newlines(text, begin, i)) % LINES
      invariant starts <==> lineStart || Newlines(text, begin, i) > 0
    {
      Wrapped(line + Newlines(text, begin, i), 1);
      if text[i] == '\n' {
        next, starts := (next + 1) % LINES, true;
      }
    }
  }

  /** What is known of the tokens so far. */
  ghost predicate Located(text: string, pieces: seq<Piece>, lexed: Lexed)
    requires AreInside(text, pieces)
  {
    && lexed.tokens == TokensOf(text, pieces) && |lexed.locations| == |lexed.tokens|
    && forall k :: 0 <= k < |lexed.tokens| ==>
         lexed.tokens[k].begin <= |text| && IsLocation(text, pieces, lexed.tokens[k].begin, lexed.locations[k])
  }

  /** What the lexer answers, and the pieces it has told apart. */
  ghost predicate IsAnswer(text: string, lineOf: LineReader, r: Result<Lexed, LexError>, pieces: seq<Piece>) {
    && IsRow(text, pieces, lineOf) && AreInside(text, pieces)
    && (r.Ok? ==> IsLexing(text, pieces, lineOf) && LastFile(pieces) != "" && Located(text, pieces, r.value))
    && (r == Err(NoLineInformation) ==> IsLexing(text, pieces, lineOf) && LastFile(pieces) == "")
    && (r.Err? && r.error != NoLineInformation ==> forall all :: !IsLexing(text, all, lineOf))
  }

  /**
   Lexes a text. It is accepted when it can be lexed and its last line directive names a file, and then every
   token has its place; a text that is refused for anything else cannot be lexed.
   */
  method Lex(text: string, lineOf: LineReader) returns (r: Result<Lexed, LexError>, ghost pieces: seq<Piece>)
    ensures IsAnswer(text, lineOf, r, pieces)
  {
    hide IsPiece, IsLocation, IsLineStart, IsRow, TokensOf, Newlines;
    pieces := [];
    var file, line: U32, lineStart := "", 1, true;
    var lexed := Lexed([], []);
    var i := 0;
    AtStart(text, lineOf);
    while i < |text|
      invariant IsRow(text, pieces, lineOf) && EndOf(pieces) == i <= |text| && AreInside(text, pieces)
      invariant i < |text| ==> lineStart == IsLineStart(text, pieces, i)
      invariant i < |text| ==> IsLocation(text, pieces, i, Location(file, line))
      invariant file == LastFile(pieces) && Located(text, pieces, lexed)
    {
      var next := NextPiece(text, i, lineStart, lineOf);
      if next.Err? {
        StuckIsNoLexing(text, pieces, lineOf);
        return Err(next.error), pieces;
      }
      var p := next.value;
      PieceBounds(text, p, lineStart, lineOf);
      LexedMore(text, pieces, p, lexed, Location(file, line), lineOf);
      RowMore(text, pieces, p, lineOf);
      StateGoesOn(text, pieces, p, Location(file, line), lineOf);
      match p.kind {
        case LineChange(number, name) =>
          file, line, lineStart := name, number, true;
        case Pragma =>
          line, lineStart := (line + 1) % LINES, true;
        case Blank =>
          line, lineStart := Advance(text, i, p.end, line, lineStart);
        case Mark =>
        case Remark =>
          line, lineStart := Advance(text, i, p.end, line, false);
        case Lexeme(kind) =>
          lexed := Lexed(lexed.tokens + [TokenOf(text, p)], lexed.locations + [Location(file, line)]);
          line, lineStart := Advance(text, i, p.end, line, false);
      }
      pieces := pieces + [p];
      i := p.end;
    }
    if file == "" {
      return Err(NoLineInformation), pieces;
    }
    return Ok(lexed), pieces;
  }

  lemma AtStart(text: string, lineOf: LineReader)
    ensures IsRow(text, [], lineOf) && AreInside(text, []) && Located(text, [], Lexed([], []))
    ensures IsLineStart(text, [], 0) && IsLocation(text, [], 0, Location("", 1))
  {
  }

  lemma PieceBounds(text: string, p: Piece, lineStart: bool, lineOf: LineReader)
    requires IsPiece(text, p, lineStart, lineOf)
    ensures p.begin < p.end <= |text|
  {
  }

  /** The tokens and their places, one piece further. */
  lemma LexedMore(text: string, pieces: seq<Piece>, p: Piece, lexed: Lexed, at: Location, lineOf: LineReader)
    requires IsRow(text, pieces, lineOf) && AreInside(text, pieces) && EndOf(pieces) == p.begin < p.end <= |text|
    requires Located(text, pieces, lexed) && IsLocation(text, pieces, p.begin, at)
    ensures AreInside(text, pieces + [p])
    ensures LastFile(pieces + [p]) == if p.kind.LineChange? then p.kind.file else LastFile(pieces)
    ensures Located(text, pieces + [p], if !p.kind.Lexeme? then lexed else
                                          Lexed(lexed.tokens + [TokenOf(text, p)], lexed.locations + [at]))
  {
    hide IsPiece, IsLocation, IsRow, Newlines;
    var more := pieces + [p];
    assert more[..|more| - 1] == pieces;
    RowIsInOrder(text, pieces, lineOf);
    TokensAreSorted(text, pieces);
    forall k | 0 <= k < |lexed.tokens|
      ensures IsLocation(text, more, lexed.tokens[k].begin, lexed.locations[k])
    {
      assert lexed.tokens[k] in TokensOf(text, pieces) && lexed.tokens[k].begin < lexed.tokens[k].end;
      LocationStays(text, pieces, p, lexed.tokens[k].begin, lexed.locations[k]);
    }
    LocationStays(text, pieces, p, p.begin, at);
  }

  /** The line and whether one starts, one piece further: the branches of the loop. */
  lemma StateGoesOn(text: string, pieces: seq<Piece>, p: Piece, at: Location, lineOf: LineReader)
    requires IsRow(text, pieces, lineOf) && EndOf(pieces) == p.begin < p.end <= |text|
    requires IsPiece(text, p, IsLineStart(text, pieces, p.begin), lineOf) && IsLocation(text, pieces, p.begin, at)
    ensures var starts := if p.kind.Remark? || p.kind.Lexeme? then false else IsLineStart(text, pieces, p.begin);
            IsLineStart(text, pieces + [p], p.end) <==> starts || Newlines(text, p.begin, p.end) > 0
    ensures p.kind.LineChange? ==> IsLocation(text, pieces + [p], p.end, Location(p.kind.file, p.kind.number))
    ensures !p.kind.LineChange? ==>
              IsLocation(text, pieces + [p], p.end, Further(text, at, p.begin, p.end))
    ensures p.kind.Mark? ==> Newlines(text, p.begin, p.end) == 0
    ensures p.kind.LineChange? || p.kind.Pragma? ==> IsLineStart(text, pieces, p.begin)
    ensures p.kind.Pragma? && p.end < |text| ==> Newlines(text, p.begin, p.end) == 1
  {
    hide IsPiece, IsLocation, IsLineStart, IsRow, Newlines;
    RowIsInOrder(text, pieces, lineOf);
    LineStartGoesOn(text, pieces, p);
    KindOfPiece(text, p, IsLineStart(text, pieces, p.begin), lineOf);
    if p.kind.LineChange? {
      LocationSet(text, pieces, p);
    } else {
      LocationGoesOn(text, pieces, p, at);
    }
  }

  lemma KindOfPiece(text: string, p: Piece, lineStart: bool, lineOf: LineReader)
    requires IsPiece(text, p, lineStart, lineOf)
    ensures p.begin < p.end <= |text|
    ensures p.kind.Mark? ==> Newlines(text, p.begin, p.end) == 0
    ensures p.kind.LineChange? || p.kind.Pragma? ==> lineStart
    ensures p.kind.Pragma? && p.end < |text| ==> Newlines(text, p.begin, p.end) == 1
  {
    hide IsDirective, Newlines, IsLineEnd, IsFirst, IsRawLiteral, IsQuotedLiteral, IsLongestWord, QuoteAt;
    if lineStart && text[p.begin] == '#' && IsDirective(text, p, lineOf) {
      DirectiveNewlines(text, p, lineOf);
    } else if p.kind.Mark? {
      MarkNewlines(text);
    }
  }

  lemma DirectiveNewlines(text: string, p: Piece, lineOf: LineReader)
    requires p.begin < p.end <= |text| && IsDirective(text, p, lineOf)
    ensures p.kind.LineChange? || p.kind.Pragma?
    ensures p.end < |text| ==> Newlines(text, p.begin, p.end) == 1
  {
    hide IsFirstWord;
    var stop: nat, a: nat, b: nat :| IsDirectiveTo(text, p, stop, a, b, lineOf);
    if p.end < |text| {
      NewlinesAdd(text, p.begin, stop, stop + 1);
      NoNewlines(text, p.begin, stop);
    }
  }

  lemma MarkNewlines(text: string)
    requires StartsAt(text, 0, MARK)
    ensures Newlines(text, 0, 3) == 0
  {
    forall k | 0 <= k < 3
      ensures text[k] != '\n'
    {
      assert text[k] == text[0..3][k] == MARK[k];
    }
    NoNewlines(text, 0, 3);
  }

  lemma {:induction false} NoNewlines(text: string, i: nat, j: nat)
    requires i <= j <= |text| && forall k :: i <= k < j ==> text[k] != '\n'
    ensures Newlines(text, i, j) == 0
    decreases j - i
  {
    if i < j {
      NoNewlines(text, i, j - 1);
    }
  }

  // Groups

  /** No group opens or closes inside a comment, a literal or a directive, whatever stands there. */
  lemma GroupsStayOutside(text: string, pieces: seq<Piece>, lineOf: LineReader, found: seq<Found>, q: nat, k: nat)
    requires IsRow(text, pieces, lineOf) && AreInside(text, pieces) && IsScan(TokensOf(text, pieces), found)
    requires q < |pieces| && pieces[q].kind != Lexeme(Punctuation) && k < |found|
    ensures !(pieces[q].begin <= found[k].group.begin < pieces[q].end)
    ensures !(pieces[q].begin < found[k].group.end <= pieces[q].end)
  {
    hide IsRow, IsScan, TokensOf, IsList;
    RowIsInOrder(text, pieces, lineOf);
    var ts, f := TokensOf(text, pieces), found[k];
    FoundIsGroup(ts, found, k);
    var opening := PieceOfToken(text, pieces, f.start);
    var closing := PieceOfToken(text, pieces, f.stop - 1);
    assert ts[f.start].kind == Punctuation && ts[f.stop - 1].kind == Punctuation;
    OtherPiece(pieces, opening, q);
    OtherPiece(pieces, closing, q);
  }

  lemma OtherPiece(pieces: seq<Piece>, a: nat, b: nat)
    requires AreInOrder(pieces) && a < |pieces| && b < |pieces| && a != b
    ensures pieces[a].end <= pieces[b].begin || pieces[b].end <= pieces[a].begin
  {
  }

  /** The tokens of a text are what the scanner relies on: in order, apart, and spelled as the text has them. */
  lemma LexedIsSorted(text: string, pieces: seq<Piece>, lineOf: LineReader)
    requires IsRow(text, pieces, lineOf)
    ensures AreInside(text, pieces) && IsSorted(TokensOf(text, pieces))
    ensures forall t :: t in TokensOf(text, pieces) ==> t.end <= |text| && t.spelling == text[t.begin..t.end]
  {
    hide IsRow;
    RowIsInOrder(text, pieces, lineOf);
    TokensAreSorted(text, pieces);
    var ts := TokensOf(text, pieces);
    forall t | t in ts
      ensures t.end <= |text| && t.spelling == text[t.begin..t.end]
    {
      var k :| 0 <= k < |ts| && ts[k] == t;
      var at := PieceOfToken(text, pieces, k);
    }
  }
}
