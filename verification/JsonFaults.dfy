/** What a JSON reader says about a text before it takes it, and what is wrong where a fault is reported. */
module JsonFaults {
  import opened Bytes
  import opened Serial
  import opened JsonNumber
  import opened JsonText
  import opened JsonGrammar
  import opened JsonLayout
  import opened JsonTheorems
  import opened JsonSyntax
  import Base64
  import Utf8

  // Peeking

  function KindOfSyntax(s: Syntax): ValueKind {
    match s
    case Nothing => NullValue
    case Truth(_) => BooleanValue
    case Numeral(n) => if n.fraction == None && n.exponent == None then IntegerValue else FloatingValue
    case String(_) => StringValue
    case List(_) => ArrayValue
    case Record(_) => ObjectValue
  }

  lemma PeekOfNumeral(input: seq<Byte>, pos: nat, n: ValidNumber)
    requires At(input, pos, n.Text()) && EndsNumber(Current(input, pos + |n.Text()|))
    ensures PeekAt(input, pos) == Ok(KindOfSyntax(Numeral(n)))
  {
    hide Number.Text, ScanNumber;
    ScanOfText(input, pos, n);
    NumberIsPeeked(input, pos);
  }

  /** Peeking tells the kind of the syntax tree that is laid out. */
  lemma PeekTellsTheKind(input: Text, pos: nat, s: Syntax, end: nat)
    requires LaidEnd(input, pos, SyntaxTokens(s)) == Some(end) && EndsNumber(Current(input, end))
    ensures PeekAt(input, SkipSpace(input, pos)) == Ok(KindOfSyntax(s))
  {
    hide SkipSpace, LaidEnd, At, ScanNumber, EndsNumber, Number.Text, StringText;
    LaidStart(input, pos, SyntaxTokens(s));
    if s.Numeral? {
      LaidOne(input, pos, NumeralToken(s.number));
      PeekOfNumeral(input, SkipSpace(input, pos), s.number);
    } else {
      FirstByte(s);
    }
  }

  lemma FirstByte(s: Syntax)
    requires !s.Numeral?
    ensures SyntaxTokens(s) != []
    ensures SyntaxTokens(s)[0][0] == match s
                                     case Nothing => NULL_TEXT[0]
                                     case Truth(flag) => if flag then TRUE_TEXT[0] else FALSE_TEXT[0]
                                     case String(_) => QUOTE
                                     case List(_) => OPEN_BRACKET
                                     case _ => OPEN_BRACE
  {
    if s.List? {
      assert SyntaxTokens(s)[0] == [OPEN_BRACKET];
    } else if s.Record? {
      assert SyntaxTokens(s)[0] == [OPEN_BRACE];
    }
  }

  // What is wrong where a fault is reported

  predicate IsWhite(c: Byte) {
    c == 0x20 || c == 0x09 || c == 0x0A || c == 0x0D
  }

  /** Before the offset stands this byte, with only white space between. */
  ghost predicate StandsBehind(input: seq<Byte>, b: Byte, offset: nat) {
    exists p: nat :: p < offset && p < |input| && input[p] == b && IsGap(input, p + 1, offset)
  }

  predicate IsGap(input: seq<Byte>, from: nat, to: nat) {
    from <= to && forall k :: from <= k < to && k < |input| ==> IsWhite(input[k])
  }

  predicate HexBefore(input: seq<Byte>, offset: nat) {
    4 <= offset <= |input| && forall k :: offset - 4 <= k < offset ==> IsHex(input[k])
  }

  function HexOf(input: seq<Byte>, offset: nat): nat
    requires HexBefore(input, offset)
  {
    HexNumber([input[offset - 4], input[offset - 3], input[offset - 2], input[offset - 1]])
  }

  /** The four digits before the offset name one half of a pair whose other half is not there. */
  predicate IsHalf(input: seq<Byte>, offset: nat) {
    && HexBefore(input, offset)
    && (|| 0xD800 <= HexOf(input, offset) <= 0xDFFF
        || (offset >= 6 && HexBefore(input, offset - 6) && 0xD800 <= HexOf(input, offset - 6) <= 0xDBFF
            && !(0xDC00 <= HexOf(input, offset) <= 0xDFFF)))
  }

  /** The fault names what can be seen at its offset. */
  ghost predicate IsSeen(input: seq<Byte>, fault: Fault) {
    var o := fault.offset;
    var c := Current(input, o);
    match fault.reason
    case ExpectedValue => o >= |input|
    case UnexpectedCharacter =>
      o < |input| && c !in {0x22, 0x2D, 0x5B, 0x66, 0x6E, 0x74, 0x7B} && !(0x30 <= c <= 0x39)
    case ExpectedLiteral => c in {0x66, 0x6E, 0x74} && forall s: Syntax :: s.Nothing? || s.Truth? ==> !At(input, o, SyntaxTokens(s)[0])
    case InvalidNumber =>
      forall n: ValidNumber :: At(input, o, n.Text()) ==> !EndsNumber(Current(input, o + |n.Text()|))
    case ExpectedComma => c != 0x2C
    case TrailingComma => c in {0x5D, 0x7D} && StandsBehind(input, 0x2C, o)
    case ExpectedKey => c !in {0x22, 0x7D}
    case ExpectedColon => c != 0x3A && StandsBehind(input, 0x22, o)
    case TooDeep => c in {0x5B, 0x7B}
    case UnterminatedString => c == 0x22 && NoString(input, o)
    case ControlCharacter => o < |input| && c < 0x20
    case InvalidEscape =>
      o >= 2 && Current(input, o - 2) == 0x5C && Current(input, o - 1) !in ESCAPES && Current(input, o - 1) != 0x75
    case InvalidHex => !IsHex(c)
    case UnpairedSurrogate => IsHalf(input, o)
    case InvalidUtf8(_) => c >= 0x80 && forall v: Utf8.Scalar :: !At(input, o, Utf8.Append(v))
    case _ => false
  }

  ghost predicate NoString(input: seq<Byte>, offset: nat) {
    forall characters: seq<Character> :: !At(input, offset, StringText(characters))
  }

  lemma {:induction false} GapOfSkip(input: seq<Byte>, pos: nat)
    ensures IsGap(input, pos, SkipSpace(input, pos))
    decreases |input| - pos
  {
    if pos < |input| && IsSpace(input[pos]) {
      GapOfSkip(input, pos + 1);
    }
  }

  lemma {:induction false} HexFault(input: seq<Byte>, pos: nat, i: nat, value: nat)
    requires i <= 4 && TakeHex(input, pos, i, value).Err?
    ensures IsSeen(input, TakeHex(input, pos, i, value).error)
    decreases 4 - i
  {
    if i < 4 {
      HexIsPlace(Current(input, pos));
      if HexValue(Current(input, pos)).Some? {
        HexFault(input, pos + 1, i + 1, value * 0x10 + HexValue(Current(input, pos)).value);
      }
    }
  }

  lemma HexIsBefore(input: seq<Byte>, pos: nat)
    requires Hex4(input, pos).Ok?
    ensures Hex4(input, pos).value.1 == pos + 4 && HexBefore(input, pos + 4)
    ensures Hex4(input, pos).value.0 == HexOf(input, pos + 4)
  {
    var d := TextOfHex(input, pos);
    assert d[0] == input[pos + 0] && d[1] == input[pos + 1] && d[2] == input[pos + 2] && d[3] == input[pos + 3];
  }

  lemma CodePointFault(input: seq<Byte>, pos: nat)
    requires TakeCodePoint(input, pos).Err?
    ensures IsSeen(input, TakeCodePoint(input, pos).error)
  {
    hide TakeHex, HexOf, HexBefore, HexNumber, IsHex;
    if Hex4(input, pos).Err? {
      HexFault(input, pos, 0, 0);
    } else {
      HexIsBefore(input, pos);
      var (first, next) := Hex4(input, pos).value;
      if 0xD800 <= first <= 0xDBFF && TakeCodePoint(input, pos).error != Fault(UnpairedSurrogate, next) {
        if Hex4(input, next + 2).Err? {
          HexFault(input, next + 2, 0, 0);
        } else {
          HexIsBefore(input, next + 2);
        }
      }
    }
  }

  lemma UnitFault(input: seq<Byte>, pos: nat)
    requires pos < |input| && input[pos] != QUOTE && TakeUnit(input, pos).Err?
    ensures IsSeen(input, TakeUnit(input, pos).error)
  {
    hide TakeCodePoint, Utf8.Decode, At;
    var c := input[pos];
    if c == BACKSLASH {
      EscapeIsTold(Current(input, pos + 1));
      if Current(input, pos + 1) == LOWER_U {
        CodePointFault(input, pos + 2);
      }
    } else if c >= 0x80 {
      forall v: Utf8.Scalar
        ensures !At(input, pos, Utf8.Append(v))
      {
        if At(input, pos, Utf8.Append(v)) {
          Utf8.DecodeOfAppend(input, pos, v);
        }
      }
    }
  }

  lemma {:induction false} BodyFault(input: seq<Byte>, pos: nat, start: nat)
    requires TakeBody(input, pos, start).Err?
    ensures var fault := TakeBody(input, pos, start).error;
            fault == Fault(UnterminatedString, start) || (fault.reason != UnterminatedString && IsSeen(input, fault))
    decreases |input| - pos
  {
    hide TakeUnit, IsSeen;
    if pos < |input| {
      if TakeUnit(input, pos).Err? {
        UnitFault(input, pos);
        UnitIsTerminated(input, pos);
      } else {
        BodyFault(input, TakeUnit(input, pos).value.1, start);
      }
    }
  }

  lemma UnitIsTerminated(input: seq<Byte>, pos: nat)
    requires pos < |input| && TakeUnit(input, pos).Err?
    ensures TakeUnit(input, pos).error.reason != UnterminatedString
  {
    if input[pos] == BACKSLASH && Current(input, pos + 1) == LOWER_U {
      CodePointIsTerminated(input, pos + 2);
    }
  }

  lemma CodePointIsTerminated(input: seq<Byte>, pos: nat)
    requires TakeCodePoint(input, pos).Err?
    ensures TakeCodePoint(input, pos).error.reason != UnterminatedString
  {
    hide TakeHex;
    HexIsTerminated(input, pos, 0, 0);
    HexIsTerminated(input, pos + 6, 0, 0);
  }

  lemma {:induction false} HexIsTerminated(input: seq<Byte>, pos: nat, i: nat, value: nat)
    requires i <= 4
    ensures TakeHex(input, pos, i, value).Err? ==> TakeHex(input, pos, i, value).error.reason == InvalidHex
    ensures TakeHex(input, pos, i, value).Ok? ==> TakeHex(input, pos, i, value).value.1 == pos + (4 - i)
    decreases 4 - i
  {
    if i < 4 && HexValue(Current(input, pos)).Some? {
      HexIsTerminated(input, pos + 1, i + 1, value * 0x10 + HexValue(Current(input, pos)).value);
    }
  }

  lemma StringFault(input: seq<Byte>, pos: nat)
    requires Current(input, pos) == QUOTE && ParseString(input, pos).Err?
    ensures IsSeen(input, ParseString(input, pos).error)
  {
    hide TakeBody, At, StringText;
    BodyFault(input, pos + 1, pos);
    forall characters: seq<Character>
      ensures !At(input, pos, StringText(characters))
    {
      if At(input, pos, StringText(characters)) {
        ParseOfStringText(input, pos, characters);
      }
    }
  }

  lemma NumberFault(input: seq<Byte>, pos: nat)
    requires NumberAt(input, pos).Err?
    ensures IsSeen(input, NumberAt(input, pos).error)
  {
    hide ScanNumber, Number.Text, At, EndsNumber;
    forall n: ValidNumber | At(input, pos, n.Text())
      ensures !EndsNumber(Current(input, pos + |n.Text()|))
    {
      if EndsNumber(Current(input, pos + |n.Text()|)) {
        ScanOfText(input, pos, n);
      }
    }
  }

  lemma AdvanceFault(input: seq<Byte>, pos: nat, first: bool, closing: Byte)
    requires closing == CLOSE_BRACKET || closing == CLOSE_BRACE
    requires Advance(input, pos, first, closing).Err?
    ensures IsSeen(input, Advance(input, pos, first, closing).error)
  {
    hide SkipSpace, IsGap;
    var start := SkipSpace(input, pos);
    if Current(input, start) == COMMA {
      GapOfSkip(input, start + 1);
      assert start < SkipSpace(input, start + 1) && IsGap(input, start + 1, SkipSpace(input, start + 1));
    }
  }

  /** A key ends with its closing quote. */
  lemma StringEndsWithQuote(input: seq<Byte>, pos: nat)
    requires Current(input, pos) == QUOTE && ParseString(input, pos).Ok?
    ensures var end := ParseString(input, pos).value.1; 0 < end <= |input| && input[end - 1] == QUOTE
  {
    var (text, end) := ParseString(input, pos).value;
    QuoteBefore(input, pos + 1, pos);
  }

  lemma {:induction false} QuoteBefore(input: seq<Byte>, pos: nat, start: nat)
    requires TakeBody(input, pos, start).Ok?
    ensures var end := TakeBody(input, pos, start).value.1; pos < end <= |input| && input[end - 1] == QUOTE
    decreases |input| - pos
  {
    hide TakeUnit;
    if input[pos] != QUOTE {
      QuoteBefore(input, TakeUnit(input, pos).value.1, start);
    }
  }

  lemma KeyFault(input: Text, pos: nat, first: bool)
    requires KeyAt(input, pos, first).Err?
    ensures IsSeen(input, KeyAt(input, pos, first).error)
  {
    hide SkipSpace, ParseString, IsGap, Advance;
    if Advance(input, pos, first, CLOSE_BRACE).Err? {
      AdvanceFault(input, pos, first, CLOSE_BRACE);
    } else {
      var (more, start) := Advance(input, pos, first, CLOSE_BRACE).value;
      MoreIsOpen(input, pos, first, CLOSE_BRACE);
      if Current(input, start) == QUOTE {
        if ParseString(input, start).Err? {
          StringFault(input, start);
        } else {
          StringEndsWithQuote(input, start);
          var end := ParseString(input, start).value.1;
          GapOfSkip(input, end);
          ColonFault(input, end);
        }
      }
    }
  }

  lemma MoreIsOpen(input: seq<Byte>, pos: nat, first: bool, closing: Byte)
    requires Advance(input, pos, first, closing).Ok?
    ensures var (more, start) := Advance(input, pos, first, closing).value; more <==> Current(input, start) != closing
  {
    hide SkipSpace;
  }

  lemma ColonFault(input: seq<Byte>, end: nat)
    requires 0 < end <= |input| && input[end - 1] == QUOTE && IsGap(input, end, SkipSpace(input, end))
    requires Current(input, SkipSpace(input, end)) != COLON
    ensures IsSeen(input, Fault(ExpectedColon, SkipSpace(input, end)))
  {
    hide SkipSpace, IsGap;
    var p: nat := end - 1;
    assert p < SkipSpace(input, end) && input[p] == 0x22 && IsGap(input, p + 1, SkipSpace(input, end));
  }

  lemma NoLiteral(input: seq<Byte>, pos: nat)
    requires !At(input, pos, NULL_TEXT) && !At(input, pos, TRUE_TEXT) && !At(input, pos, FALSE_TEXT)
    ensures forall s: Syntax :: s.Nothing? || s.Truth? ==> !At(input, pos, SyntaxTokens(s)[0])
  {
    hide At;
    forall s: Syntax | s.Nothing? || s.Truth?
      ensures !At(input, pos, SyntaxTokens(s)[0])
    {
    }
  }

  lemma LiteralIsFirst(input: seq<Byte>, pos: nat)
    ensures At(input, pos, NULL_TEXT) ==> Current(input, pos) == 0x6E
    ensures At(input, pos, TRUE_TEXT) ==> Current(input, pos) == 0x74
    ensures At(input, pos, FALSE_TEXT) ==> Current(input, pos) == 0x66
  {
    if At(input, pos, NULL_TEXT) {
      LiteralStarts(input, pos, NULL_TEXT);
    }
    if At(input, pos, TRUE_TEXT) {
      LiteralStarts(input, pos, TRUE_TEXT);
    }
    if At(input, pos, FALSE_TEXT) {
      LiteralStarts(input, pos, FALSE_TEXT);
    }
  }

  lemma ScalarFault(input: Text, pos: nat, depth: nat, max: nat)
    requires SkipAt(input, pos, depth, max).Err?
    requires var c := Current(input, SkipSpace(input, pos)); c != OPEN_BRACKET && c != OPEN_BRACE
    ensures IsSeen(input, SkipAt(input, pos, depth, max).error)
  {
    hide SkipSpace, ScanNumber, ParseString, At, NoString, Number.Text, IsHalf;
    SkipTwice(input, pos);
    var start := SkipSpace(input, pos);
    var c := Current(input, start);
    LiteralIsFirst(input, start);
    if c == QUOTE {
      StringFault(input, start);
    } else if c == 0x6E || c == 0x74 || c == 0x66 {
      NoLiteral(input, start);
    } else if c == MINUS || IsDigit(c) {
      NumberFault(input, start);
    }
  }

  /** Whatever is not skipped is refused for what can be seen where the fault is reported. */
  lemma {:induction false} FaultIsSeen(input: Text, pos: nat, depth: nat, max: nat)
    requires SkipAt(input, pos, depth, max).Err?
    ensures IsSeen(input, SkipAt(input, pos, depth, max).error)
    decreases |input| - pos, 0
  {
    hide SkipAt, SkipItems, SkipEntries, SkipSpace, IsSeen;
    var start := SkipSpace(input, pos);
    var opening := Current(input, start);
    if opening == OPEN_BRACKET || opening == OPEN_BRACE {
      if depth >= max {
        DepthFault(input, pos, depth, max, opening);
      } else {
        EnterOpens(input, pos, depth, max, opening);
        SkipOfContainer(input, pos, depth, max, opening, start + 1);
        if opening == OPEN_BRACKET {
          ItemsFault(input, start + 1, depth + 1, max, true);
        } else {
          EntriesFault(input, start + 1, depth + 1, max, true);
        }
      }
    } else {
      ScalarFault(input, pos, depth, max);
    }
  }

  lemma DepthFault(input: Text, pos: nat, depth: nat, max: nat, opening: Byte)
    requires opening == OPEN_BRACKET || opening == OPEN_BRACE
    requires Current(input, SkipSpace(input, pos)) == opening && depth >= max
    ensures SkipAt(input, pos, depth, max) == Err(Fault(TooDeep, SkipSpace(input, pos)))
    ensures IsSeen(input, Fault(TooDeep, SkipSpace(input, pos)))
  {
    hide SkipSpace, ScanNumber, ParseString, SkipItems, SkipEntries;
    SkipTwice(input, pos);
  }

  lemma EnterOpens(input: Text, pos: nat, depth: nat, max: nat, opening: Byte)
    requires opening == OPEN_BRACKET || opening == OPEN_BRACE
    requires Current(input, SkipSpace(input, pos)) == opening && depth < max
    ensures EnterAt(input, pos, opening, depth, max) == Ok(SkipSpace(input, pos) + 1)
    ensures pos <= SkipSpace(input, pos) < |input|
  {
    hide SkipSpace;
  }

  lemma {:induction false} ItemsFault(input: Text, pos: nat, depth: nat, max: nat, first: bool)
    requires pos <= |input| && SkipItems(input, pos, depth, max, first).Err?
    ensures IsSeen(input, SkipItems(input, pos, depth, max, first).error)
    decreases |input| - pos, 1
  {
    hide SkipAt, Advance, IsSeen, EndAt;
    if Advance(input, pos, first, CLOSE_BRACKET).Err? {
      AdvanceFault(input, pos, first, CLOSE_BRACKET);
    } else {
      var (more, start) := Advance(input, pos, first, CLOSE_BRACKET).value;
      if more {
        AdvancedInside(input, pos, first, CLOSE_BRACKET);
        if SkipAt(input, start, depth, max).Err? {
          FaultIsSeen(input, start, depth, max);
        } else {
          ItemsFault(input, SkipAt(input, start, depth, max).value, depth, max, false);
        }
      } else {
        MoreIsOpen(input, pos, first, CLOSE_BRACKET);
        EndIsThere(input, pos, first, CLOSE_BRACKET, start);
      }
    }
  }

  lemma AdvancedInside(input: seq<Byte>, pos: nat, first: bool, closing: Byte)
    requires Advance(input, pos, first, closing).Ok?
    ensures pos <= Advance(input, pos, first, closing).value.1
    ensures pos <= |input| ==> Advance(input, pos, first, closing).value.1 <= |input|
  {
    hide SkipSpace;
  }

  lemma EndIsThere(input: seq<Byte>, pos: nat, first: bool, closing: Byte, start: nat)
    requires closing == CLOSE_BRACKET || closing == CLOSE_BRACE
    requires Advance(input, pos, first, closing) == Ok((false, start)) && Current(input, start) == closing
    ensures EndAt(input, start, closing).Ok?
  {
    hide SkipSpace;
    SkipTwice(input, pos);
  }

  lemma {:induction false} EntriesFault(input: Text, pos: nat, depth: nat, max: nat, first: bool)
    requires SkipEntries(input, pos, depth, max, first).Err?
    ensures IsSeen(input, SkipEntries(input, pos, depth, max, first).error)
    decreases |input| - pos, 1
  {
    hide SkipAt, KeyAt, IsSeen, EndAt;
    if KeyAt(input, pos, first).Err? {
      KeyFault(input, pos, first);
    } else {
      var (key, start) := KeyAt(input, pos, first).value;
      KeyInside(input, pos, first);
      if key.Some? {
        if SkipAt(input, start, depth, max).Err? {
          FaultIsSeen(input, start, depth, max);
        } else {
          EntriesFault(input, SkipAt(input, start, depth, max).value, depth, max, false);
        }
      }
    }
  }

  lemma KeyInside(input: Text, pos: nat, first: bool)
    requires KeyAt(input, pos, first).Ok?
    ensures var (key, start) := KeyAt(input, pos, first).value;
            && pos <= start && (key.Some? ==> pos < start <= |input|)
            && (key.None? ==> EndAt(input, start, CLOSE_BRACE).Ok?)
  {
    hide SkipSpace, ParseString, Advance, EndAt;
    assert KeyAt(input, pos, first).value.0.Some? ==> pos < KeyAt(input, pos, first).value.1 <= |input|;
    var (more, start) := Advance(input, pos, first, CLOSE_BRACE).value;
    AdvancedInside(input, pos, first, CLOSE_BRACE);
    if !more {
      MoreIsOpen(input, pos, first, CLOSE_BRACE);
      EndIsThere(input, pos, first, CLOSE_BRACE, start);
    }
  }

  // What is wrong for a consumer that knows the type it wants

  predicate NumberStands(input: seq<Byte>, at: nat, n: ValidNumber) {
    At(input, at, n.Text())
  }

  /** The value at `at` cannot be had with the type, for this reason. */
  ghost predicate IsMissed(input: Text, at: nat, kind: Kind, reason: Reason, inRange: FloatText -> bool) {
    var c := Current(input, at);
    match kind
    case NullKind => reason == ExpectedLiteral && !At(input, at, SyntaxTokens(Nothing)[0])
    case BoolKind =>
      && (forall flag :: !At(input, at, SyntaxTokens(Truth(flag))[0]))
      && reason == if c == 0x74 || c == 0x66 then ExpectedLiteral else ExpectedBoolean
    case SignedKind =>
      exists n: ValidNumber :: NumberStands(input, at, n)
        && if n.fraction == None && n.exponent == None then
             reason == OutOfRange && !(-0x8000_0000_0000_0000 <= n.IntegerValue() < 0x8000_0000_0000_0000)
           else reason == ExpectedInteger
    case UnsignedKind =>
      exists n: ValidNumber :: NumberStands(input, at, n)
        && if n.fraction == None && n.exponent == None && !n.minus then
             reason == OutOfRange && n.IntegerValue() >= 0x1_0000_0000_0000_0000
           else reason == ExpectedNonNegative
    case FloatKind =>
      exists n: ValidNumber :: NumberStands(input, at, n) && reason == OutOfRange && !inRange(n.WithPoint())
    case StrKind => reason == ExpectedString && c != 0x22
    case BlobKind =>
      || (reason == ExpectedString && c != 0x22)
      || exists characters: seq<Character> :: At(input, at, StringText(characters))
           && reason.InvalidBase64? && Base64.Decode(Meaning(characters)) == Err(reason.base64)
  }

  /** A typed read fails at the value for its type, or for what is wrong with its number or its string. */
  lemma TypedFaultIsSeen(input: Text, pos: nat, kind: Kind, inRange: FloatText -> bool)
    requires pos <= |input| && PullLeaf(input, pos, kind, inRange).Err?
    ensures var fault := PullLeaf(input, pos, kind, inRange).error;
            || (fault.offset == SkipSpace(input, pos) && IsMissed(input, fault.offset, kind, fault.reason, inRange))
            || (kind !in {NullKind, BoolKind} && fault.reason !in {ExpectedLiteral, TooDeep} && IsSeen(input, fault))
  {
    hide SkipSpace, ScanNumber, ParseString, At, IsSeen, Number.Text, Number.IntegerValue, Base64.Decode;
    var start := SkipSpace(input, pos);
    match kind
    case NullKind =>
    case BoolKind => BoolFault(input, pos);
    case StrKind => TextFault(input, pos);
    case BlobKind => BlobFault(input, pos);
    case _ => NumberKindFault(input, pos, kind, inRange);
  }

  lemma BoolFault(input: Text, pos: nat)
    requires BoolAt(input, pos).Err?
    ensures var at := SkipSpace(input, pos);
            && BoolAt(input, pos).error.offset == at
            && !At(input, at, SyntaxTokens(Truth(true))[0]) && !At(input, at, SyntaxTokens(Truth(false))[0])
            && BoolAt(input, pos).error.reason
               == if Current(input, at) == 0x74 || Current(input, at) == 0x66 then ExpectedLiteral else ExpectedBoolean
  {
    hide SkipSpace, At;
    LiteralIsFirst(input, SkipSpace(input, pos));
  }

  lemma NumberKindFault(input: Text, pos: nat, kind: Kind, inRange: FloatText -> bool)
    requires pos <= |input| && PullLeaf(input, pos, kind, inRange).Err?
    requires kind == SignedKind || kind == UnsignedKind || kind == FloatKind
    ensures var fault := PullLeaf(input, pos, kind, inRange).error;
            || (fault.offset == SkipSpace(input, pos) && IsMissed(input, fault.offset, kind, fault.reason, inRange))
            || (fault.reason == InvalidNumber && IsSeen(input, fault))
  {
    hide SkipSpace, ScanNumber, At, IsSeen, Number.Text, Number.IntegerValue;
    var start := SkipSpace(input, pos);
    if NumberAt(input, start).Err? {
      NumberFault(input, start);
    } else {
      var n := NumberAt(input, start).value.0;
      TextOfScan(input, start);
      if !n.minus {
        ValueIsSigned(n);
      }
      assert NumberStands(input, start, n);
    }
  }

  lemma ValueIsSigned(n: Number)
    requires n.Valid() && !n.minus
    ensures n.IntegerValue() >= 0
  {
    DigitsAreNatural(n.whole);
  }

  lemma {:induction false} DigitsAreNatural(digits: seq<Byte>)
    requires AllDigits(digits)
    ensures DecimalValue(digits) >= 0
    decreases |digits|
  {
    if digits != [] {
      DigitsAreNatural(digits[..|digits| - 1]);
      assert IsDigit(digits[|digits| - 1]);
    }
  }

  lemma TextFault(input: Text, pos: nat)
    requires StrAt(input, pos).Err?
    ensures var fault := StrAt(input, pos).error;
            || (fault == Fault(ExpectedString, SkipSpace(input, pos)) && Current(input, fault.offset) != 0x22)
            || (fault.reason !in {ExpectedLiteral, TooDeep} && IsSeen(input, fault))
  {
    hide SkipSpace, ParseString, IsSeen;
    if Current(input, SkipSpace(input, pos)) == QUOTE {
      StringFault(input, SkipSpace(input, pos));
      StringFaultIsOwn(input, SkipSpace(input, pos));
    }
  }

  lemma StringFaultIsOwn(input: seq<Byte>, pos: nat)
    requires ParseString(input, pos).Err?
    ensures ParseString(input, pos).error.reason !in {ExpectedLiteral, TooDeep}
  {
    BodyFaultIsOwn(input, pos + 1, pos);
  }

  lemma {:induction false} BodyFaultIsOwn(input: seq<Byte>, pos: nat, start: nat)
    requires TakeBody(input, pos, start).Err?
    ensures TakeBody(input, pos, start).error.reason !in {ExpectedLiteral, TooDeep}
    decreases |input| - pos
  {
    hide TakeCodePoint, Utf8.Decode;
    if pos < |input| && input[pos] != QUOTE {
      if TakeUnit(input, pos).Ok? {
        BodyFaultIsOwn(input, TakeUnit(input, pos).value.1, start);
      } else if input[pos] == BACKSLASH && Current(input, pos + 1) == LOWER_U {
        CodePointFaultIsOwn(input, pos + 2);
      }
    }
  }

  lemma CodePointFaultIsOwn(input: seq<Byte>, pos: nat)
    requires TakeCodePoint(input, pos).Err?
    ensures TakeCodePoint(input, pos).error.reason !in {ExpectedLiteral, TooDeep}
  {
    hide TakeHex;
    HexIsTerminated(input, pos, 0, 0);
    HexIsTerminated(input, pos + 6, 0, 0);
  }

  lemma BlobFault(input: Text, pos: nat)
    requires pos <= |input| && BlobAt(input, pos).Err?
    ensures var fault := BlobAt(input, pos).error;
            || (fault.offset == SkipSpace(input, pos)
                && IsMissed(input, fault.offset, BlobKind, fault.reason, (f: FloatText) => true))
            || (fault.reason !in {ExpectedLiteral, TooDeep} && IsSeen(input, fault))
  {
    hide SkipSpace, ParseString, At, IsSeen, Base64.Decode, StringText;
    if StrAt(input, pos).Err? {
      TextFault(input, pos);
    } else {
      var start := SkipSpace(input, pos);
      var (text, end) := ParseString(input, start).value;
      ParsedExactlySpelled(input, start, text, end);
    }
  }
}