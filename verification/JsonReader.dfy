/** The pull parser of JSON text. */
module JsonReader {
  import opened Bytes
  import opened Serial
  import opened Reading
  import opened JsonNumber
  import opened JsonText
  import opened JsonGrammar
  import N = JsonNumber
  import T = JsonText
  import G = JsonGrammar
  import Base64
  import Utf8

  /** `first` tells that no item of the container was looked for yet. */
  datatype Frame = Frame(isObject: bool, first: bool)

  /** A failed call leaves the reader at the point of failure; such a reader is not used again. */
  class Reader {
    const input: Text
    const maxDepth: nat
    const inRange: FloatText -> bool
    var position: nat
    var stack: seq<Frame>

    ghost predicate Valid()
      reads this
    {
      position <= |input|
    }

    constructor (input: Text, maxDepth: nat, inRange: FloatText -> bool)
      ensures Valid() && position == 0 && stack == []
      ensures this.input == input && this.maxDepth == maxDepth && this.inRange == inRange
    {
      this.input := input;
      this.maxDepth := maxDepth;
      this.inRange := inRange;
      position := 0;
      stack := [];
    }

    // Spaces, literals and numbers

    /** The byte at the position, and NUL at the end. */
    method CurrentByte() returns (b: Byte)
      requires Valid()
      ensures b == Current(input, position)
    {
      b := if position < |input| then input[position] else 0;
    }

    method SkipWhitespace()
      requires Valid()
      modifies this
      ensures Valid() && stack == old(stack)
      ensures position == SkipSpace(input, old(position))
    {
      while position < |input|
        invariant Valid() && stack == old(stack)
        invariant SkipSpace(input, position) == SkipSpace(input, old(position))
      {
        var c := input[position];
        if c != 0x20 && c != 0x09 && c != 0x0A && c != 0x0D {
          break;
        }
        position := position + 1;
      }
    }

    method ExpectLiteral(literal: seq<Byte>) returns (r: Result<(), Fault>)
      requires Valid()
      modifies this
      ensures Valid() && stack == old(stack)
      ensures Moved(G.ExpectLiteral(input, old(position), literal), r, position)
    {
      if !At(input, position, literal) {
        return Err(Fault(ExpectedLiteral, position));
      }
      position := position + |literal|;
      return Ok(());
    }

    method ScanDigits() returns (digits: seq<Byte>)
      requires Valid()
      modifies this
      ensures Valid() && stack == old(stack)
      ensures digits == TakeDigits(input, old(position)) && position == old(position) + |digits|
    {
      digits := [];
      ghost var all := TakeDigits(input, position);
      assert [] + all == all;
      while position < |input| && IsDigit(input[position])
        invariant Valid() && stack == old(stack)
        invariant position == old(position) + |digits|
        invariant digits + TakeDigits(input, position) == all
      {
        ghost var rest := TakeDigits(input, position + 1);
        assert digits + ([input[position]] + rest) == digits + [input[position]] + rest;
        digits := digits + [input[position]];
        position := position + 1;
      }
      assert digits + [] == digits;
    }

    method ScanNumber() returns (r: Result<Number, Fault>)
      requires Valid()
      modifies this
      ensures Valid() && stack == old(stack)
      ensures Took(NumberAt(input, old(position)), r, position)
    {
      hide N.ScanWhole, N.ScanFraction, N.ScanExponent, Number.Text, Exponent.Text;
      var start := position;
      var c := CurrentByte();
      var minus := c == MINUS;
      if minus {
        position := position + 1;
      }
      var whole := ScanWhole();
      if whole.None? {
        return Err(Fault(InvalidNumber, start));
      }
      var fraction := ScanFraction();
      if fraction.None? {
        return Err(Fault(InvalidNumber, start));
      }
      var exponent := ScanExponent();
      if exponent.None? {
        return Err(Fault(InvalidNumber, start));
      }
      var number := Number(minus, whole.value, fraction.value, exponent.value);
      ScanNumberOf(input, start, number);
      TextLength(number);
      return Ok(number);
    }

    /** The digits before the point, if there are any. */
    method ScanWhole() returns (r: Option<seq<Byte>>)
      requires Valid()
      modifies this
      ensures Valid() && stack == old(stack)
      ensures r == N.ScanWhole(input, old(position))
      ensures r.Some? ==> position == old(position) + |r.value|
    {
      var c := CurrentByte();
      if c == ZERO {
        position := position + 1;
        return Some([ZERO]);
      }
      if !IsDigit(c) {
        return None;
      }
      var digits := ScanDigits();
      return Some(digits);
    }

    /** The digits after a point, if there is one; nothing if the point has none. */
    method ScanFraction() returns (r: Option<Option<seq<Byte>>>)
      requires Valid()
      modifies this
      ensures Valid() && stack == old(stack)
      ensures r == N.ScanFraction(input, old(position))
      ensures r.Some? ==> position == old(position) + (if r.value.Some? then 1 + |r.value.value| else 0)
    {
      var c := CurrentByte();
      if c != DOT {
        return Some(None);
      }
      position := position + 1;
      c := CurrentByte();
      if !IsDigit(c) {
        return None;
      }
      var digits := ScanDigits();
      return Some(Some(digits));
    }

    method ScanExponent() returns (r: Option<Option<Exponent>>)
      requires Valid()
      modifies this
      ensures Valid() && stack == old(stack)
      ensures r == N.ScanExponent(input, old(position))
      ensures r.Some? ==> position == old(position) + (if r.value.Some? then |r.value.value.Text()| else 0)
    {
      var mark := CurrentByte();
      if mark != LOWER_E && mark != UPPER_E {
        return Some(None);
      }
      position := position + 1;
      var sign := None;
      var c := CurrentByte();
      if c == PLUS || c == MINUS {
        sign := Some(c);
        position := position + 1;
        c := CurrentByte();
      }
      if !IsDigit(c) {
        return None;
      }
      var digits := ScanDigits();
      return Some(Some(Exponent(mark, sign, digits)));
    }

    // Leaves

    method Peek() returns (r: Result<ValueKind, Fault>)
      requires Valid()
      modifies this
      ensures Valid() && stack == old(stack)
      ensures r == PeekAt(input, SkipSpace(input, old(position)))
      ensures r.Ok? ==> position == SkipSpace(input, old(position))
    {
      SkipWhitespace();
      var c := CurrentByte();
      if c == 0x6E {
        return Ok(NullValue);
      }
      if c == 0x74 || c == 0x66 {
        return Ok(BooleanValue);
      }
      if c == QUOTE {
        return Ok(StringValue);
      }
      if c == OPEN_BRACKET {
        return Ok(ArrayValue);
      }
      if c == OPEN_BRACE {
        return Ok(ObjectValue);
      }
      if c == MINUS || IsDigit(c) {
        var saved := position;
        var token :- ScanNumber();
        position := saved;
        return Ok(if token.IsInteger() then IntegerValue else FloatingValue);
      }
      return Err(Fault(if position >= |input| then ExpectedValue else UnexpectedCharacter, position));
    }

    method ReadNull() returns (r: Result<(), Fault>)
      requires Valid()
      modifies this
      ensures Valid() && stack == old(stack)
      ensures Moved(NullAt(input, old(position)), r, position)
    {
      SkipWhitespace();
      r := ExpectLiteral(NULL_TEXT);
    }

    method ReadBool() returns (r: Result<bool, Fault>)
      requires Valid()
      modifies this
      ensures Valid() && stack == old(stack)
      ensures Took(BoolAt(input, old(position)), r, position)
    {
      SkipWhitespace();
      var c := CurrentByte();
      if c == 0x74 {
        var _ :- ExpectLiteral(TRUE_TEXT);
        return Ok(true);
      }
      if c == 0x66 {
        var _ :- ExpectLiteral(FALSE_TEXT);
        return Ok(false);
      }
      return Err(Fault(ExpectedBoolean, position));
    }

    method ReadInt() returns (r: Result<I64, Fault>)
      requires Valid()
      modifies this
      ensures Valid() && stack == old(stack)
      ensures Took(IntAt(input, old(position)), r, position)
    {
      SkipWhitespace();
      var start := position;
      var token :- ScanNumber();
      if !token.IsInteger() {
        return Err(Fault(ExpectedInteger, start));
      }
      var value := token.IntegerValue();
      if value < -TWO_63 || value >= TWO_63 {
        return Err(Fault(OutOfRange, start));
      }
      return Ok(value);
    }

    method ReadUint() returns (r: Result<U64, Fault>)
      requires Valid()
      modifies this
      ensures Valid() && stack == old(stack)
      ensures Took(UintAt(input, old(position)), r, position)
    {
      SkipWhitespace();
      var start := position;
      var token :- ScanNumber();
      if !token.IsInteger() || token.minus {
        return Err(Fault(ExpectedNonNegative, start));
      }
      var value := token.IntegerValue();
      if value < 0 || value >= TWO_64 {
        return Err(Fault(OutOfRange, start));
      }
      return Ok(value);
    }

    method ReadFloat() returns (r: Result<FloatText, Fault>)
      requires Valid()
      modifies this
      ensures Valid() && stack == old(stack)
      ensures Took(FloatAt(input, old(position), inRange), r, position)
    {
      SkipWhitespace();
      var start := position;
      var token :- ScanNumber();
      if !inRange(token.WithPoint()) {
        return Err(Fault(OutOfRange, start));
      }
      return Ok(token.WithPoint());
    }

    method ReadString() returns (r: Result<Text, Fault>)
      requires Valid()
      modifies this
      ensures stack == old(stack) && (r.Ok? ==> Valid())
      ensures Took(StrAt(input, old(position)), r, position)
    {
      SkipWhitespace();
      var c := CurrentByte();
      if c != QUOTE {
        return Err(Fault(ExpectedString, position));
      }
      r := ParseString();
    }

    method ReadBytes() returns (r: Result<Text, Fault>)
      requires Valid()
      modifies this
      ensures stack == old(stack) && (r.Ok? ==> Valid())
      ensures Took(BlobAt(input, old(position)), r, position)
    {
      SkipWhitespace();
      var start := position;
      SkipTwice(input, old(position));
      var text :- ReadString();
      var decoded := Base64.DecodeText(text);
      match decoded {
        case Err(error) =>
          return Err(Fault(InvalidBase64(error), start));
        case Ok(bytes) =>
          Base64.DecodedIsShorter(text);
          return Ok(bytes);
      }
    }

    // Strings

    /** The position is at the opening quote. */
    method ParseString() returns (r: Result<Text, Fault>)
      requires Valid() && Current(input, position) == QUOTE
      modifies this
      ensures stack == old(stack) && (r.Ok? ==> Valid())
      ensures Took(T.ParseString(input, old(position)), r, position)
    {
      var start := position;
      ghost var whole := T.ParseString(input, position);
      position := position + 1;
      var result: seq<Byte> := [];
      PrependNothing(whole);
      while true
        invariant Valid() && stack == old(stack)
        invariant whole == Prepend(result, TakeBody(input, position, start))
        decreases |input| - position
      {
        if position >= |input| {
          return Err(Fault(UnterminatedString, start));
        }
        if input[position] == QUOTE {
          position := position + 1;
          BodyIsShorter(input, start + 1, start);
          assert result + [] == result;
          return Ok(result);
        }
        ghost var before, rest := position, TakeBody(input, position, start);
        var unit :- ParseUnit();
        BodyStep(input, before, start, unit, position);
        PrependTwice(result, unit, TakeBody(input, position, start));
        result := result + unit;
      }
    }

    /** One character of a string that is not its closing quote. */
    method ParseUnit() returns (r: Result<seq<Byte>, Fault>)
      requires Valid() && position < |input| && input[position] != QUOTE
      modifies this
      ensures stack == old(stack) && (r.Ok? ==> Valid())
      ensures Took(TakeUnit(input, old(position)), r, position)
    {
      var c := input[position];
      if c < 0x20 {
        return Err(Fault(ControlCharacter, position));
      }
      if c == BACKSLASH {
        position := position + 1;
        r := AppendEscape();
        return;
      }
      if c < 0x80 {
        position := position + 1;
        return Ok([c]);
      }
      var start := position;
      match Utf8.Decode(input, position) {
        case Err(reason) =>
          return Err(Fault(InvalidUtf8(reason), start));
        case Ok((_, end)) =>
          position := end;
          return Ok(Copy(input, start, position - start));
      }
    }

    /** What the escape stands for; the position is just after its backslash. */
    method AppendEscape() returns (r: Result<seq<Byte>, Fault>)
      requires Valid()
      modifies this
      ensures stack == old(stack)
      ensures r.Ok? ==> Valid()
      ensures Took(TakeEscape(input, old(position)), r, position)
    {
      var c := CurrentByte();
      position := position + 1;
      if LetterEscape(c).Some? {
        return Ok([LetterEscape(c).value]);
      }
      if c != LOWER_U {
        return Err(Fault(InvalidEscape, position));
      }
      var codePoint :- NamedCodePoint();
      return Ok(Utf8.Append(codePoint));
    }

    method NamedCodePoint() returns (r: Result<Utf8.Scalar, Fault>)
      requires Valid()
      modifies this
      ensures Valid() && stack == old(stack)
      ensures Took(TakeCodePoint(input, old(position)), r, position)
    {
      var codePoint :- ReadHex4();
      if 0xD800 <= codePoint <= 0xDBFF {
        var c := CurrentByte();
        if c != BACKSLASH || position + 1 >= |input| || input[position + 1] != LOWER_U {
          return Err(Fault(UnpairedSurrogate, position));
        }
        position := position + 2;
        var low :- ReadHex4();
        if low < 0xDC00 || low > 0xDFFF {
          return Err(Fault(UnpairedSurrogate, position));
        }
        return Ok(0x10000 + (codePoint - 0xD800) * 0x400 + (low - 0xDC00));
      }
      if 0xDC00 <= codePoint <= 0xDFFF {
        return Err(Fault(UnpairedSurrogate, position));
      }
      return Ok(codePoint);
    }

    method ReadHex4() returns (r: Result<nat, Fault>)
      requires Valid()
      modifies this
      ensures Valid() && stack == old(stack)
      ensures Took(Hex4(input, old(position)), r, position)
      ensures r.Ok? ==> r.value < 0x10000
    {
      var value := 0;
      for i := 0 to 4
        invariant Valid() && stack == old(stack)
        invariant TakeHex(input, position, i, value) == Hex4(input, old(position))
      {
        var c := CurrentByte();
        var digit := HexValue(c);
        if digit.None? {
          return Err(Fault(InvalidHex, position));
        }
        value := value * 0x10 + digit.value;
        position := position + 1;
      }
      TakeHexBelow(input, old(position), 0, 0);
      return Ok(value);
    }

    // Containers

    method Enter(isObject: bool) returns (r: Result<(), Fault>)
      requires Valid()
      modifies this
      ensures Valid() && position == old(position)
      ensures |old(stack)| >= maxDepth ==> r == Err(Fault(TooDeep, position))
      ensures |old(stack)| < maxDepth ==> r == Ok(()) && stack == old(stack) + [Frame(isObject, true)]
    {
      if |stack| >= maxDepth {
        return Err(Fault(TooDeep, position));
      }
      stack := stack + [Frame(isObject, true)];
      return Ok(());
    }

    method BeginArray() returns (r: Result<(), Fault>)
      requires Valid()
      modifies this
      ensures Valid()
      ensures Moved(EnterAt(input, old(position), OPEN_BRACKET, |old(stack)|, maxDepth), r, position)
      ensures r.Ok? ==> stack == old(stack) + [Frame(false, true)]
    {
      SkipWhitespace();
      var c := CurrentByte();
      if c != OPEN_BRACKET {
        return Err(Fault(ExpectedArray, position));
      }
      var _ :- Enter(false);
      position := position + 1;
      return Ok(());
    }

    method BeginObject() returns (r: Result<(), Fault>)
      requires Valid()
      modifies this
      ensures Valid()
      ensures Moved(EnterAt(input, old(position), OPEN_BRACE, |old(stack)|, maxDepth), r, position)
      ensures r.Ok? ==> stack == old(stack) + [Frame(true, true)]
    {
      SkipWhitespace();
      var c := CurrentByte();
      if c != OPEN_BRACE {
        return Err(Fault(ExpectedObject, position));
      }
      var _ :- Enter(true);
      position := position + 1;
      return Ok(());
    }

    method AdvanceTo(closing: Byte) returns (r: Result<bool, Fault>)
      requires Valid() && stack != [] && closing != 0
      modifies this
      ensures Valid()
      ensures Took(Advance(input, old(position), Top(old(stack)).first, closing), r, position)
      ensures r.Ok? ==> stack == Looked(old(stack))
    {
      SkipWhitespace();
      var c := CurrentByte();
      var first := stack[|stack| - 1].first;
      stack := stack[|stack| - 1 := stack[|stack| - 1].(first := false)];
      if first {
        return Ok(c != closing);
      }
      if c == closing {
        return Ok(false);
      }
      if c != COMMA {
        return Err(Fault(ExpectedComma, position));
      }
      position := position + 1;
      SkipWhitespace();
      c := CurrentByte();
      if c == closing {
        return Err(Fault(TrailingComma, position));
      }
      return Ok(true);
    }

    method NextElement() returns (r: Result<bool, Fault>)
      requires Valid()
      modifies this
      ensures Valid()
      ensures !Inside(old(stack), false) ==> r == Err(Fault(OutsideContainer, position))
      ensures Inside(old(stack), false) ==>
                && Took(Advance(input, old(position), Top(old(stack)).first, CLOSE_BRACKET), r, position)
                && (r.Ok? ==> stack == Looked(old(stack)))
    {
      if stack == [] || stack[|stack| - 1].isObject {
        return Err(Fault(OutsideContainer, position));
      }
      r := AdvanceTo(CLOSE_BRACKET);
    }

    method NextKey() returns (r: Result<Option<Text>, Fault>)
      requires Valid()
      modifies this
      ensures r.Ok? ==> Valid()
      ensures !Inside(old(stack), true) ==> r == Err(Fault(OutsideContainer, position))
      ensures Inside(old(stack), true) ==>
                && Took(KeyAt(input, old(position), Top(old(stack)).first), r, position)
                && (r.Ok? ==> stack == Looked(old(stack)))
    {
      if stack == [] || !stack[|stack| - 1].isObject {
        return Err(Fault(OutsideContainer, position));
      }
      var more :- AdvanceTo(CLOSE_BRACE);
      if !more {
        return Ok(None);
      }
      var c := CurrentByte();
      if c != QUOTE {
        return Err(Fault(ExpectedKey, position));
      }
      var key :- ParseString();
      SkipWhitespace();
      c := CurrentByte();
      if c != COLON {
        return Err(Fault(ExpectedColon, position));
      }
      position := position + 1;
      return Ok(Some(key));
    }

    method EndArray() returns (r: Result<(), Fault>)
      requires Valid()
      modifies this
      ensures Valid()
      ensures !Inside(old(stack), false) ==> r == Err(Fault(OutsideContainer, position))
      ensures Inside(old(stack), false) ==> Moved(EndAt(input, old(position), CLOSE_BRACKET), r, position)
      ensures stack == if r.Ok? then old(stack)[..|old(stack)| - 1] else old(stack)
    {
      if stack == [] || stack[|stack| - 1].isObject {
        return Err(Fault(OutsideContainer, position));
      }
      SkipWhitespace();
      var c := CurrentByte();
      if c != CLOSE_BRACKET {
        return Err(Fault(ExpectedClose, position));
      }
      position := position + 1;
      stack := stack[..|stack| - 1];
      return Ok(());
    }

    method EndObject() returns (r: Result<(), Fault>)
      requires Valid()
      modifies this
      ensures Valid()
      ensures !Inside(old(stack), true) ==> r == Err(Fault(OutsideContainer, position))
      ensures Inside(old(stack), true) ==> Moved(EndAt(input, old(position), CLOSE_BRACE), r, position)
      ensures stack == if r.Ok? then old(stack)[..|old(stack)| - 1] else old(stack)
    {
      if stack == [] || !stack[|stack| - 1].isObject {
        return Err(Fault(OutsideContainer, position));
      }
      SkipWhitespace();
      var c := CurrentByte();
      if c != CLOSE_BRACE {
        return Err(Fault(ExpectedClose, position));
      }
      position := position + 1;
      stack := stack[..|stack| - 1];
      return Ok(());
    }

    /** Never deeper than the limit, and on success as many containers open as before. */
    method SkipValue() returns (r: Result<(), Fault>)
      requires Valid()
      modifies this
      ensures r.Ok? ==> Valid()
      ensures Moved(SkipAt(input, old(position), |old(stack)|, maxDepth), r, position)
      ensures r.Ok? ==> stack == old(stack)
      decreases |input| - position, 1
    {
      ghost var start := SkipSpace(input, position);
      var kind :- Peek();
      SkipTwice(input, old(position));
      if kind == NullValue {
        r := ReadNull();
      } else if kind == BooleanValue {
        var flag := ReadBool();
        r := Discard(flag);
      } else if kind == IntegerValue || kind == FloatingValue {
        var number := ScanNumber();
        r := Discard(number);
      } else if kind == ArrayValue {
        var _ :- BeginArray();
        r := SkipElements();
      } else if kind == ObjectValue {
        var _ :- BeginObject();
        r := SkipKeys();
      } else {
        var text := ParseString();
        r := Discard(text);
      }
    }

    /** The loop over the elements of the array just begun, and its end. */
    method SkipElements() returns (r: Result<(), Fault>)
      requires Valid() && Inside(stack, false) && Top(stack).first
      modifies this
      ensures r.Ok? ==> Valid()
      ensures Moved(SkipItems(input, old(position), |old(stack)|, maxDepth, true), r, position)
      ensures r.Ok? ==> stack == old(stack)[..|old(stack)| - 1]
      decreases |input| - position, 2
    {
      hide Advance, EndAt, SkipAt, SkipSpace, Took;
      ghost var outer, depth := stack[..|stack| - 1], |stack|;
      ghost var whole := SkipItems(input, position, depth, maxDepth, true);
      var first := true;
      while true
        invariant Valid() && position >= old(position)
        invariant stack == outer + [Frame(false, first)]
        invariant SkipItems(input, position, depth, maxDepth, first) == whole
        decreases |input| - position
      {
        var more :- NextElement();
        if !more {
          break;
        }
        var _ :- SkipValue();
        first := false;
      }
      r := EndArray();
    }

    /** The loop over the entries of the object just begun, and its end. */
    method SkipKeys() returns (r: Result<(), Fault>)
      requires Valid() && Inside(stack, true) && Top(stack).first
      modifies this
      ensures r.Ok? ==> Valid()
      ensures Moved(SkipEntries(input, old(position), |old(stack)|, maxDepth, true), r, position)
      ensures r.Ok? ==> stack == old(stack)[..|old(stack)| - 1]
      decreases |input| - position, 2
    {
      hide KeyAt, EndAt, SkipAt;
      ghost var outer, depth := stack[..|stack| - 1], |stack|;
      ghost var whole := SkipEntries(input, position, depth, maxDepth, true);
      var first := true;
      while true
        invariant Valid() && position >= old(position)
        invariant stack == outer + [Frame(true, first)]
        invariant SkipEntries(input, position, depth, maxDepth, first) == whole
        decreases |input| - position
      {
        var key :- NextKey();
        if key.None? {
          break;
        }
        var _ :- SkipValue();
        first := false;
      }
      r := EndObject();
    }

    method Finish() returns (r: Result<(), Fault>)
      requires Valid()
      modifies this
      ensures Valid() && stack == old(stack)
      ensures r == Finished(input, old(position))
    {
      SkipWhitespace();
      if position != |input| {
        return Err(Fault(TrailingCharacters, position));
      }
      return Ok(());
    }
  }

  function Top(stack: seq<Frame>): Frame
    requires stack != []
  {
    stack[|stack| - 1]
  }

  predicate Inside(stack: seq<Frame>, isObject: bool) {
    stack != [] && Top(stack).isObject == isObject
  }

  /** The stack once an item of the innermost container was looked for. */
  function Looked(stack: seq<Frame>): seq<Frame>
    requires stack != []
  {
    stack[..|stack| - 1] + [Frame(Top(stack).isObject, false)]
  }

  function Finished(input: seq<Byte>, pos: nat): Result<(), Fault> {
    var end := SkipSpace(input, pos);
    if end == |input| then Ok(()) else Err(Fault(TrailingCharacters, end))
  }

  lemma PrependNothing(r: T.Read<seq<Byte>>)
    ensures Prepend([], r) == r
  {
    if r.Ok? {
      assert [] + r.value.0 == r.value.0;
    }
  }

  lemma PrependTwice(a: seq<Byte>, b: seq<Byte>, r: T.Read<seq<Byte>>)
    ensures Prepend(a, Prepend(b, r)) == Prepend(a + b, r)
  {
    if r.Ok? {
      assert a + (b + r.value.0) == a + b + r.value.0;
    }
  }
}
