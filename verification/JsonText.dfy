/** Strings of JSON text (section 7 of RFC 8259): how they are quoted, and how they are parsed. */
module JsonText {
  import opened Bytes
  import opened JsonNumber
  import Utf8
  import Base64

  datatype Reason =
    | ExpectedValue
    | UnexpectedCharacter
    | ExpectedLiteral
    | ExpectedBoolean
    | InvalidNumber
    | ExpectedInteger
    | ExpectedNonNegative
    | OutOfRange
    | ExpectedString
    | InvalidBase64(base64: Base64.Error)
    | ExpectedArray
    | ExpectedObject
    | ExpectedComma
    | TrailingComma
    | ExpectedKey
    | ExpectedColon
    | ExpectedClose
    | TooDeep
    | OutsideContainer
    | UnterminatedString
    | ControlCharacter
    | InvalidEscape
    | InvalidHex
    | UnpairedSurrogate
    | InvalidUtf8(utf8: Utf8.Reason)
    | TrailingCharacters
    | UnexpectedItem

  /** A failed read and the byte offset whose line and column it reports. */
  datatype Fault = Fault(reason: Reason, offset: nat)

  type Read<T> = Result<(T, nat), Fault>

  const QUOTE: Byte := 0x22
  const BACKSLASH: Byte := 0x5C
  const LOWER_U: Byte := 0x75

  // Quoting

  /** Lower-case hexadecimal. */
  function HexDigit(v: nat): Byte
    requires v < 0x10
  {
    if v < 10 then 0x30 + v else 0x61 + (v - 10)
  }

  /** The letter after the backslash, for the bytes that have one. */
  function ShortEscape(b: Byte): Option<Byte> {
    if b == QUOTE || b == BACKSLASH then Some(b)
    else if b == 0x08 then Some(0x62)
    else if b == 0x0C then Some(0x66)
    else if b == 0x0A then Some(0x6E)
    else if b == 0x0D then Some(0x72)
    else if b == 0x09 then Some(0x74)
    else None
  }

  function Escaped(b: Byte): (text: seq<Byte>)
    ensures text != []
  {
    if ShortEscape(b).Some? then [BACKSLASH, ShortEscape(b).value]
    else if b < 0x20 then [BACKSLASH, LOWER_U, 0x30, 0x30, HexDigit(b / 0x10), HexDigit(b % 0x10)]
    else [b]
  }

  /** The bytes from `k` on, each escaped. */
  function EscapedFrom(text: seq<Byte>, k: nat): seq<Byte>
    requires k <= |text|
    decreases |text| - k
  {
    if k == |text| then [] else Escaped(text[k]) + EscapedFrom(text, k + 1)
  }

  function Quoted(text: seq<Byte>): seq<Byte> {
    [QUOTE] + EscapedFrom(text, 0) + [QUOTE]
  }

  // Parsing

  function HexValue(c: Byte): (r: Option<nat>)
    ensures r.Some? ==> r.value < 0x10
  {
    if 0x30 <= c <= 0x39 then Some(c - 0x30)
    else if 0x61 <= c <= 0x66 then Some(c - 0x61 + 10)
    else if 0x41 <= c <= 0x46 then Some(c - 0x41 + 10)
    else None
  }

  /** The digits from number `i` of four on; `value` is what the earlier ones say. */
  function TakeHex(input: seq<Byte>, pos: nat, i: nat, value: nat): (r: Read<nat>)
    requires i <= 4
    ensures r.Ok? ==> r.value.1 == pos + (4 - i) && (i < 4 ==> r.value.1 <= |input|)
    decreases |input| - pos
  {
    if i == 4 then Ok((value, pos))
    else
      match HexValue(Current(input, pos))
      case None => Err(Fault(InvalidHex, pos))
      case Some(digit) => TakeHex(input, pos + 1, i + 1, value * 0x10 + digit)
  }

  function Hex4(input: seq<Byte>, pos: nat): Read<nat> {
    TakeHex(input, pos, 0, 0)
  }

  lemma {:induction false} TakeHexBelow(input: seq<Byte>, pos: nat, i: nat, value: nat)
    requires i <= 4 && TakeHex(input, pos, i, value).Ok?
    requires value < (if i == 0 then 1 else if i == 1 then 0x10 else if i == 2 then 0x100 else if i == 3 then 0x1000 else 0x10000)
    ensures TakeHex(input, pos, i, value).value.0 < 0x10000
    decreases 4 - i
  {
    if i < 4 {
      TakeHexBelow(input, pos + 1, i + 1, value * 0x10 + HexValue(Current(input, pos)).value);
    }
  }

  function LetterEscape(c: Byte): (r: Option<Byte>)
    ensures r.Some? ==> r.value < 0x80
  {
    if c == QUOTE || c == BACKSLASH || c == 0x2F then Some(c)
    else if c == 0x62 then Some(0x08)
    else if c == 0x66 then Some(0x0C)
    else if c == 0x6E then Some(0x0A)
    else if c == 0x72 then Some(0x0D)
    else if c == 0x74 then Some(0x09)
    else None
  }

  /** The escape whose backslash is just before `pos`: what it stands for, in UTF-8. */
  function TakeEscape(input: seq<Byte>, pos: nat): Read<seq<Byte>> {
    var c := Current(input, pos);
    if LetterEscape(c).Some? then Ok(([LetterEscape(c).value], pos + 1))
    else if c == LOWER_U then
      var (codePoint, next) :- TakeCodePoint(input, pos + 1);
      Ok((Utf8.Append(codePoint), next))
    else Err(Fault(InvalidEscape, pos + 1))
  }

  /** The scalar value that one `\u` escape or a pair of them names. */
  function TakeCodePoint(input: seq<Byte>, pos: nat): (r: Read<Utf8.Scalar>)
    ensures r.Ok? ==> pos < r.value.1 <= |input|
  {
    match Hex4(input, pos)
    case Err(fault) => Err(fault)
    case Ok((first, next)) =>
      TakeHexBelow(input, pos, 0, 0);
      if 0xD800 <= first <= 0xDBFF then
        if Current(input, next) != BACKSLASH || next + 1 >= |input| || input[next + 1] != LOWER_U then
          Err(Fault(UnpairedSurrogate, next))
        else
          match Hex4(input, next + 2)
          case Err(fault) => Err(fault)
          case Ok((low, end)) =>
            if low < 0xDC00 || low > 0xDFFF then Err(Fault(UnpairedSurrogate, end))
            else Ok((Utf8.FromPair(first, low), end))
      else if 0xDC00 <= first <= 0xDFFF then Err(Fault(UnpairedSurrogate, next))
      else Ok((first, next))
  }

  /** What one character of a string stands for: an escape, an ASCII byte, or a UTF-8 sequence. */
  function TakeUnit(input: seq<Byte>, pos: nat): (r: Read<seq<Byte>>)
    requires pos < |input|
    ensures r.Ok? ==> pos < r.value.1 <= |input|
  {
    var c := input[pos];
    if c < 0x20 then Err(Fault(ControlCharacter, pos))
    else if c == BACKSLASH then
      TakeEscape(input, pos + 1)
    else if c < 0x80 then Ok(([c], pos + 1))
    else
      match Utf8.Decode(input, pos)
      case Err(reason) => Err(Fault(InvalidUtf8(reason), pos))
      case Ok((_, end)) => Ok((Copy(input, pos, end - pos), end))
  }

  /** The string from `pos` on, up to its closing quote; `start` is where it was opened. */
  function TakeBody(input: seq<Byte>, pos: nat, start: nat): (r: Read<seq<Byte>>)
    ensures r.Ok? ==> pos < r.value.1 <= |input|
    decreases |input| - pos, 1
  {
    if pos >= |input| then Err(Fault(UnterminatedString, start))
    else if input[pos] == QUOTE then Ok(([], pos + 1))
    else TakeMore(input, pos, start)
  }

  /** One character, and the string after it. */
  function TakeMore(input: seq<Byte>, pos: nat, start: nat): (r: Read<seq<Byte>>)
    requires pos < |input|
    ensures r.Ok? ==> pos < r.value.1 <= |input|
    decreases |input| - pos, 0
  {
    var (unit, next) :- TakeUnit(input, pos);
    var (rest, end) :- TakeBody(input, next, start);
    Ok((unit + rest, end))
  }

  /** The string whose opening quote is at `pos`. */
  function ParseString(input: seq<Byte>, pos: nat): (r: Read<seq<Byte>>)
    ensures r.Ok? ==> pos < r.value.1 <= |input|
  {
    TakeBody(input, pos + 1, pos)
  }

  // Parsing undoes quoting

  lemma HexOfDigits(input: seq<Byte>, pos: nat, high: nat, low: nat)
    requires high < 0x10 && low < 0x10
    requires pos + 4 <= |input| && input[pos] == 0x30 && input[pos + 1] == 0x30
    requires input[pos + 2] == HexDigit(high) && input[pos + 3] == HexDigit(low)
    ensures Hex4(input, pos) == Ok((high * 0x10 + low, pos + 4))
  {
    assert TakeHex(input, pos + 3, 3, high) == Ok((high * 0x10 + low, pos + 4));
    assert TakeHex(input, pos + 2, 2, 0) == TakeHex(input, pos + 3, 3, high);
    assert TakeHex(input, pos + 1, 1, 0) == TakeHex(input, pos + 2, 2, 0);
  }

  lemma UnitOfEscaped(input: seq<Byte>, pos: nat, b: Byte)
    requires b < 0x80 && At(input, pos, Escaped(b))
    ensures pos < |input| && input[pos] != QUOTE
    ensures TakeUnit(input, pos) == Ok(([b], pos + |Escaped(b)|))
  {
    var text := Escaped(b);
    assert input[pos + 0] == text[0];
    if |text| > 1 {
      assert input[pos + 1] == text[1];
    }
    if |text| == 6 {
      assert input[pos + 2] == text[2] && input[pos + 3] == text[3];
      assert input[pos + 4] == text[4] && input[pos + 5] == text[5];
      HexOfDigits(input, pos + 2, b / 0x10, b % 0x10);
      assert TakeCodePoint(input, pos + 2) == Ok((b, pos + 6));
    }
  }

  /** Bytes of multi-byte sequences are copied as they are. */
  lemma {:induction false} EscapedHigh(text: seq<Byte>, k: nat, end: nat)
    requires k <= end <= |text| && forall i :: k <= i < end ==> text[i] >= 0x80
    ensures EscapedFrom(text, k) == Copy(text, k, end - k) + EscapedFrom(text, end)
    decreases end - k
  {
    if k < end {
      EscapedHigh(text, k + 1, end);
    }
  }

  lemma HighBytes(codePoint: nat, i: nat)
    requires Utf8.IsScalar(codePoint) && codePoint >= 0x80 && i < |Utf8.Append(codePoint)|
    ensures Utf8.Append(codePoint)[i] >= 0x80
  {
  }

  lemma LowByte(text: seq<Byte>, k: nat)
    requires k < |text| && text[k] < 0x80
    ensures Utf8.Decode(text, k) == Ok((text[k] as nat, k + 1))
  {
  }

  /** A multi-byte sequence is copied as it is. */
  lemma SequenceIsHigh(text: seq<Byte>, k: nat)
    requires k < |text| && text[k] >= 0x80 && Utf8.Decode(text, k).Ok?
    ensures var (v, end) := Utf8.Decode(text, k).value;
            && Utf8.IsScalar(v) && v >= 0x80 && Utf8.Append(v) == Copy(text, k, end - k)
            && EscapedFrom(text, k) == Copy(text, k, end - k) + EscapedFrom(text, end)
  {
    var (v, end) := Utf8.Decode(text, k).value;
    Utf8.AppendOfDecode(text, k);
    var bytes := Utf8.Append(v);
    CopyIsAt(text, k, bytes);
    assert bytes[0] == text[k + 0];
    assert v >= 0x80;
    forall i | k <= i < end
      ensures text[i] >= 0x80
    {
      HighBytes(v, i - k);
      assert bytes[i - k] == text[k + (i - k)];
    }
    EscapedHigh(text, k, end);
  }

  lemma UnitOfScalar(input: seq<Byte>, pos: nat, v: nat)
    requires Utf8.IsScalar(v) && v >= 0x80 && At(input, pos, Utf8.Append(v))
    ensures pos < |input| && input[pos] != QUOTE
    ensures TakeUnit(input, pos) == Ok((Utf8.Append(v), pos + |Utf8.Append(v)|))
  {
    var bytes := Utf8.Append(v);
    HighBytes(v, 0);
    assert bytes[0] == input[pos + 0];
    Utf8.DecodeOfAppend(input, pos, v);
    CopyIsAt(input, pos, bytes);
  }

  lemma UnitOfAscii(input: seq<Byte>, pos: nat, text: seq<Byte>, k: nat)
    requires k < |text| && text[k] < 0x80
    requires At(input, pos, EscapedFrom(text, k))
    ensures pos < |input| && input[pos] != QUOTE
    ensures TakeUnit(input, pos) == Ok((Copy(text, k, 1), pos + |Escaped(text[k])|))
    ensures At(input, pos + |Escaped(text[k])|, EscapedFrom(text, k + 1))
  {
    AtConcat(input, pos, Escaped(text[k]), EscapedFrom(text, k + 1));
    UnitOfEscaped(input, pos, text[k]);
    assert Copy(text, k + 1, 0) == [];
    assert Copy(text, k, 1) == [text[k]];
  }

  lemma UnitOfBytes(input: seq<Byte>, pos: nat, v: nat, bytes: seq<Byte>, rest: seq<Byte>)
    requires Utf8.IsScalar(v) && v >= 0x80 && bytes == Utf8.Append(v)
    requires At(input, pos, bytes + rest)
    ensures pos < |input| && input[pos] != QUOTE
    ensures TakeUnit(input, pos) == Ok((bytes, pos + |bytes|))
    ensures At(input, pos + |bytes|, rest)
  {
    AtConcat(input, pos, bytes, rest);
    UnitOfScalar(input, pos, v);
  }

  lemma UnitOfHigh(input: seq<Byte>, pos: nat, text: seq<Byte>, k: nat, end: nat)
    requires k < |text| && text[k] >= 0x80 && Utf8.Decode(text, k).Ok? && Utf8.Decode(text, k).value.1 == end
    requires At(input, pos, EscapedFrom(text, k))
    ensures pos < |input| && input[pos] != QUOTE
    ensures TakeUnit(input, pos) == Ok((Copy(text, k, end - k), pos + (end - k)))
    ensures |EscapedFrom(text, k)| == end - k + |EscapedFrom(text, end)|
    ensures At(input, pos + (end - k), EscapedFrom(text, end))
  {
    SequenceIsHigh(text, k);
    UnitOfBytes(input, pos, Utf8.Decode(text, k).value.0, Copy(text, k, end - k), EscapedFrom(text, end));
  }

  /** `unit` before what was read. */
  function Prepend(unit: seq<Byte>, r: Read<seq<Byte>>): Read<seq<Byte>> {
    match r
    case Ok((rest, end)) => Ok((unit + rest, end))
    case Err(fault) => Err(fault)
  }

  lemma BodyStep(input: seq<Byte>, pos: nat, start: nat, unit: seq<Byte>, next: nat)
    requires pos < |input| && input[pos] != QUOTE && TakeUnit(input, pos) == Ok((unit, next))
    ensures TakeBody(input, pos, start) == Prepend(unit, TakeBody(input, next, start))
  {
    assert TakeBody(input, pos, start) == TakeMore(input, pos, start);
  }

  /** The first character of the rest of a valid text is taken whole from its escaped form. */
  lemma BodyOfCharacter(input: seq<Byte>, pos: nat, start: nat, text: seq<Byte>, k: nat)
      returns (end: nat, next: nat)
    requires k < |text| && Utf8.ValidFrom(text, k)
    requires At(input, pos, EscapedFrom(text, k))
    ensures k < end <= |text| && Utf8.ValidFrom(text, end)
    ensures TakeBody(input, pos, start) == Prepend(Copy(text, k, end - k), TakeBody(input, next, start))
    ensures pos + |EscapedFrom(text, k)| == next + |EscapedFrom(text, end)|
    ensures At(input, next, EscapedFrom(text, end))
  {
    end := Utf8.Decode(text, k).value.1;
    if text[k] < 0x80 {
      assert end == k + 1 by {
        LowByte(text, k);
      }
      next := pos + |Escaped(text[k])|;
      UnitOfAscii(input, pos, text, k);
    } else {
      next := pos + (end - k);
      UnitOfHigh(input, pos, text, k, end);
    }
    BodyStep(input, pos, start, Copy(text, k, end - k), next);
  }

  lemma {:induction false} BodyOfEscaped(input: seq<Byte>, pos: nat, start: nat, text: seq<Byte>, k: nat, last: nat)
    requires k <= |text| && Utf8.ValidFrom(text, k)
    requires At(input, pos, EscapedFrom(text, k)) && last == pos + |EscapedFrom(text, k)|
    requires last < |input| && input[last] == QUOTE
    ensures TakeBody(input, pos, start) == Ok((Copy(text, k, |text| - k), last + 1))
    decreases |text| - k
  {
    hide At, TakeUnit, Escaped, Utf8.Decode;
    if k < |text| {
      var end, next := BodyOfCharacter(input, pos, start, text, k);
      BodyOfEscaped(input, next, start, text, end, last);
      CopyConcat(text, k, end, |text|);
    }
  }

  lemma {:induction false} CopyConcat(input: seq<Byte>, i: nat, j: nat, k: nat)
    requires i <= j <= k <= |input|
    ensures Copy(input, i, k - i) == Copy(input, i, j - i) + Copy(input, j, k - j)
    decreases j - i
  {
    if i < j {
      CopyConcat(input, i + 1, j, k);
    }
  }

  lemma CopyAll(text: seq<Byte>)
    ensures Copy(text, 0, |text|) == text
  {
    CopyIsAt(text, 0, text);
  }

  lemma QuotedParts(input: seq<Byte>, pos: nat, body: seq<Byte>)
    requires At(input, pos, [QUOTE] + body + [QUOTE])
    ensures pos < |input| && input[pos] == QUOTE
    ensures At(input, pos + 1, body)
    ensures pos + 1 + |body| < |input| && input[pos + 1 + |body|] == QUOTE
  {
    AtConcat(input, pos, [QUOTE] + body, [QUOTE]);
    AtConcat(input, pos, [QUOTE], body);
    AtByte(input, pos, QUOTE);
    AtByte(input, pos + 1 + |body|, QUOTE);
  }

  /** Parsing undoes quoting on every well-formed UTF-8 text, whatever follows it. */
  lemma ParseOfQuoted(input: seq<Byte>, pos: nat, text: seq<Byte>)
    requires Utf8.Valid(text) && At(input, pos, Quoted(text))
    ensures pos < |input| && input[pos] == QUOTE
    ensures ParseString(input, pos) == Ok((text, pos + |Quoted(text)|))
  {
    QuotedParts(input, pos, EscapedFrom(text, 0));
    BodyOfEscaped(input, pos + 1, pos, text, 0, pos + 1 + |EscapedFrom(text, 0)|);
    CopyAll(text);
  }

  // What parsing gives

  lemma UnitIsValid(input: seq<Byte>, pos: nat)
    requires pos < |input| && TakeUnit(input, pos).Ok?
    ensures Utf8.Valid(TakeUnit(input, pos).value.0)
  {
    var c := input[pos];
    if c == BACKSLASH {
      EscapeIsValid(input, pos + 1);
    } else if c < 0x80 {
      Utf8.ValidOne(c);
    } else {
      var (v, end) := Utf8.Decode(input, pos).value;
      Utf8.AppendOfDecode(input, pos);
      CopyIsAt(input, pos, Utf8.Append(v));
      Utf8.ValidOne(v);
    }
  }

  lemma EscapeIsValid(input: seq<Byte>, pos: nat)
    requires TakeEscape(input, pos).Ok?
    ensures Utf8.Valid(TakeEscape(input, pos).value.0)
  {
    var c := Current(input, pos);
    if LetterEscape(c).Some? {
      Utf8.ValidOne(LetterEscape(c).value);
    } else {
      Utf8.ValidOne(TakeCodePoint(input, pos + 1).value.0);
    }
  }

  /** A parsed string is well-formed UTF-8, so it can be written again. */
  lemma {:induction false} BodyIsValid(input: seq<Byte>, pos: nat, start: nat)
    requires TakeBody(input, pos, start).Ok?
    ensures Utf8.Valid(TakeBody(input, pos, start).value.0)
    decreases |input| - pos
  {
    if input[pos] != QUOTE {
      var (unit, next) := TakeUnit(input, pos).value;
      UnitIsValid(input, pos);
      BodyIsValid(input, next, start);
      Utf8.ValidConcat(unit, TakeBody(input, next, start).value.0);
    }
  }

  lemma AppendIsShort(v: nat)
    requires Utf8.IsScalar(v)
    ensures |Utf8.Append(v)| <= 4 && (v < 0x10000 ==> |Utf8.Append(v)| <= 3)
  {
  }

  lemma UnitIsShorter(input: seq<Byte>, pos: nat)
    requires pos < |input| && TakeUnit(input, pos).Ok?
    ensures pos + |TakeUnit(input, pos).value.0| <= TakeUnit(input, pos).value.1
  {
    if input[pos] == BACKSLASH && LetterEscape(Current(input, pos + 1)).None? {
      AppendIsShort(TakeCodePoint(input, pos + 2).value.0);
    }
  }

  /** A parsed string is never longer than its spelling. */
  lemma {:induction false} BodyIsShorter(input: seq<Byte>, pos: nat, start: nat)
    requires TakeBody(input, pos, start).Ok?
    ensures pos + |TakeBody(input, pos, start).value.0| < TakeBody(input, pos, start).value.1
    decreases |input| - pos
  {
    if input[pos] != QUOTE {
      UnitIsShorter(input, pos);
      BodyIsShorter(input, TakeUnit(input, pos).value.1, start);
    }
  }

  // What quoting gives

  /** From `i` on: no control byte, no quote and no backslash but those that a backslash escapes. */
  predicate CleanFrom(s: seq<Byte>, i: nat)
    requires i <= |s|
    decreases |s| - i
  {
    if i == |s| then true
    else if s[i] == BACKSLASH then i + 1 < |s| && s[i + 1] >= 0x20 && CleanFrom(s, i + 2)
    else s[i] >= 0x20 && s[i] != QUOTE && CleanFrom(s, i + 1)
  }

  lemma {:induction false} CleanTail(a: seq<Byte>, b: seq<Byte>, i: nat)
    requires i <= |b|
    ensures CleanFrom(a + b, |a| + i) <==> CleanFrom(b, i)
    decreases |b| - i
  {
    if i < |b| {
      assert (a + b)[|a| + i] == b[i];
      if b[i] != BACKSLASH {
        CleanTail(a, b, i + 1);
      } else if i + 1 < |b| {
        CleanTail(a, b, i + 2);
      }
    }
  }

  lemma CleanEscape(b: Byte, rest: seq<Byte>)
    requires CleanFrom(rest, 0)
    ensures CleanFrom(Escaped(b) + rest, 0)
  {
    var text := Escaped(b);
    var all := text + rest;
    CleanTail(text, rest, 0);
    assert all[0] == text[0];
    if |text| > 1 {
      assert all[1] == text[1];
    }
    if |text| == 6 {
      assert all[2] == text[2] && all[3] == text[3] && all[4] == text[4] && all[5] == text[5];
      assert CleanFrom(all, 5) && CleanFrom(all, 4) && CleanFrom(all, 3) && CleanFrom(all, 2);
    }
  }

  /** A quoted text of any bytes: between its quotes no raw control byte and no unescaped quote. */
  lemma {:induction false} QuotedIsClean(text: seq<Byte>, k: nat)
    requires k <= |text|
    ensures CleanFrom(EscapedFrom(text, k), 0)
    decreases |text| - k
  {
    if k < |text| {
      QuotedIsClean(text, k + 1);
      CleanEscape(text[k], EscapedFrom(text, k + 1));
    }
  }

  // Escapes by number

  function Hex(v: nat): seq<Byte>
    requires v < 0x10000
  {
    [HexDigit(v / 0x1000), HexDigit(v / 0x100 % 0x10), HexDigit(v / 0x10 % 0x10), HexDigit(v % 0x10)]
  }

  lemma Hex4OfHex(input: seq<Byte>, pos: nat, v: nat)
    requires v < 0x10000 && At(input, pos, Hex(v))
    ensures Hex4(input, pos) == Ok((v, pos + 4))
  {
    var text := Hex(v);
    assert input[pos + 0] == text[0] && input[pos + 1] == text[1];
    assert input[pos + 2] == text[2] && input[pos + 3] == text[3];
    assert v / 0x1000 * 0x10 + v / 0x100 % 0x10 == v / 0x100;
    assert v / 0x100 * 0x10 + v / 0x10 % 0x10 == v / 0x10;
    assert TakeHex(input, pos + 3, 3, v / 0x10) == Ok((v, pos + 4));
    assert TakeHex(input, pos + 2, 2, v / 0x100) == TakeHex(input, pos + 3, 3, v / 0x10);
    assert TakeHex(input, pos + 1, 1, v / 0x1000) == TakeHex(input, pos + 2, 2, v / 0x100);
  }

  lemma NamedByFour(input: seq<Byte>, pos: nat, v: nat)
    requires Utf8.IsScalar(v) && v < 0x10000 && At(input, pos, Hex(v))
    ensures TakeCodePoint(input, pos) == Ok((v, pos + 4))
  {
    Hex4OfHex(input, pos, v);
  }

  lemma PairIn(input: seq<Byte>, pos: nat, high: seq<Byte>, low: seq<Byte>)
    requires |high| == 4 && At(input, pos, high + [BACKSLASH, LOWER_U] + low)
    ensures At(input, pos, high) && At(input, pos + 6, low)
    ensures input[pos + 4] == BACKSLASH && input[pos + 5] == LOWER_U
  {
    AtConcat(input, pos, high + [BACKSLASH, LOWER_U], low);
    AtConcat(input, pos, high, [BACKSLASH, LOWER_U]);
    AtConcat(input, pos + 4, [BACKSLASH], [LOWER_U]);
    assert [BACKSLASH] + [LOWER_U] == [BACKSLASH, LOWER_U];
    AtByte(input, pos + 4, BACKSLASH);
    AtByte(input, pos + 5, LOWER_U);
  }

  lemma TakenPair(input: seq<Byte>, pos: nat, high: nat, low: nat)
    requires 0xD800 <= high <= 0xDBFF && 0xDC00 <= low <= 0xDFFF
    requires pos + 5 < |input| && input[pos + 4] == BACKSLASH && input[pos + 5] == LOWER_U
    requires Hex4(input, pos) == Ok((high, pos + 4)) && Hex4(input, pos + 6) == Ok((low, pos + 10))
    ensures TakeCodePoint(input, pos) == Ok((Utf8.FromPair(high, low), pos + 10))
  {
  }

  lemma EscapeOfCodePoint(input: seq<Byte>, pos: nat, v: nat, end: nat)
    requires Utf8.IsScalar(v) && Current(input, pos) == LOWER_U
    requires TakeCodePoint(input, pos + 1) == Ok((v, end))
    ensures TakeEscape(input, pos) == Ok((Utf8.Append(v), end))
  {
  }

  /** A scalar value below U+10000 can be named by one escape, and is then read as its UTF-8. */
  lemma EscapeNamesScalar(input: seq<Byte>, pos: nat, v: nat)
    requires Utf8.IsScalar(v) && v < 0x10000 && At(input, pos, [LOWER_U] + Hex(v))
    ensures TakeEscape(input, pos) == Ok((Utf8.Append(v), pos + 5))
  {
    AtConcat(input, pos, [LOWER_U], Hex(v));
    AtByte(input, pos, LOWER_U);
    NamedByFour(input, pos + 1, v);
    EscapeOfCodePoint(input, pos, v, pos + 5);
  }

  /** A surrogate pair names the scalar value its formula gives. */
  lemma PairNamesScalar(input: seq<Byte>, pos: nat, high: nat, low: nat)
    requires 0xD800 <= high <= 0xDBFF && 0xDC00 <= low <= 0xDFFF
    requires At(input, pos, [LOWER_U] + (Hex(high) + [BACKSLASH, LOWER_U] + Hex(low)))
    ensures Utf8.IsScalar(Utf8.FromPair(high, low))
    ensures TakeEscape(input, pos) == Ok((Utf8.Append(Utf8.FromPair(high, low)), pos + 11))
  {
    AtConcat(input, pos, [LOWER_U], Hex(high) + [BACKSLASH, LOWER_U] + Hex(low));
    AtByte(input, pos, LOWER_U);
    PairIn(input, pos + 1, Hex(high), Hex(low));
    Hex4OfHex(input, pos + 1, high);
    Hex4OfHex(input, pos + 7, low);
    TakenPair(input, pos + 1, high, low);
    EscapeOfCodePoint(input, pos, Utf8.FromPair(high, low), pos + 11);
  }

  /** A lone surrogate names nothing. */
  lemma LoneSurrogateIsRefused(input: seq<Byte>, pos: nat, v: nat)
    requires Utf8.IsSurrogate(v) && At(input, pos, [LOWER_U] + Hex(v))
    requires v <= 0xDBFF ==> Current(input, pos + 5) != BACKSLASH
    ensures TakeEscape(input, pos) == Err(Fault(UnpairedSurrogate, pos + 5))
  {
    AtConcat(input, pos, [LOWER_U], Hex(v));
    AtByte(input, pos, LOWER_U);
    Hex4OfHex(input, pos + 1, v);
  }
}
