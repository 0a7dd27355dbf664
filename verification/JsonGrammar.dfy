/** Reading JSON text (RFC 8259): what each call of the pull parser takes, and when it fails. */
module JsonGrammar {
  import opened Bytes
  import opened Serial
  import opened JsonNumber
  import opened JsonText
  import Base64
  import Utf8

  /** A floating-point number is kept as the text that shows it. */
  type Value = Tree<FloatText>
  type Field = Entry<FloatText>

  const COMMA: Byte := 0x2C
  const COLON: Byte := 0x3A
  const OPEN_BRACKET: Byte := 0x5B
  const CLOSE_BRACKET: Byte := 0x5D
  const OPEN_BRACE: Byte := 0x7B
  const CLOSE_BRACE: Byte := 0x7D
  const NULL_TEXT: seq<Byte> := [0x6E, 0x75, 0x6C, 0x6C]
  const TRUE_TEXT: seq<Byte> := [0x74, 0x72, 0x75, 0x65]
  const FALSE_TEXT: seq<Byte> := [0x66, 0x61, 0x6C, 0x73, 0x65]

  predicate IsSpace(b: Byte) {
    b == 0x20 || b == 0x09 || b == 0x0A || b == 0x0D
  }

  function SkipSpace(input: seq<Byte>, pos: nat): (next: nat)
    ensures pos <= next && (pos <= |input| ==> next <= |input|)
    ensures next < |input| ==> !IsSpace(input[next])
    decreases |input| - pos
  {
    if pos < |input| && IsSpace(input[pos]) then SkipSpace(input, pos + 1) else pos
  }

  lemma SkipTwice(input: seq<Byte>, pos: nat)
    ensures SkipSpace(input, SkipSpace(input, pos)) == SkipSpace(input, pos)
  {
  }

  // The typed reads of the reader interface

  function ExpectLiteral(input: seq<Byte>, pos: nat, literal: seq<Byte>): Result<nat, Fault> {
    if At(input, pos, literal) then Ok(pos + |literal|) else Err(Fault(ExpectedLiteral, pos))
  }

  function NullAt(input: seq<Byte>, pos: nat): Result<nat, Fault> {
    ExpectLiteral(input, SkipSpace(input, pos), NULL_TEXT)
  }

  function BoolAt(input: seq<Byte>, pos: nat): Read<bool> {
    var start := SkipSpace(input, pos);
    if Current(input, start) == TRUE_TEXT[0] then
      var next :- ExpectLiteral(input, start, TRUE_TEXT);
      Ok((true, next))
    else if Current(input, start) == FALSE_TEXT[0] then
      var next :- ExpectLiteral(input, start, FALSE_TEXT);
      Ok((false, next))
    else Err(Fault(ExpectedBoolean, start))
  }

  function NumberAt(input: seq<Byte>, pos: nat): (r: Read<Number>)
    ensures r.Ok? ==> r.value.0.Valid() && pos < r.value.1 <= |input|
  {
    match ScanNumber(input, pos)
    case None => Err(Fault(InvalidNumber, pos))
    case Some(n) => Ok((n, pos + |n.Text()|))
  }

  function IntAt(input: seq<Byte>, pos: nat): Read<I64> {
    var start := SkipSpace(input, pos);
    var (n, next) :- NumberAt(input, start);
    if !n.IsInteger() then Err(Fault(ExpectedInteger, start))
    else if -TWO_63 <= n.IntegerValue() < TWO_63 then Ok((n.IntegerValue(), next))
    else Err(Fault(OutOfRange, start))
  }

  function UintAt(input: seq<Byte>, pos: nat): Read<U64> {
    var start := SkipSpace(input, pos);
    var (n, next) :- NumberAt(input, start);
    if !n.IsInteger() || n.minus then Err(Fault(ExpectedNonNegative, start))
    else if 0 <= n.IntegerValue() < TWO_64 then Ok((n.IntegerValue(), next))
    else Err(Fault(OutOfRange, start))
  }

  /** `inRange` tells which numbers a binary64 can hold. An integer is read as if it had a `.0`. */
  function FloatAt(input: seq<Byte>, pos: nat, inRange: FloatText -> bool): Read<FloatText> {
    var start := SkipSpace(input, pos);
    var (n, next) :- NumberAt(input, start);
    if inRange(n.WithPoint()) then Ok((n.WithPoint(), next)) else Err(Fault(OutOfRange, start))
  }

  function StrAt(input: Text, pos: nat): (r: Read<Text>)
    ensures r.Ok? ==> pos < r.value.1 <= |input| && Utf8.Valid(r.value.0)
  {
    var start := SkipSpace(input, pos);
    if Current(input, start) != QUOTE then Err(Fault(ExpectedString, start))
    else
      var (text, next) :- ParseString(input, start);
      BodyIsValid(input, start + 1, start);
      BodyIsShorter(input, start + 1, start);
      Ok((text, next))
  }

  function BlobAt(input: Text, pos: nat): (r: Read<Text>)
    ensures r.Ok? ==> pos < r.value.1 <= |input|
  {
    var (text, next) :- StrAt(input, pos);
    match Base64.Decode(text)
    case Err(error) => Err(Fault(InvalidBase64(error), SkipSpace(input, pos)))
    case Ok(bytes) =>
      Base64.DecodedIsShorter(text);
      Ok((bytes, next))
  }

  /** What a reader says about the value after the spaces, without taking it. */
  function PeekAt(input: seq<Byte>, pos: nat): Result<ValueKind, Fault> {
    var c := Current(input, pos);
    if c == NULL_TEXT[0] then Ok(NullValue)
    else if c == TRUE_TEXT[0] || c == FALSE_TEXT[0] then Ok(BooleanValue)
    else if c == QUOTE then Ok(StringValue)
    else if c == OPEN_BRACKET then Ok(ArrayValue)
    else if c == OPEN_BRACE then Ok(ObjectValue)
    else if c == MINUS || IsDigit(c) then
      var (n, _) :- NumberAt(input, pos);
      Ok(if n.IsInteger() then IntegerValue else FloatingValue)
    else Err(Fault(if pos >= |input| then ExpectedValue else UnexpectedCharacter, pos))
  }

  // Containers

  function EnterAt(input: seq<Byte>, pos: nat, opening: Byte, depth: nat, max: nat): (r: Result<nat, Fault>)
    requires opening != 0
    ensures r.Ok? ==> pos < r.value <= |input|
  {
    var start := SkipSpace(input, pos);
    if Current(input, start) != opening then
      Err(Fault(if opening == OPEN_BRACKET then ExpectedArray else ExpectedObject, start))
    else if depth >= max then Err(Fault(TooDeep, start))
    else Ok(start + 1)
  }

  /** On to the next item of a container, or to its closing bracket. */
  function Advance(input: seq<Byte>, pos: nat, first: bool, closing: Byte): (r: Read<bool>)
    ensures r.Ok? && pos <= |input| ==> pos <= r.value.1 <= |input|
  {
    var start := SkipSpace(input, pos);
    if first then Ok((Current(input, start) != closing, start))
    else if Current(input, start) == closing then Ok((false, start))
    else if Current(input, start) != COMMA then Err(Fault(ExpectedComma, start))
    else
      var next := SkipSpace(input, start + 1);
      if Current(input, next) == closing then Err(Fault(TrailingComma, next)) else Ok((true, next))
  }

  /** The next key and its colon, or nothing before the closing brace. */
  function KeyAt(input: Text, pos: nat, first: bool): (r: Read<Option<Text>>)
    ensures r.Ok? && pos <= |input| ==> pos <= r.value.1 <= |input|
    ensures r.Ok? && r.value.0.Some? ==> pos < r.value.1 <= |input| && Utf8.Valid(r.value.0.value)
  {
    var (more, start) :- Advance(input, pos, first, CLOSE_BRACE);
    if !more then Ok((None, start))
    else if Current(input, start) != QUOTE then Err(Fault(ExpectedKey, start))
    else
      var (key, end) :- ParseString(input, start);
      BodyIsValid(input, start + 1, start);
      BodyIsShorter(input, start + 1, start);
      var next := SkipSpace(input, end);
      if Current(input, next) != COLON then Err(Fault(ExpectedColon, next)) else Ok((Some(key), next + 1))
  }

  function EndAt(input: seq<Byte>, pos: nat, closing: Byte): (r: Result<nat, Fault>)
    requires closing != 0
    ensures r.Ok? ==> pos < r.value <= |input|
  {
    var start := SkipSpace(input, pos);
    if Current(input, start) != closing then Err(Fault(ExpectedClose, start)) else Ok(start + 1)
  }

  // A consumer that knows the shape of the value makes one typed read call for each of its parts

  function PullLeaf(input: Text, pos: nat, kind: Kind, inRange: FloatText -> bool): (r: Read<Leaf<FloatText>>)
    ensures r.Ok? ==> pos < r.value.1 <= |input|
  {
    match kind
    case NullKind =>
      var next :- NullAt(input, pos);
      Ok((Null, next))
    case BoolKind =>
      var (flag, next) :- BoolAt(input, pos);
      Ok((Bool(flag), next))
    case SignedKind =>
      var (v, next) :- IntAt(input, pos);
      Ok((Signed(v), next))
    case UnsignedKind =>
      var (v, next) :- UintAt(input, pos);
      Ok((Unsigned(v), next))
    case FloatKind =>
      var (f, next) :- FloatAt(input, pos, inRange);
      Ok((Float(f), next))
    case StrKind =>
      var (text, next) :- StrAt(input, pos);
      Ok((Str(text), next))
    case BlobKind =>
      var (bytes, next) :- BlobAt(input, pos);
      Ok((Blob(bytes), next))
  }

  function PullAt(input: Text, pos: nat, depth: nat, max: nat, shape: Shape, inRange: FloatText -> bool)
    : (r: Read<Value>)
    ensures r.Ok? ==> pos < r.value.1 <= |input|
    decreases shape, 0
  {
    match shape
    case LeafShape(kind) =>
      var (leaf, next) :- PullLeaf(input, pos, kind, inRange);
      Ok((Leaf(leaf), next))
    case ArrayShape(shapes) =>
      var start :- EnterAt(input, pos, OPEN_BRACKET, depth, max);
      var (items, next) :- PullItems(input, start, depth + 1, max, true, shapes, 0, inRange);
      Ok((Array(items), next))
    case ObjectShape(shapes) =>
      var start :- EnterAt(input, pos, OPEN_BRACE, depth, max);
      var (entries, next) :- PullEntries(input, start, depth + 1, max, true, shapes, 0, inRange);
      Ok((Object(entries), next))
  }

  /** The items left and the closing bracket, the next item of shape `shapes[k]`. */
  function PullItems(input: Text, pos: nat, depth: nat, max: nat, first: bool,
                     shapes: seq<Shape>, k: nat, inRange: FloatText -> bool): (r: Read<seq<Value>>)
    requires k <= |shapes|
    ensures r.Ok? ==> pos < r.value.1 <= |input| && |r.value.0| < r.value.1 - pos
    decreases shapes, |shapes| - k
  {
    var (more, start) :- Advance(input, pos, first, CLOSE_BRACKET);
    if !more then
      var next :- EndAt(input, start, CLOSE_BRACKET);
      Ok(([], next))
    else if k == |shapes| then Err(Fault(UnexpectedItem, start))
    else
      var (item, next) :- PullAt(input, start, depth, max, shapes[k], inRange);
      var (items, end) :- PullItems(input, next, depth, max, false, shapes, k + 1, inRange);
      Ok(([item] + items, end))
  }

  /** The entries left and the closing brace, the next value of shape `shapes[k]`. */
  function PullEntries(input: Text, pos: nat, depth: nat, max: nat, first: bool,
                       shapes: seq<Shape>, k: nat, inRange: FloatText -> bool): (r: Read<seq<Field>>)
    requires k <= |shapes|
    ensures r.Ok? ==> pos < r.value.1 <= |input| && |r.value.0| < r.value.1 - pos
    decreases shapes, |shapes| - k
  {
    var (key, start) :- KeyAt(input, pos, first);
    if key.None? then
      var next :- EndAt(input, start, CLOSE_BRACE);
      Ok(([], next))
    else if k == |shapes| then Err(Fault(UnexpectedItem, start))
    else
      var (value, next) :- PullAt(input, start, depth, max, shapes[k], inRange);
      var (entries, end) :- PullEntries(input, next, depth, max, false, shapes, k + 1, inRange);
      Ok(([Entry(key.value, value)] + entries, end))
  }

  // Skipping

  /** Past the value at `pos`, whatever it is; the end of it. */
  function SkipAt(input: Text, pos: nat, depth: nat, max: nat): (r: Result<nat, Fault>)
    ensures r.Ok? ==> pos < r.value <= |input|
    decreases |input| - pos, 0
  {
    var start := SkipSpace(input, pos);
    var kind :- PeekAt(input, start);
    if kind == NullValue then NullAt(input, start)
    else if kind == BooleanValue then
      var (_, next) :- BoolAt(input, start);
      Ok(next)
    else if kind == IntegerValue || kind == FloatingValue then
      var (_, next) :- NumberAt(input, start);
      Ok(next)
    else if kind == ArrayValue then
      var inner :- EnterAt(input, start, OPEN_BRACKET, depth, max);
      SkipItems(input, inner, depth + 1, max, true)
    else if kind == ObjectValue then
      var inner :- EnterAt(input, start, OPEN_BRACE, depth, max);
      SkipEntries(input, inner, depth + 1, max, true)
    else
      var (_, next) :- ParseString(input, start);
      Ok(next)
  }

  function SkipItems(input: Text, pos: nat, depth: nat, max: nat, first: bool): (r: Result<nat, Fault>)
    ensures r.Ok? ==> pos < r.value <= |input|
    decreases |input| - pos, 1
  {
    var (more, start) :- Advance(input, pos, first, CLOSE_BRACKET);
    if !more then EndAt(input, start, CLOSE_BRACKET)
    else
      var next :- SkipAt(input, start, depth, max);
      SkipItems(input, next, depth, max, false)
  }

  function SkipEntries(input: Text, pos: nat, depth: nat, max: nat, first: bool): (r: Result<nat, Fault>)
    ensures r.Ok? ==> pos < r.value <= |input|
    decreases |input| - pos, 1
  {
    var (key, start) :- KeyAt(input, pos, first);
    if key.None? then EndAt(input, start, CLOSE_BRACE)
    else
      var next :- SkipAt(input, start, depth, max);
      SkipEntries(input, next, depth, max, false)
  }
}
