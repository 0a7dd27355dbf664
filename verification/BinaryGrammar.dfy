/** Reading the binary format off a byte string: what each step takes, and when it fails. */
module BinaryGrammar {
  import opened Bytes
  import opened Serial
  import opened BinaryFormat

  datatype Reason =
    | UnexpectedEnd
    | UnknownTag
    | UnexpectedTag
    | IntegerOutOfRange
    | VarintOverflow
    | LengthExceedsInput
    | TooDeep
    | OutsideContainer
    | UnreadItems
    | TrailingBytes
    | UnexpectedItem

  /** A failed read and the byte offset it is reported at. */
  datatype Fault = Fault(reason: Reason, offset: nat)

  type Read<T> = Result<(T, nat), Fault>

  // Tags

  function PeekTag(input: seq<Byte>, pos: nat): (r: Result<Byte, Fault>)
    ensures r.Ok? ==> pos < |input|
  {
    if pos >= |input| then Err(Fault(UnexpectedEnd, pos))
    else if input[pos] > OBJECT_TAG then Err(Fault(UnknownTag, pos))
    else Ok(input[pos])
  }

  function ExpectTag(input: seq<Byte>, pos: nat, expected: Byte): Result<nat, Fault> {
    var tag :- PeekTag(input, pos);
    if tag == expected then Ok(pos + 1) else Err(Fault(UnexpectedTag, pos))
  }

  // Integers

  /** `v` moved up by `i` groups of seven bits. */
  function Groups(v: nat, i: nat): nat
    decreases i
  {
    if i == 0 then v else Groups(0x80 * v, i - 1)
  }

  /** The groups from number `i` on; `value` holds the bits of the earlier ones. */
  function TakeGroups(input: seq<Byte>, pos: nat, i: nat, value: nat): (r: Read<U64>)
    requires i <= 10 && value < Groups(1, i)
    ensures r.Ok? ==> pos < r.value.1 <= |input| && r.value.1 - pos <= 10 - i
    decreases |input| - pos
  {
    if i == 10 then Err(Fault(VarintOverflow, pos))
    else if pos >= |input| then Err(Fault(UnexpectedEnd, pos))
    else if i == 9 && input[pos] > 1 then Err(Fault(VarintOverflow, pos + 1))
    else
      GroupFits(value, input[pos] % 0x80, i);
      var next := value + Groups(input[pos] % 0x80, i);
      if input[pos] < 0x80 then Ok((next, pos + 1))
      else TakeGroups(input, pos + 1, i + 1, next)
  }

  lemma {:induction false} GroupsAdd(a: nat, b: nat, i: nat)
    ensures Groups(a + b, i) == Groups(a, i) + Groups(b, i)
    decreases i
  {
    if i > 0 {
      GroupsAdd(0x80 * a, 0x80 * b, i - 1);
    }
  }

  lemma {:induction false} GroupsIsShift(v: nat, i: nat)
    ensures Groups(v, i) == Shift(v, 7 * i)
    decreases i
  {
    if i > 0 {
      GroupsIsShift(0x80 * v, i - 1);
      assert Shift(v, 7) == 0x80 * v;
      ShiftShift(v, 7, 7 * (i - 1));
    }
  }

  /** A group the reader lets through stays below bit 64 and below the next group. */
  lemma GroupFits(value: nat, group: nat, i: nat)
    requires i < 10 && value < Groups(1, i)
    requires group < 0x80 && (i == 9 ==> group <= 1)
    ensures value + Groups(group, i) < Groups(1, i + 1)
    ensures value + Groups(group, i) < TWO_64
  {
    GroupsAdd(1, group, i);
    GroupsMonotone(group + 1, 0x80, i);
    Groups64();
    if i == 9 {
      GroupsMonotone(group + 1, 2, i);
      GroupsAdd(1, 1, 9);
    } else {
      GroupsMonotoneIndex(i + 1, 9);
    }
  }

  /** The register arithmetic `value |= group << 7 * i` loses no bit and overwrites none. */
  lemma GroupInRegister(value: nat, group: U64, i: nat)
    requires i < 10 && value < Groups(1, i)
    requires group < 0x80 && (i == 9 ==> group <= 1)
    ensures BitOr(value, ShiftLeft64(group, 7 * i)) == value + Groups(group, i)
  {
    GroupFits(value, group, i);
    GroupsIsShift(1, i);
    GroupsIsShift(group, i);
    BitOrDisjoint(value, group, 7 * i);
    ShiftLeft64Exact(group, 7 * i);
  }

  lemma {:induction false} GroupsMonotone(a: nat, b: nat, i: nat)
    requires a <= b
    ensures Groups(a, i) <= Groups(b, i)
    decreases i
  {
    if i > 0 {
      GroupsMonotone(0x80 * a, 0x80 * b, i - 1);
    }
  }

  lemma {:induction false} GroupsMonotoneIndex(i: nat, j: nat)
    requires i <= j
    ensures Groups(1, i) <= Groups(1, j)
    decreases j
  {
    if i < j {
      GroupsMonotoneIndex(i, j - 1);
      GroupsMonotone(1, 0x80, j - 1);
    }
  }

  lemma Groups64()
    ensures Groups(1, 9) == TWO_63
  {
    ShiftToTop();
    GroupsIsShift(1, 9);
  }

  function TakeVarint(input: seq<Byte>, pos: nat): Read<U64> {
    TakeGroups(input, pos, 0, 0)
  }

  /** A length is refused when that many items of at least `minimum` bytes cannot follow. */
  function TakeLength(input: seq<Byte>, pos: nat, minimum: nat): (r: Read<U64>)
    requires minimum == 1 || minimum == 2
    ensures r.Ok? ==> pos < r.value.1 <= |input|
    ensures r.Ok? ==> r.value.0 * minimum <= |input| - r.value.1
  {
    var (length, next) :- TakeVarint(input, pos);
    var available := |input| - next;
    if length > (if minimum == 1 then available else available / 2) then Err(Fault(LengthExceedsInput, pos)) else Ok((length, next))
  }

  function TakeText(input: seq<Byte>, pos: nat): (r: Read<Text>)
    ensures r.Ok? ==> pos < r.value.1 <= |input|
  {
    var (length, next) :- TakeLength(input, pos, 1);
    Ok((Copy(input, next, length), next + length))
  }

  /** The eight bytes of a binary64 number. */
  function TakeDouble(input: seq<Byte>, pos: nat): (r: Read<U64>)
    ensures r.Ok? ==> pos < r.value.1 <= |input|
  {
    if pos + 8 > |input| then Err(Fault(UnexpectedEnd, pos))
    else
      LittleValueBelow(Copy(input, pos, 8));
      Ok((LittleValue(Copy(input, pos, 8)), pos + 8))
  }

  lemma {:induction false} LittleValueBelow(bytes: seq<Byte>)
    ensures LittleValue(bytes) < Shift(1, 8 * |bytes|)
    ensures |bytes| == 8 ==> LittleValue(bytes) < TWO_64
    decreases bytes
  {
    if bytes != [] {
      LittleValueBelow(bytes[1..]);
      ShiftEight(1, 8 * |bytes[1..]|);
    }
    ShiftToTop();
  }

  // The typed reads of the reader interface

  function BoolAt(input: seq<Byte>, pos: nat): Read<bool> {
    var tag :- PeekTag(input, pos);
    if tag == TRUE_TAG then Ok((true, pos + 1))
    else if tag == FALSE_TAG then Ok((false, pos + 1))
    else Err(Fault(UnexpectedTag, pos))
  }

  function IntAt(input: seq<Byte>, pos: nat): Read<I64> {
    var tag :- PeekTag(input, pos);
    if tag == SIGNED_TAG then
      var (encoded, next) :- TakeVarint(input, pos + 1);
      Ok((UnZigZag(encoded), next))
    else if tag == UNSIGNED_TAG then
      var (encoded, next) :- TakeVarint(input, pos + 1);
      if encoded >= TWO_63 then Err(Fault(IntegerOutOfRange, pos)) else Ok((encoded, next))
    else Err(Fault(UnexpectedTag, pos))
  }

  function UintAt(input: seq<Byte>, pos: nat): Read<U64> {
    var tag :- PeekTag(input, pos);
    if tag == UNSIGNED_TAG then TakeVarint(input, pos + 1)
    else if tag == SIGNED_TAG then
      var (encoded, next) :- TakeVarint(input, pos + 1);
      if UnZigZag(encoded) < 0 then Err(Fault(IntegerOutOfRange, pos)) else Ok((UnZigZag(encoded), next))
    else Err(Fault(UnexpectedTag, pos))
  }

  /** `toDouble` gives the bits of the binary64 number an integer converts to. */
  function FloatAt(input: seq<Byte>, pos: nat, toDouble: int -> U64): Read<U64> {
    var tag :- PeekTag(input, pos);
    if tag == SIGNED_TAG then
      var (v, next) :- IntAt(input, pos);
      Ok((toDouble(v), next))
    else if tag == UNSIGNED_TAG then
      var (v, next) :- UintAt(input, pos);
      Ok((toDouble(v), next))
    else if tag == FLOAT_TAG then TakeDouble(input, pos + 1)
    else Err(Fault(UnexpectedTag, pos))
  }

  function StrAt(input: seq<Byte>, pos: nat): Read<Text> {
    var next :- ExpectTag(input, pos, STRING_TAG);
    TakeText(input, next)
  }

  function BlobAt(input: seq<Byte>, pos: nat): Read<Text> {
    var next :- ExpectTag(input, pos, BYTES_TAG);
    TakeText(input, next)
  }

  // Whole values

  /** The rest of a leaf whose tag was just taken. */
  function DecodeLeaf(input: seq<Byte>, pos: nat, tag: Byte): (r: Read<Leaf<U64>>)
    requires pos <= |input| && tag < ARRAY_TAG
    ensures r.Ok? ==> pos <= r.value.1 <= |input|
  {
    if tag == NULL_TAG then Ok((Null, pos))
    else if tag == FALSE_TAG then Ok((Bool(false), pos))
    else if tag == TRUE_TAG then Ok((Bool(true), pos))
    else if tag == SIGNED_TAG then
      var (encoded, next) :- TakeVarint(input, pos);
      Ok((Signed(UnZigZag(encoded)), next))
    else if tag == UNSIGNED_TAG then
      var (v, next) :- TakeVarint(input, pos);
      Ok((Unsigned(v), next))
    else if tag == FLOAT_TAG then
      var (bits, next) :- TakeDouble(input, pos);
      Ok((Float(bits), next))
    else if tag == STRING_TAG then
      var (text, next) :- TakeText(input, pos);
      Ok((Str(text), next))
    else
      var (bytes, next) :- TakeText(input, pos);
      Ok((Blob(bytes), next))
  }

  /** The value that starts at `pos`, with `depth` containers open around it and `max` allowed. */
  function Decode(input: seq<Byte>, pos: nat, depth: nat, max: nat): (r: Read<Value>)
    requires pos <= |input|
    ensures r.Ok? ==> pos < r.value.1 <= |input|
    decreases |input| - pos, 0
  {
    var tag :- PeekTag(input, pos);
    DecodeTagged(input, pos + 1, tag, depth, max)
  }

  /** The rest of a value whose tag was just taken. */
  function DecodeTagged(input: seq<Byte>, pos: nat, tag: Byte, depth: nat, max: nat): (r: Read<Value>)
    requires pos <= |input| && tag <= OBJECT_TAG
    ensures r.Ok? ==> pos <= r.value.1 <= |input|
    decreases |input| - pos, 0
  {
    if tag == ARRAY_TAG then
      var (count, start) :- TakeLength(input, pos, 1);
      if depth >= max then Err(Fault(TooDeep, start))
      else
        var (items, next) :- DecodeItems(input, start, depth + 1, max, count);
        Ok((Array(items), next))
    else if tag == OBJECT_TAG then
      var (count, start) :- TakeLength(input, pos, 2);
      if depth >= max then Err(Fault(TooDeep, start))
      else
        var (entries, next) :- DecodeEntries(input, start, depth + 1, max, count);
        Ok((Object(entries), next))
    else
      var (leaf, next) :- DecodeLeaf(input, pos, tag);
      Ok((Leaf(leaf), next))
  }

  function DecodeItems(input: seq<Byte>, pos: nat, depth: nat, max: nat, count: nat): (r: Read<seq<Value>>)
    requires pos <= |input|
    ensures r.Ok? ==> pos <= r.value.1 <= |input| && |r.value.0| == count
    decreases |input| - pos, 1 + count
  {
    if count == 0 then Ok(([], pos))
    else
      var (item, next) :- Decode(input, pos, depth, max);
      var (items, end) :- DecodeItems(input, next, depth, max, count - 1);
      Ok(([item] + items, end))
  }

  function DecodeEntries(input: seq<Byte>, pos: nat, depth: nat, max: nat, count: nat): (r: Read<seq<Field>>)
    requires pos <= |input|
    ensures r.Ok? ==> pos <= r.value.1 <= |input| && |r.value.0| == count
    decreases |input| - pos, 1 + count
  {
    if count == 0 then Ok(([], pos))
    else
      var (entry, next) :- DecodeEntry(input, pos, depth, max);
      var (entries, end) :- DecodeEntries(input, next, depth, max, count - 1);
      Ok(([entry] + entries, end))
  }

  function DecodeEntry(input: seq<Byte>, pos: nat, depth: nat, max: nat): (r: Read<Field>)
    requires pos <= |input|
    ensures r.Ok? ==> pos < r.value.1 <= |input|
    decreases |input| - pos, 0
  {
    var (key, start) :- TakeText(input, pos);
    var (value, next) :- Decode(input, start, depth, max);
    Ok((Entry(key, value), next))
  }

  // A consumer that knows the shape of the value makes one typed read call for each of its parts

  function PullLeaf(input: seq<Byte>, pos: nat, kind: Kind, toDouble: int -> U64): (r: Read<Leaf<U64>>)
    ensures r.Ok? ==> pos < r.value.1 <= |input|
  {
    match kind
    case NullKind =>
      var next :- ExpectTag(input, pos, NULL_TAG);
      Ok((Null, next))
    case BoolKind =>
      var (flag, next) :- BoolAt(input, pos);
      Ok((Bool(flag), next))
    case SignedKind =>
      var (v, next) :- IntAt(input, pos);
      Ok((Signed(v), next))
    case UnsignedKind =>
      var (v, next) :- UintAt(input, pos);
      Ok((Unsigned(v), next))
    case FloatKind =>
      var (bits, next) :- FloatAt(input, pos, toDouble);
      Ok((Float(bits), next))
    case StrKind =>
      var (text, next) :- StrAt(input, pos);
      Ok((Str(text), next))
    case BlobKind =>
      var (bytes, next) :- BlobAt(input, pos);
      Ok((Blob(bytes), next))
  }

  /** Entering a container: its tag, the number of its items, the depth limit. */
  function EnterAt(input: seq<Byte>, pos: nat, tag: Byte, minimum: nat, depth: nat, max: nat): (r: Read<U64>)
    requires minimum == 1 || minimum == 2
    ensures r.Ok? ==> pos < r.value.1 <= |input|
  {
    var start :- ExpectTag(input, pos, tag);
    var (count, next) :- TakeLength(input, start, minimum);
    if depth >= max then Err(Fault(TooDeep, next)) else Ok((count, next))
  }

  function PullAt(input: seq<Byte>, pos: nat, depth: nat, max: nat, shape: Shape, toDouble: int -> U64)
    : (r: Read<Value>)
    requires pos <= |input|
    ensures r.Ok? ==> pos < r.value.1 <= |input|
    decreases shape, 0
  {
    match shape
    case LeafShape(kind) =>
      var (leaf, next) :- PullLeaf(input, pos, kind, toDouble);
      Ok((Leaf(leaf), next))
    case ArrayShape(shapes) =>
      var (count, start) :- EnterAt(input, pos, ARRAY_TAG, 1, depth, max);
      var (items, next) :- PullItems(input, start, depth + 1, max, count, shapes, 0, toDouble);
      Ok((Array(items), next))
    case ObjectShape(shapes) =>
      var (count, start) :- EnterAt(input, pos, OBJECT_TAG, 2, depth, max);
      var (entries, next) :- PullEntries(input, start, depth + 1, max, count, shapes, 0, toDouble);
      Ok((Object(entries), next))
  }

  /** The `count` items left, the next one of shape `shapes[k]`. */
  function PullItems(input: seq<Byte>, pos: nat, depth: nat, max: nat, count: nat,
                     shapes: seq<Shape>, k: nat, toDouble: int -> U64): (r: Read<seq<Value>>)
    requires pos <= |input| && k <= |shapes|
    ensures r.Ok? ==> pos <= r.value.1 <= |input| && |r.value.0| == count
    decreases shapes, |shapes| - k
  {
    if count == 0 then Ok(([], pos))
    else if k == |shapes| then Err(Fault(UnexpectedItem, pos))
    else
      var (item, next) :- PullAt(input, pos, depth, max, shapes[k], toDouble);
      var (items, end) :- PullItems(input, next, depth, max, count - 1, shapes, k + 1, toDouble);
      Ok(([item] + items, end))
  }

  /** The `count` entries left, the next value of shape `shapes[k]`. */
  function PullEntries(input: seq<Byte>, pos: nat, depth: nat, max: nat, count: nat,
                       shapes: seq<Shape>, k: nat, toDouble: int -> U64): (r: Read<seq<Field>>)
    requires pos <= |input| && k <= |shapes|
    ensures r.Ok? ==> pos <= r.value.1 <= |input| && |r.value.0| == count
    decreases shapes, |shapes| - k
  {
    if count == 0 then Ok(([], pos))
    else
      var (key, start) :- TakeText(input, pos);
      if k == |shapes| then Err(Fault(UnexpectedItem, start))
      else
        var (value, next) :- PullAt(input, start, depth, max, shapes[k], toDouble);
        var (entries, end) :- PullEntries(input, next, depth, max, count - 1, shapes, k + 1, toDouble);
        Ok(([Entry(key, value)] + entries, end))
  }
}
