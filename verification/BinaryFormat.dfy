/**
 The binary format: one tag byte, then the value. Integers are LEB128 groups, signed ones after
 zigzag; texts and containers carry their length or their number of items.
 */
module BinaryFormat {
  import opened Bytes
  import opened Serial

  const NULL_TAG: Byte := 0x00
  const FALSE_TAG: Byte := 0x01
  const TRUE_TAG: Byte := 0x02
  const SIGNED_TAG: Byte := 0x03
  const UNSIGNED_TAG: Byte := 0x04
  const FLOAT_TAG: Byte := 0x05
  const STRING_TAG: Byte := 0x06
  const BYTES_TAG: Byte := 0x07
  const ARRAY_TAG: Byte := 0x08
  const OBJECT_TAG: Byte := 0x09

  /** A binary64 number is kept as its bit pattern. */
  type Value = Tree<U64>
  type Field = Entry<U64>

  // Integers

  /** LEB128: seven bits a byte, low group first, the high bit set on all but the last. */
  function Varint(v: nat): (bytes: seq<Byte>)
    ensures |bytes| > 0
  {
    if v < 0x80 then [v] else [v % 0x80 + 0x80] + Varint(v / 0x80)
  }

  /** Numbers of small magnitude, negative ones too, become small: 0, -1, 1, -2 become 0, 1, 2, 3. */
  function ZigZag(v: I64): U64 {
    var shifted := (2 * v) % TWO_64;
    if v < 0 then TWO_64 - 1 - shifted else shifted
  }

  function UnZigZag(e: U64): I64 {
    if e % 2 == 1 then -1 - e / 2 else e / 2
  }

  lemma ZigZagIsBijective(v: I64, e: U64)
    ensures UnZigZag(ZigZag(v)) == v
    ensures ZigZag(UnZigZag(e)) == e
  {
  }

  /** The writer's register arithmetic `(v << 1) ^ (v >> 63)`: the mask is all ones for a negative `v`. */
  lemma ZigZagInRegister(v: I64)
    ensures Xor64(2 * Unsigned64(v) % TWO_64, Unsigned64(v / TWO_63)) == ZigZag(v)
  {
    hide Xor64;
    MaskIsComplement(2 * Unsigned64(v) % TWO_64);
    assert v / TWO_63 == if v < 0 then -1 else 0;
  }

  /** The reader's register arithmetic `(e >> 1) ^ -(e & 1)`. */
  lemma UnZigZagInRegister(e: U64)
    ensures Signed64(Xor64(e / 2, Unsigned64(-(e % 2)))) == UnZigZag(e)
  {
    hide Xor64;
    MaskIsComplement(e / 2);
  }

  /** The `n` low bytes of `v`, lowest first. */
  function LittleBytes(v: nat, n: nat): (bytes: seq<Byte>)
    ensures |bytes| == n
  {
    if n == 0 then [] else [v % 0x100] + LittleBytes(v / 0x100, n - 1)
  }

  function LittleValue(bytes: seq<Byte>): nat {
    if bytes == [] then 0 else bytes[0] + 0x100 * LittleValue(bytes[1..])
  }

  // Values

  function EncodeText(text: Text): seq<Byte> {
    Varint(|text|) + text
  }

  function EncodeLeaf(leaf: Leaf<U64>): (bytes: seq<Byte>)
    ensures |bytes| > 0
  {
    match leaf
    case Null => [NULL_TAG]
    case Bool(flag) => [if flag then TRUE_TAG else FALSE_TAG]
    case Signed(v) => [SIGNED_TAG] + Varint(ZigZag(v))
    case Unsigned(v) => [UNSIGNED_TAG] + Varint(v)
    case Float(bits) => [FLOAT_TAG] + LittleBytes(bits, 8)
    case Str(text) => [STRING_TAG] + EncodeText(text)
    case Blob(bytes) => [BYTES_TAG] + EncodeText(bytes)
  }

  function Encode(t: Value): (bytes: seq<Byte>)
    ensures |bytes| > 0
    decreases t, 1
  {
    match t
    case Leaf(leaf) => EncodeLeaf(leaf)
    case Array(items) => [ARRAY_TAG] + Varint(|items|) + EncodeItems(items)
    case Object(entries) => [OBJECT_TAG] + Varint(|entries|) + EncodeEntries(entries)
  }

  /** An item takes at least one byte. */
  function EncodeItems(items: seq<Value>): (bytes: seq<Byte>)
    ensures |bytes| >= |items|
    decreases items, 0
  {
    if items == [] then [] else Encode(items[0]) + EncodeItems(items[1..])
  }

  /** An entry takes at least two: the length of its key and the tag of its value. */
  function EncodeEntries(entries: seq<Field>): (bytes: seq<Byte>)
    ensures |bytes| >= 2 * |entries|
    decreases entries, 0
  {
    if entries == [] then []
    else EncodeEntry(entries[0]) + EncodeEntries(entries[1..])
  }

  function EncodeEntry(entry: Field): (bytes: seq<Byte>)
    ensures |bytes| >= 2
    decreases entry, 1
  {
    EncodeText(entry.key) + Encode(entry.value)
  }

  lemma EncodeItemsConcat(a: seq<Value>, b: seq<Value>)
    ensures EncodeItems(a + b) == EncodeItems(a) + EncodeItems(b)
  {
    if a == [] {
      assert a + b == b;
    } else {
      assert (a + b)[1..] == a[1..] + b;
      EncodeItemsConcat(a[1..], b);
    }
  }

  lemma EncodeEntriesConcat(a: seq<Field>, b: seq<Field>)
    ensures EncodeEntries(a + b) == EncodeEntries(a) + EncodeEntries(b)
  {
    if a == [] {
      assert a + b == b;
    } else {
      assert (a + b)[1..] == a[1..] + b;
      EncodeEntriesConcat(a[1..], b);
    }
  }
}
