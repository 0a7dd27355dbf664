/** What the binary format promises: round trip, canonical re-encoding, and bounded claims. */
module BinaryTheorems {
  import opened Bytes
  import opened Serial
  import opened BinaryFormat
  import opened BinaryGrammar

  // Re-encoding compared with the bytes read

  /** `bytes` is no longer than the slice from `pos` to `end`, and is that slice when it is as long. */
  ghost predicate NotLonger(input: seq<Byte>, pos: nat, end: nat, bytes: seq<Byte>) {
    && pos + |bytes| <= end <= |input|
    && (pos + |bytes| == end ==> At(input, pos, bytes))
  }

  lemma NotLongerConcat(input: seq<Byte>, pos: nat, middle: nat, end: nat, a: seq<Byte>, b: seq<Byte>)
    requires NotLonger(input, pos, middle, a) && NotLonger(input, middle, end, b)
    ensures NotLonger(input, pos, end, a + b)
  {
    AtConcat(input, pos, a, b);
  }

  // Integers

  /** A number is its low group beside its high groups, seven bits further up. */
  lemma SplitGroups(v: nat, low: nat, high: nat, i: nat)
    requires v == low + 0x80 * high
    ensures Groups(v, i) == Groups(low, i) + Groups(high, i + 1)
  {
    GroupsAdd(low, 0x80 * high, i);
  }

  lemma TopGroup(v: nat)
    requires Groups(v, 9) < TWO_64
    ensures v <= 1
  {
    Groups64();
    GroupsAdd(1, 1, 9);
    GroupsMonotone(2, Max(2, v), 9);
  }

  /** Reading a varint group by group gives back the number, whatever follows it. */
  lemma {:induction false} TakeGroupsOfVarint(input: seq<Byte>, pos: nat, i: nat, value: nat, v: nat)
    requires i < 10 && value < Groups(1, i)
    requires value + Groups(v, i) < TWO_64
    requires At(input, pos, Varint(v))
    ensures TakeGroups(input, pos, i, value) == Ok((value + Groups(v, i), pos + |Varint(v)|))
    decreases v
  {
    if i == 9 {
      TopGroup(v);
    }
    HeadOfVarint(input, pos, v);
    if v < 0x80 {
      LastGroup(input, pos, i, value);
    } else {
      var low, high := v % 0x80, v / 0x80;
      SplitGroups(v, low, high, i);
      GroupFits(value, low, i);
      InnerGroup(input, pos, i, value);
      TakeGroupsOfVarint(input, pos + 1, i + 1, value + Groups(low, i), high);
    }
  }

  lemma LastGroup(input: seq<Byte>, pos: nat, i: nat, value: nat)
    requires i < 10 && value < Groups(1, i)
    requires pos < |input| && input[pos] < 0x80 && (i == 9 ==> input[pos] <= 1)
    ensures TakeGroups(input, pos, i, value) == Ok((value + Groups(input[pos], i), pos + 1))
  {
  }

  lemma InnerGroup(input: seq<Byte>, pos: nat, i: nat, value: nat)
    requires i < 9 && value < Groups(1, i)
    requires pos < |input| && input[pos] >= 0x80
    ensures value + Groups(input[pos] % 0x80, i) < Groups(1, i + 1)
    ensures TakeGroups(input, pos, i, value)
         == TakeGroups(input, pos + 1, i + 1, value + Groups(input[pos] % 0x80, i))
  {
    GroupFits(value, input[pos] % 0x80, i);
  }

  lemma HeadOfVarint(input: seq<Byte>, pos: nat, v: nat)
    requires At(input, pos, Varint(v))
    ensures pos < |input|
    ensures v < 0x80 ==> input[pos] == v
    ensures v >= 0x80 ==> input[pos] == v % 0x80 + 0x80 && At(input, pos + 1, Varint(v / 0x80))
    ensures v >= 0x80 ==> input[pos] % 0x80 == v % 0x80 && |Varint(v)| == 1 + |Varint(v / 0x80)|
  {
    if v < 0x80 {
      AtByte(input, pos, v);
    } else {
      AtConcat(input, pos, [v % 0x80 + 0x80], Varint(v / 0x80));
      AtByte(input, pos, v % 0x80 + 0x80);
    }
  }

  lemma TakeVarintOfVarint(input: seq<Byte>, pos: nat, v: U64)
    requires At(input, pos, Varint(v))
    ensures TakeVarint(input, pos) == Ok((v, pos + |Varint(v)|))
  {
    TakeGroupsOfVarint(input, pos, 0, 0, v);
  }

  /** What the groups from number `i` on contribute is a number whose own varint is never longer. */
  lemma {:induction false} VarintOfTakeGroups(input: seq<Byte>, pos: nat, i: nat, value: nat) returns (v: nat)
    requires i <= 10 && value < Groups(1, i)
    requires TakeGroups(input, pos, i, value).Ok?
    ensures var (total, end) := TakeGroups(input, pos, i, value).value;
            && total == value + Groups(v, i)
            && |Varint(v)| <= end - pos
            && (|Varint(v)| == end - pos ==> At(input, pos, Varint(v)))
    decreases |input| - pos
  {
    var low := input[pos] % 0x80;
    AtByte(input, pos, input[pos]);
    if input[pos] < 0x80 {
      v := low;
    } else {
      GroupFits(value, low, i);
      var high := VarintOfTakeGroups(input, pos + 1, i + 1, value + Groups(low, i));
      v := low + 0x80 * high;
      SplitGroups(v, low, high, i);
      if high > 0 {
        assert Varint(v) == [input[pos]] + Varint(high);
        AtConcat(input, pos, [input[pos]], Varint(high));
      }
    }
  }

  /** An accepted varint is at most ten bytes, fits 64 bits, and is never shorter than the writer's. */
  lemma VarintOfTakeVarint(input: seq<Byte>, pos: nat)
    requires TakeVarint(input, pos).Ok?
    ensures var (v, end) := TakeVarint(input, pos).value;
            && end - pos <= 10
            && NotLonger(input, pos, end, Varint(v))
  {
    var v := VarintOfTakeGroups(input, pos, 0, 0);
  }

  lemma {:induction false} LittleValueOfLittleBytes(v: nat, n: nat)
    requires v < Shift(1, 8 * n)
    ensures LittleValue(LittleBytes(v, n)) == v
    decreases n
  {
    if n > 0 {
      ShiftEight(1, 8 * (n - 1));
      LittleValueOfLittleBytes(v / 0x100, n - 1);
    }
  }

  lemma {:induction false} LittleBytesOfLittleValue(bytes: seq<Byte>)
    ensures LittleBytes(LittleValue(bytes), |bytes|) == bytes
  {
    if bytes != [] {
      LittleBytesOfLittleValue(bytes[1..]);
    }
  }

  // Texts

  lemma TakeTextOfText(input: seq<Byte>, pos: nat, text: Text)
    requires At(input, pos, EncodeText(text))
    ensures TakeText(input, pos) == Ok((text, pos + |EncodeText(text)|))
  {
    AtConcat(input, pos, Varint(|text|), text);
    CopyIsAt(input, pos + |Varint(|text|)|, text);
    TakeVarintOfVarint(input, pos, |text|);
  }

  lemma TextOfTakeText(input: seq<Byte>, pos: nat)
    requires TakeText(input, pos).Ok?
    ensures var (text, end) := TakeText(input, pos).value;
            && NotLonger(input, pos, end, EncodeText(text))
  {
    VarintOfTakeVarint(input, pos);
    var (text, end) := TakeText(input, pos).value;
    AtConcat(input, pos, Varint(|text|), text);
    CopyIsAt(input, end - |text|, text);
  }

  // Leaves

  lemma TakeDoubleOfBytes(input: seq<Byte>, pos: nat, bits: U64)
    requires At(input, pos, LittleBytes(bits, 8))
    ensures TakeDouble(input, pos) == Ok((bits, pos + 8))
  {
    CopyIsAt(input, pos, LittleBytes(bits, 8));
    ShiftToTop();
    LittleValueOfLittleBytes(bits, 8);
  }

  lemma BytesOfTakeDouble(input: seq<Byte>, pos: nat)
    requires TakeDouble(input, pos).Ok?
    ensures At(input, pos, LittleBytes(TakeDouble(input, pos).value.0, 8))
  {
    LittleBytesOfLittleValue(Copy(input, pos, 8));
    CopyIsAt(input, pos, Copy(input, pos, 8));
  }

  lemma DecodeOfEncodeLeaf(input: seq<Byte>, pos: nat, leaf: Leaf<U64>)
    requires At(input, pos, EncodeLeaf(leaf))
    ensures pos < |input| && input[pos] == EncodeLeaf(leaf)[0] < ARRAY_TAG
    ensures DecodeLeaf(input, pos + 1, input[pos]) == Ok((leaf, pos + |EncodeLeaf(leaf)|))
  {
    var bytes := EncodeLeaf(leaf);
    assert bytes == [bytes[0]] + bytes[1..];
    AtConcat(input, pos, [bytes[0]], bytes[1..]);
    AtByte(input, pos, bytes[0]);
    match leaf
    case Signed(v) =>
      assert bytes[1..] == Varint(ZigZag(v));
      TakeVarintOfVarint(input, pos + 1, ZigZag(v));
      ZigZagIsBijective(v, 0);
    case Unsigned(v) =>
      assert bytes[1..] == Varint(v);
      TakeVarintOfVarint(input, pos + 1, v);
    case Float(bits) =>
      assert bytes[1..] == LittleBytes(bits, 8);
      TakeDoubleOfBytes(input, pos + 1, bits);
    case Str(text) =>
      assert bytes[1..] == EncodeText(text);
      TakeTextOfText(input, pos + 1, text);
    case Blob(blob) =>
      assert bytes[1..] == EncodeText(blob);
      TakeTextOfText(input, pos + 1, blob);
    case _ =>
  }

  lemma EncodeOfDecodeLeaf(input: seq<Byte>, pos: nat)
    requires pos < |input| && input[pos] < ARRAY_TAG
    requires DecodeLeaf(input, pos + 1, input[pos]).Ok?
    ensures var (leaf, end) := DecodeLeaf(input, pos + 1, input[pos]).value;
            NotLonger(input, pos, end, EncodeLeaf(leaf))
  {
    var tag := input[pos];
    if tag == SIGNED_TAG {
      SignedNotLonger(input, pos);
    } else if tag == UNSIGNED_TAG {
      VarintOfTakeVarint(input, pos + 1);
      TagNotLonger(input, pos, TakeVarint(input, pos + 1).value.1, Varint(TakeVarint(input, pos + 1).value.0));
    } else if tag == FLOAT_TAG {
      DoubleNotLonger(input, pos);
    } else if tag == STRING_TAG || tag == BYTES_TAG {
      TextOfTakeText(input, pos + 1);
      TagNotLonger(input, pos, TakeText(input, pos + 1).value.1, EncodeText(TakeText(input, pos + 1).value.0));
    } else {
      AtByte(input, pos, tag);
    }
  }

  lemma SignedNotLonger(input: seq<Byte>, pos: nat)
    requires pos < |input| && input[pos] == SIGNED_TAG
    requires TakeVarint(input, pos + 1).Ok?
    ensures var (encoded, end) := TakeVarint(input, pos + 1).value;
            NotLonger(input, pos, end, EncodeLeaf(Signed(UnZigZag(encoded))))
  {
    var (encoded, end) := TakeVarint(input, pos + 1).value;
    VarintOfTakeVarint(input, pos + 1);
    ZigZagIsBijective(0, encoded);
    TagNotLonger(input, pos, end, Varint(encoded));
  }

  lemma DoubleNotLonger(input: seq<Byte>, pos: nat)
    requires pos < |input| && input[pos] == FLOAT_TAG
    requires TakeDouble(input, pos + 1).Ok?
    ensures var (bits, end) := TakeDouble(input, pos + 1).value;
            NotLonger(input, pos, end, EncodeLeaf(Float(bits)))
  {
    BytesOfTakeDouble(input, pos + 1);
    TagNotLonger(input, pos, pos + 9, LittleBytes(TakeDouble(input, pos + 1).value.0, 8));
  }

  lemma TagNotLonger(input: seq<Byte>, pos: nat, end: nat, body: seq<Byte>)
    requires pos < |input| && NotLonger(input, pos + 1, end, body)
    ensures NotLonger(input, pos, end, [input[pos]] + body)
  {
    AtByte(input, pos, input[pos]);
    NotLongerConcat(input, pos, pos + 1, end, [input[pos]], body);
  }

  // Round trip

  /** Reading where `t` was written gives `t` back when its containers fit below the depth limit. */
  lemma {:induction false} DecodeOfEncode(input: seq<Byte>, pos: nat, t: Value, depth: nat, max: nat)
    requires At(input, pos, Encode(t))
    requires depth + Depth(t) <= max
    ensures Decode(input, pos, depth, max) == Ok((t, pos + |Encode(t)|))
    decreases t, 1
  {
    hide Varint, TakeVarint;
    match t
    case Leaf(leaf) =>
      DecodeOfEncodeLeaf(input, pos, leaf);
    case Array(items) =>
      var start := CountOfEncode(input, pos, ARRAY_TAG, |items|, 1, EncodeItems(items));
      DecodeOfEncodeItems(input, start, items, depth + 1, max);
    case Object(entries) =>
      var start := CountOfEncode(input, pos, OBJECT_TAG, |entries|, 2, EncodeEntries(entries));
      DecodeOfEncodeEntries(input, start, entries, depth + 1, max);
  }

  /** The head of a container the writer wrote is accepted: its items take at least `minimum` bytes each. */
  lemma CountOfEncode(input: seq<Byte>, pos: nat, tag: Byte, count: U64, minimum: nat, body: seq<Byte>)
    returns (start: nat)
    requires At(input, pos, [tag] + Varint(count) + body)
    requires (minimum == 1 || minimum == 2) && |body| >= minimum * count
    ensures pos < |input| && input[pos] == tag
    ensures start == pos + 1 + |Varint(count)|
    ensures TakeLength(input, pos + 1, minimum) == Ok((count, start))
    ensures At(input, start, body)
  {
    start := pos + 1 + |Varint(count)|;
    AtConcat(input, pos, [tag] + Varint(count), body);
    AtConcat(input, pos, [tag], Varint(count));
    AtByte(input, pos, tag);
    TakeVarintOfVarint(input, pos + 1, count);
    CopyIsAt(input, start, body);
  }

  lemma {:induction false} DecodeOfEncodeItems(input: seq<Byte>, pos: nat, items: seq<Value>, depth: nat, max: nat)
    requires At(input, pos, EncodeItems(items))
    requires depth + ItemsDepth(items) <= max
    ensures DecodeItems(input, pos, depth, max, |items|) == Ok((items, pos + |EncodeItems(items)|))
    decreases items, 0
  {
    if items != [] {
      var next := pos + |Encode(items[0])|;
      AtConcat(input, pos, Encode(items[0]), EncodeItems(items[1..]));
      DecodeOfEncode(input, pos, items[0], depth, max);
      DecodeOfEncodeItems(input, next, items[1..], depth, max);
      assert [items[0]] + items[1..] == items;
    }
  }

  lemma {:induction false} DecodeOfEncodeEntries(input: seq<Byte>, pos: nat, entries: seq<Field>, depth: nat, max: nat)
    requires At(input, pos, EncodeEntries(entries))
    requires depth + EntriesDepth(entries) <= max
    ensures DecodeEntries(input, pos, depth, max, |entries|) == Ok((entries, pos + |EncodeEntries(entries)|))
    decreases entries, 0
  {
    hide TakeVarint, TakeText, EncodeEntry;
    if entries != [] {
      var next := pos + |EncodeEntry(entries[0])|;
      AtConcat(input, pos, EncodeEntry(entries[0]), EncodeEntries(entries[1..]));
      DecodeOfEncodeEntry(input, pos, entries[0], depth, max);
      DecodeOfEncodeEntries(input, next, entries[1..], depth, max);
      assert [entries[0]] + entries[1..] == entries;
    }
  }

  lemma {:induction false} DecodeOfEncodeEntry(input: seq<Byte>, pos: nat, entry: Field, depth: nat, max: nat)
    requires At(input, pos, EncodeEntry(entry))
    requires depth + Depth(entry.value) <= max
    ensures DecodeEntry(input, pos, depth, max) == Ok((entry, pos + |EncodeEntry(entry)|))
    decreases entry, 1
  {
    AtConcat(input, pos, EncodeText(entry.key), Encode(entry.value));
    TakeTextOfText(input, pos, entry.key);
    DecodeOfEncode(input, pos + |EncodeText(entry.key)|, entry.value, depth, max);
  }

  // Canonical form

  /** A decoded value is within the depth limit, and encodes to at most the bytes it was read from. */
  lemma {:induction false} EncodeOfDecode(input: seq<Byte>, pos: nat, depth: nat, max: nat)
    requires pos <= |input| && depth <= max
    requires Decode(input, pos, depth, max).Ok?
    ensures var (t, end) := Decode(input, pos, depth, max).value;
            depth + Depth(t) <= max && NotLonger(input, pos, end, Encode(t))
    decreases |input| - pos, 0
  {
    if input[pos] == ARRAY_TAG {
      var (count, start) := TakeLength(input, pos + 1, 1).value;
      EncodeOfDecodeItems(input, start, depth + 1, max, count);
      var (items, end) := DecodeItems(input, start, depth + 1, max, count).value;
      HeadOfTakeLength(input, pos, 1, end, EncodeItems(items));
    } else if input[pos] == OBJECT_TAG {
      var (count, start) := TakeLength(input, pos + 1, 2).value;
      EncodeOfDecodeEntries(input, start, depth + 1, max, count);
      var (entries, end) := DecodeEntries(input, start, depth + 1, max, count).value;
      HeadOfTakeLength(input, pos, 2, end, EncodeEntries(entries));
    } else {
      EncodeOfDecodeLeaf(input, pos);
    }
  }

  lemma HeadOfTakeLength(input: seq<Byte>, pos: nat, minimum: nat, end: nat, body: seq<Byte>)
    requires pos < |input| && (minimum == 1 || minimum == 2)
    requires TakeLength(input, pos + 1, minimum).Ok?
    requires NotLonger(input, TakeLength(input, pos + 1, minimum).value.1, end, body)
    ensures NotLonger(input, pos, end, [input[pos]] + Varint(TakeLength(input, pos + 1, minimum).value.0) + body)
  {
    var (count, start) := TakeLength(input, pos + 1, minimum).value;
    VarintOfTakeVarint(input, pos + 1);
    AtByte(input, pos, input[pos]);
    NotLongerConcat(input, pos, pos + 1, start, [input[pos]], Varint(count));
    NotLongerConcat(input, pos, start, end, [input[pos]] + Varint(count), body);
  }

  lemma {:induction false} EncodeOfDecodeItems(input: seq<Byte>, pos: nat, depth: nat, max: nat, count: nat)
    requires pos <= |input| && depth <= max
    requires DecodeItems(input, pos, depth, max, count).Ok?
    ensures var (items, end) := DecodeItems(input, pos, depth, max, count).value;
            && depth + ItemsDepth(items) <= max
            && NotLonger(input, pos, end, EncodeItems(items))
    decreases |input| - pos, 1 + count
  {
    if count > 0 {
      var (item, next) := Decode(input, pos, depth, max).value;
      EncodeOfDecode(input, pos, depth, max);
      EncodeOfDecodeItems(input, next, depth, max, count - 1);
      var (rest, end) := DecodeItems(input, next, depth, max, count - 1).value;
      assert ([item] + rest)[1..] == rest;
      assert EncodeItems([item] + rest) == Encode(item) + EncodeItems(rest);
      NotLongerConcat(input, pos, next, end, Encode(item), EncodeItems(rest));
    }
  }

  lemma {:induction false} EncodeOfDecodeEntries(input: seq<Byte>, pos: nat, depth: nat, max: nat, count: nat)
    requires pos <= |input| && depth <= max
    requires DecodeEntries(input, pos, depth, max, count).Ok?
    ensures var (entries, end) := DecodeEntries(input, pos, depth, max, count).value;
            && depth + EntriesDepth(entries) <= max
            && NotLonger(input, pos, end, EncodeEntries(entries))
    decreases |input| - pos, 1 + count
  {
    if count > 0 {
      var (entry, next) := DecodeEntry(input, pos, depth, max).value;
      EncodeOfDecodeEntry(input, pos, depth, max);
      EncodeOfDecodeEntries(input, next, depth, max, count - 1);
      var (rest, end) := DecodeEntries(input, next, depth, max, count - 1).value;
      assert ([entry] + rest)[1..] == rest;
      assert EncodeEntries([entry] + rest) == EncodeEntry(entry) + EncodeEntries(rest);
      NotLongerConcat(input, pos, next, end, EncodeEntry(entry), EncodeEntries(rest));
    }
  }

  lemma {:induction false} EncodeOfDecodeEntry(input: seq<Byte>, pos: nat, depth: nat, max: nat)
    requires pos <= |input| && depth <= max
    requires DecodeEntry(input, pos, depth, max).Ok?
    ensures var (entry, end) := DecodeEntry(input, pos, depth, max).value;
            depth + Depth(entry.value) <= max && NotLonger(input, pos, end, EncodeEntry(entry))
    decreases |input| - pos, 0
  {
    var (key, start) := TakeText(input, pos).value;
    var (value, end) := Decode(input, start, depth, max).value;
    TextOfTakeText(input, pos);
    EncodeOfDecode(input, start, depth, max);
    NotLongerConcat(input, pos, start, end, EncodeText(key), Encode(value));
  }

  /** A higher depth limit accepts at least as much, and reads it the same way. */
  lemma {:induction false} DecodeWithHigherLimit(input: seq<Byte>, pos: nat, depth: nat, max: nat, higher: nat)
    requires pos <= |input| && max <= higher
    requires Decode(input, pos, depth, max).Ok?
    ensures Decode(input, pos, depth, higher) == Decode(input, pos, depth, max)
    decreases |input| - pos, 0
  {
    if input[pos] == ARRAY_TAG {
      var (count, start) := TakeLength(input, pos + 1, 1).value;
      DecodeItemsWithHigherLimit(input, start, depth + 1, max, higher, count);
    } else if input[pos] == OBJECT_TAG {
      var (count, start) := TakeLength(input, pos + 1, 2).value;
      DecodeEntriesWithHigherLimit(input, start, depth + 1, max, higher, count);
    }
  }

  lemma {:induction false} DecodeItemsWithHigherLimit(
      input: seq<Byte>, pos: nat, depth: nat, max: nat, higher: nat, count: nat)
    requires pos <= |input| && max <= higher
    requires DecodeItems(input, pos, depth, max, count).Ok?
    ensures DecodeItems(input, pos, depth, higher, count) == DecodeItems(input, pos, depth, max, count)
    decreases |input| - pos, 1 + count
  {
    if count > 0 {
      DecodeWithHigherLimit(input, pos, depth, max, higher);
      var next := Decode(input, pos, depth, max).value.1;
      DecodeItemsWithHigherLimit(input, next, depth, max, higher, count - 1);
    }
  }

  lemma {:induction false} DecodeEntriesWithHigherLimit(
      input: seq<Byte>, pos: nat, depth: nat, max: nat, higher: nat, count: nat)
    requires pos <= |input| && max <= higher
    requires DecodeEntries(input, pos, depth, max, count).Ok?
    ensures DecodeEntries(input, pos, depth, higher, count) == DecodeEntries(input, pos, depth, max, count)
    decreases |input| - pos, 1 + count
  {
    if count > 0 {
      DecodeEntryWithHigherLimit(input, pos, depth, max, higher);
      var next := DecodeEntry(input, pos, depth, max).value.1;
      DecodeEntriesWithHigherLimit(input, next, depth, max, higher, count - 1);
    }
  }

  lemma {:induction false} DecodeEntryWithHigherLimit(input: seq<Byte>, pos: nat, depth: nat, max: nat, higher: nat)
    requires pos <= |input| && max <= higher
    requires DecodeEntry(input, pos, depth, max).Ok?
    ensures DecodeEntry(input, pos, depth, higher) == DecodeEntry(input, pos, depth, max)
    decreases |input| - pos, 0
  {
    DecodeWithHigherLimit(input, TakeText(input, pos).value.1, depth, max, higher);
  }

  // Conservation

  /** Everything a decode of `t` accepted as a count or a length. */
  function Claims(t: Value): nat
    decreases t, 1
  {
    match t
    case Leaf(Str(text)) => |text|
    case Leaf(Blob(bytes)) => |bytes|
    case Leaf(_) => 0
    case Array(items) => |items| + ItemsClaims(items)
    case Object(entries) => |entries| + EntriesClaims(entries)
  }

  function ItemsClaims(items: seq<Value>): nat
    decreases items, 0
  {
    if items == [] then 0 else Claims(items[0]) + ItemsClaims(items[1..])
  }

  function EntriesClaims(entries: seq<Field>): nat
    decreases entries, 0
  {
    if entries == [] then 0
    else |entries[0].key| + Claims(entries[0].value) + EntriesClaims(entries[1..])
  }

  lemma {:induction false} ClaimsBelowEncoding(t: Value)
    ensures Claims(t) < |Encode(t)|
    decreases t, 1
  {
    match t
    case Leaf(_) =>
    case Array(items) => ItemsClaimsBelowEncoding(items);
    case Object(entries) => EntriesClaimsBelowEncoding(entries);
  }

  lemma {:induction false} ItemsClaimsBelowEncoding(items: seq<Value>)
    ensures ItemsClaims(items) + |items| <= |EncodeItems(items)|
    decreases items, 0
  {
    if items != [] {
      ClaimsBelowEncoding(items[0]);
      ItemsClaimsBelowEncoding(items[1..]);
    }
  }

  lemma {:induction false} EntriesClaimsBelowEncoding(entries: seq<Field>)
    ensures EntriesClaims(entries) + 2 * |entries| <= |EncodeEntries(entries)|
    decreases entries, 0
  {
    if entries != [] {
      ClaimsBelowEncoding(entries[0].value);
      EntriesClaimsBelowEncoding(entries[1..]);
    }
  }

  // Documents

  /** A document is one value and nothing after it. */
  ghost predicate Document(input: seq<Byte>, max: nat, t: Value) {
    Decode(input, 0, 0, max) == Ok((t, |input|))
  }

  /** Writing then reading: the reader takes the document back exactly when its limit reaches the nesting. */
  lemma RoundTrip(t: Value, max: nat)
    ensures Decode(Encode(t), 0, 0, max).Ok? <==> Depth(t) <= max
    ensures Document(Encode(t), max, t) <==> Depth(t) <= max
  {
    hide Decode, Encode, Depth, At;
    var input := Encode(t);
    AtWhole(input, input);
    if Depth(t) <= max {
      DecodeOfEncode(input, 0, t, 0, max);
    }
    if Decode(input, 0, 0, max).Ok? {
      DecodeOfEncode(input, 0, t, 0, Max(max, Depth(t)));
      DecodeWithHigherLimit(input, 0, 0, max, Max(max, Depth(t)));
      EncodeOfDecode(input, 0, 0, max);
    }
  }

  /** No two values share an encoding. */
  lemma EncodeIsInjective(s: Value, t: Value)
    requires Encode(s) == Encode(t)
    ensures s == t
  {
    RoundTrip(s, Max(Depth(s), Depth(t)));
    RoundTrip(t, Max(Depth(s), Depth(t)));
  }

  /**
   Reading then writing is a canonicaliser: the second text is not longer, reads as the same value,
   and differs from the first exactly when it is shorter.
   */
  lemma Canonicalises(input: seq<Byte>, max: nat, t: Value)
    requires Document(input, max, t)
    ensures Document(Encode(t), max, t)
    ensures |Encode(t)| <= |input|
    ensures Encode(t) == input <==> |Encode(t)| == |input|
  {
    EncodeOfDecode(input, 0, 0, max);
    RoundTrip(t, max);
    if |Encode(t)| == |input| {
      AtWhole(input, Encode(t));
    }
  }

  /** All counts and lengths a successful decode accepted add up to less than the input. */
  lemma ClaimsBelowInput(input: seq<Byte>, max: nat, t: Value)
    requires Document(input, max, t)
    ensures Claims(t) < |input|
  {
    EncodeOfDecode(input, 0, 0, max);
    ClaimsBelowEncoding(t);
  }

  // Typed reads

  lemma PullOfDecodeLeaf(input: seq<Byte>, pos: nat, toDouble: int -> U64)
    requires PeekTag(input, pos).Ok? && input[pos] < ARRAY_TAG
    requires DecodeLeaf(input, pos + 1, input[pos]).Ok?
    ensures var (leaf, end) := DecodeLeaf(input, pos + 1, input[pos]).value;
            PullLeaf(input, pos, KindOf(leaf), toDouble) == Ok((leaf, end))
  {
  }

  /** A consumer that asks for what is there gets it, and ends where the value ends. */
  lemma {:induction false} PullOfDecode(input: seq<Byte>, pos: nat, depth: nat, max: nat, toDouble: int -> U64)
    requires pos <= |input|
    requires Decode(input, pos, depth, max).Ok?
    ensures PullAt(input, pos, depth, max, ShapeOf(Decode(input, pos, depth, max).value.0), toDouble)
         == Decode(input, pos, depth, max)
    decreases |input| - pos, 0
  {
    hide TakeVarint;
    var tag := input[pos];
    assert Decode(input, pos, depth, max) == DecodeTagged(input, pos + 1, tag, depth, max);
    if tag == ARRAY_TAG {
      var (count, start) := TakeLength(input, pos + 1, 1).value;
      var items := DecodeItems(input, start, depth + 1, max, count).value.0;
      PullOfDecodeItems(input, start, depth + 1, max, count, ItemShapes(items), 0, toDouble);
    } else if tag == OBJECT_TAG {
      var (count, start) := TakeLength(input, pos + 1, 2).value;
      var entries := DecodeEntries(input, start, depth + 1, max, count).value.0;
      PullOfDecodeEntries(input, start, depth + 1, max, count, EntryShapes(entries), 0, toDouble);
    } else {
      PullOfDecodeLeaf(input, pos, toDouble);
    }
  }

  lemma {:induction false} PullOfDecodeItems(input: seq<Byte>, pos: nat, depth: nat, max: nat, count: nat,
                                             shapes: seq<Shape>, k: nat, toDouble: int -> U64)
    requires pos <= |input| && k + count == |shapes|
    requires DecodeItems(input, pos, depth, max, count).Ok?
    requires var items := DecodeItems(input, pos, depth, max, count).value.0;
             forall i :: 0 <= i < count ==> shapes[k + i] == ShapeOf(items[i])
    ensures PullItems(input, pos, depth, max, count, shapes, k, toDouble) == DecodeItems(input, pos, depth, max, count)
    decreases |input| - pos, 1 + count
  {
    hide DecodeTagged, PullAt;
    if count > 0 {
      var (item, next) := Decode(input, pos, depth, max).value;
      PullOfDecode(input, pos, depth, max, toDouble);
      var rest := DecodeItems(input, next, depth, max, count - 1).value.0;
      var items := DecodeItems(input, pos, depth, max, count).value.0;
      assert items == [item] + rest;
      forall i | 0 <= i < count - 1
        ensures shapes[k + 1 + i] == ShapeOf(rest[i])
      {
        assert items[i + 1] == rest[i] && shapes[k + (i + 1)] == ShapeOf(items[i + 1]);
      }
      PullOfDecodeItems(input, next, depth, max, count - 1, shapes, k + 1, toDouble);
      assert shapes[k + 0] == ShapeOf(items[0]);
    }
  }

  lemma {:induction false} PullOfDecodeEntries(input: seq<Byte>, pos: nat, depth: nat, max: nat, count: nat,
                                               shapes: seq<Shape>, k: nat, toDouble: int -> U64)
    requires pos <= |input| && k + count == |shapes|
    requires DecodeEntries(input, pos, depth, max, count).Ok?
    requires var entries := DecodeEntries(input, pos, depth, max, count).value.0;
             forall i :: 0 <= i < count ==> shapes[k + i] == ShapeOf(entries[i].value)
    ensures PullEntries(input, pos, depth, max, count, shapes, k, toDouble)
         == DecodeEntries(input, pos, depth, max, count)
    decreases |input| - pos, 1 + count
  {
    hide TakeText, DecodeTagged, PullAt;
    if count > 0 {
      var (entry, next) := DecodeEntry(input, pos, depth, max).value;
      PullOfDecode(input, TakeText(input, pos).value.1, depth, max, toDouble);
      var rest := DecodeEntries(input, next, depth, max, count - 1).value.0;
      var entries := DecodeEntries(input, pos, depth, max, count).value.0;
      assert entries == [entry] + rest;
      forall i | 0 <= i < count - 1
        ensures shapes[k + 1 + i] == ShapeOf(rest[i].value)
      {
        assert entries[i + 1] == rest[i] && shapes[k + (i + 1)] == ShapeOf(entries[i + 1].value);
      }
      PullOfDecodeEntries(input, next, depth, max, count - 1, shapes, k + 1, toDouble);
      assert shapes[k + 0] == ShapeOf(entries[0].value);
    }
  }

  /** Whatever types a consumer asks for, a read that succeeds ends where skipping the value would. */
  lemma {:induction false} DecodeOfPull(input: seq<Byte>, pos: nat, depth: nat, max: nat, shape: Shape,
                                        toDouble: int -> U64)
    requires pos <= |input|
    requires PullAt(input, pos, depth, max, shape, toDouble).Ok?
    ensures Decode(input, pos, depth, max).Ok?
    ensures Decode(input, pos, depth, max).value.1 == PullAt(input, pos, depth, max, shape, toDouble).value.1
    decreases shape, 0
  {
    var tag := input[pos];
    assert Decode(input, pos, depth, max) == DecodeTagged(input, pos + 1, tag, depth, max);
    match shape
    case LeafShape(kind) =>
    case ArrayShape(shapes) =>
      var (count, start) := TakeLength(input, pos + 1, 1).value;
      DecodeOfPullItems(input, start, depth + 1, max, count, shapes, 0, toDouble);
    case ObjectShape(shapes) =>
      var (count, start) := TakeLength(input, pos + 1, 2).value;
      DecodeOfPullEntries(input, start, depth + 1, max, count, shapes, 0, toDouble);
  }

  lemma {:induction false} DecodeOfPullItems(input: seq<Byte>, pos: nat, depth: nat, max: nat, count: nat,
                                             shapes: seq<Shape>, k: nat, toDouble: int -> U64)
    requires pos <= |input| && k <= |shapes|
    requires PullItems(input, pos, depth, max, count, shapes, k, toDouble).Ok?
    ensures DecodeItems(input, pos, depth, max, count).Ok?
    ensures DecodeItems(input, pos, depth, max, count).value.1
         == PullItems(input, pos, depth, max, count, shapes, k, toDouble).value.1
    decreases shapes, |shapes| - k
  {
    if count > 0 {
      DecodeOfPull(input, pos, depth, max, shapes[k], toDouble);
      var next := Decode(input, pos, depth, max).value.1;
      DecodeOfPullItems(input, next, depth, max, count - 1, shapes, k + 1, toDouble);
    }
  }

  lemma {:induction false} DecodeOfPullEntries(input: seq<Byte>, pos: nat, depth: nat, max: nat, count: nat,
                                               shapes: seq<Shape>, k: nat, toDouble: int -> U64)
    requires pos <= |input| && k <= |shapes|
    requires PullEntries(input, pos, depth, max, count, shapes, k, toDouble).Ok?
    ensures DecodeEntries(input, pos, depth, max, count).Ok?
    ensures DecodeEntries(input, pos, depth, max, count).value.1
         == PullEntries(input, pos, depth, max, count, shapes, k, toDouble).value.1
    decreases shapes, |shapes| - k
  {
    hide TakeVarint, TakeText, PullAt, DecodeTagged;
    if count > 0 {
      var start := TakeText(input, pos).value.1;
      DecodeOfPull(input, start, depth, max, shapes[k], toDouble);
      DecodeEntryEnd(input, pos, depth, max);
      var next := DecodeEntry(input, pos, depth, max).value.1;
      DecodeOfPullEntries(input, next, depth, max, count - 1, shapes, k + 1, toDouble);
    }
  }

  lemma DecodeEntryEnd(input: seq<Byte>, pos: nat, depth: nat, max: nat)
    requires pos <= |input| && TakeText(input, pos).Ok?
    requires Decode(input, TakeText(input, pos).value.1, depth, max).Ok?
    ensures DecodeEntry(input, pos, depth, max)
         == Ok((Entry(TakeText(input, pos).value.0, Decode(input, TakeText(input, pos).value.1, depth, max).value.0),
                Decode(input, TakeText(input, pos).value.1, depth, max).value.1))
  {
  }

  /** Written through the writer's calls and read back through the reader's: the same tree, all of the input. */
  lemma PullRoundTrip(t: Value, max: nat, toDouble: int -> U64)
    requires Depth(t) <= max
    ensures PullAt(Encode(t), 0, 0, max, ShapeOf(t), toDouble) == Ok((t, |Encode(t)|))
  {
    RoundTrip(t, max);
    PullOfDecode(Encode(t), 0, 0, max, toDouble);
  }
}
