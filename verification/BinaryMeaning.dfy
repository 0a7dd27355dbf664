/**
 What a document means to a consumer that asks for types of its own: an integer is a number however it was
 written, and every integer can be had as a floating-point number. Typed reads give exactly that.
 */
module BinaryMeaning {
  import opened Bytes
  import opened Serial
  import opened BinaryFormat
  import opened BinaryGrammar

  /** The number of an integer, signed or not. */
  function NumberOf(leaf: Leaf<U64>): Option<int> {
    match leaf
    case Signed(v) => Some(v)
    case Unsigned(v) => Some(v)
    case _ => None
  }

  /** What was asked for is what was found, up to the type of a number. */
  predicate DenotesLeaf(found: Leaf<U64>, asked: Leaf<U64>, toDouble: int -> U64) {
    match asked
    case Signed(v) => NumberOf(found) == Some(v)
    case Unsigned(v) => NumberOf(found) == Some(v)
    case Float(bits) => found == asked || (NumberOf(found).Some? && toDouble(NumberOf(found).value) == bits)
    case _ => found == asked
  }

  predicate Denotes(found: Value, asked: Value, toDouble: int -> U64)
    decreases asked, 1
  {
    match asked
    case Leaf(leaf) => found.Leaf? && DenotesLeaf(found.leaf, leaf, toDouble)
    case Array(items) => found.Array? && ItemsDenote(found.items, items, toDouble)
    case Object(entries) => found.Object? && EntriesDenote(found.entries, entries, toDouble)
  }

  predicate ItemsDenote(found: seq<Value>, asked: seq<Value>, toDouble: int -> U64)
    decreases asked, 0
  {
    if asked == [] then found == []
    else found != [] && Denotes(found[0], asked[0], toDouble) && ItemsDenote(found[1..], asked[1..], toDouble)
  }

  predicate EntriesDenote(found: seq<Field>, asked: seq<Field>, toDouble: int -> U64)
    decreases asked, 0
  {
    if asked == [] then found == []
    else
      && found != [] && found[0].key == asked[0].key
      && Denotes(found[0].value, asked[0].value, toDouble)
      && EntriesDenote(found[1..], asked[1..], toDouble)
  }

  /** A value of the types asked for; a container may hold fewer parts than there are types. */
  predicate HasShape(t: Value, shape: Shape)
    decreases shape
  {
    match shape
    case LeafShape(kind) => t.Leaf? && KindOf(t.leaf) == kind
    case ArrayShape(shapes) => t.Array? && ItemsHaveShapes(t.items, shapes, 0)
    case ObjectShape(shapes) => t.Object? && EntriesHaveShapes(t.entries, shapes, 0)
  }

  predicate ItemsHaveShapes(items: seq<Value>, shapes: seq<Shape>, k: nat)
    decreases shapes, |items|
  {
    items == [] || (k < |shapes| && HasShape(items[0], shapes[k]) && ItemsHaveShapes(items[1..], shapes, k + 1))
  }

  predicate EntriesHaveShapes(entries: seq<Field>, shapes: seq<Shape>, k: nat)
    decreases shapes, |entries|
  {
    entries == []
    || (k < |shapes| && HasShape(entries[0].value, shapes[k]) && EntriesHaveShapes(entries[1..], shapes, k + 1))
  }

  // Leaves

  /** The value at `pos`, if there is one and it is a leaf, and where it ends. */
  function LeafAt(input: seq<Byte>, pos: nat, depth: nat, max: nat): Option<(Leaf<U64>, nat)>
    requires pos <= |input|
  {
    var r := Decode(input, pos, depth, max);
    if r.Ok? && r.value.0.Leaf? then Some((r.value.0.leaf, r.value.1)) else None
  }

  /** A typed read gives what the leaf that stands there denotes, and gives it whenever there is such a leaf. */
  lemma LeafReadExactly(input: seq<Byte>, pos: nat, depth: nat, max: nat, toDouble: int -> U64, asked: Leaf<U64>,
                        end: nat)
    requires pos <= |input|
    ensures PullLeaf(input, pos, KindOf(asked), toDouble) == Ok((asked, end))
       <==> var stands := LeafAt(input, pos, depth, max);
            stands.Some? && DenotesLeaf(stands.value.0, asked, toDouble) && stands.value.1 == end
  {
    hide TakeVarint, TakeText, TakeDouble, TakeLength;
    if PeekTag(input, pos).Ok? {
      assert Decode(input, pos, depth, max) == DecodeTagged(input, pos + 1, input[pos], depth, max);
    }
  }

  /** A number is read as unsigned exactly when an integer stands there that is that number. */
  lemma UnsignedIsReadExactly(input: seq<Byte>, pos: nat, depth: nat, max: nat, v: U64, end: nat)
    requires pos <= |input|
    ensures UintAt(input, pos) == Ok((v, end))
       <==> var stands := LeafAt(input, pos, depth, max);
            stands.Some? && NumberOf(stands.value.0) == Some(v) && stands.value.1 == end
  {
    hide LeafAt;
    LeafReadExactly(input, pos, depth, max, v => 0, Unsigned(v), end);
  }

  lemma SignedIsReadExactly(input: seq<Byte>, pos: nat, depth: nat, max: nat, v: I64, end: nat)
    requires pos <= |input|
    ensures IntAt(input, pos) == Ok((v, end))
       <==> var stands := LeafAt(input, pos, depth, max);
            stands.Some? && NumberOf(stands.value.0) == Some(v) && stands.value.1 == end
  {
    hide LeafAt;
    LeafReadExactly(input, pos, depth, max, v => 0, Signed(v), end);
  }

  /** A floating-point number is read when it stands there, or an integer that converts to it. */
  lemma FloatIsReadExactly(input: seq<Byte>, pos: nat, depth: nat, max: nat, toDouble: int -> U64, bits: U64, end: nat)
    requires pos <= |input|
    ensures FloatAt(input, pos, toDouble) == Ok((bits, end))
       <==> var stands := LeafAt(input, pos, depth, max);
            && stands.Some? && stands.value.1 == end
            && var found := stands.value.0;
               found == Float(bits) || (NumberOf(found).Some? && toDouble(NumberOf(found).value) == bits)
  {
    hide LeafAt;
    assert DenotesLeaf(Float(bits), Float(bits), toDouble);
    LeafReadExactly(input, pos, depth, max, toDouble, Float(bits), end);
  }

  /** The leaf is an integer, but not of the type asked for. */
  predicate IsOutOfRange(found: Leaf<U64>, kind: Kind) {
    NumberOf(found).Some? && (kind.SignedKind? || kind.UnsignedKind?)
  }

  /** Where a leaf stands, a read that fails says whether the type is wrong or the number, and points at its tag. */
  lemma LeafIsRefused(input: seq<Byte>, pos: nat, kind: Kind, depth: nat, max: nat, toDouble: int -> U64)
    requires pos <= |input| && Decode(input, pos, depth, max).Ok? && Decode(input, pos, depth, max).value.0.Leaf?
    requires PullLeaf(input, pos, kind, toDouble).Err?
    ensures PullLeaf(input, pos, kind, toDouble)
         == Err(Fault(if IsOutOfRange(Decode(input, pos, depth, max).value.0.leaf, kind) then IntegerOutOfRange
                      else UnexpectedTag, pos))
  {
    hide TakeVarint, TakeText, TakeDouble, TakeLength;
  }

  // Trees

  /** Wherever a value of the types asked for is denoted, it is read. */
  lemma {:induction false} ReadOfDenoted(input: seq<Byte>, pos: nat, depth: nat, max: nat, shape: Shape,
                                         toDouble: int -> U64, t: Value)
    requires pos <= |input| && Decode(input, pos, depth, max).Ok?
    requires Denotes(Decode(input, pos, depth, max).value.0, t, toDouble) && HasShape(t, shape)
    ensures PullAt(input, pos, depth, max, shape, toDouble) == Ok((t, Decode(input, pos, depth, max).value.1))
    decreases shape, 0
  {
    hide PullLeaf, TakeLength, DecodeLeaf, DenotesLeaf;
    var (found, end) := Decode(input, pos, depth, max).value;
    assert Decode(input, pos, depth, max) == DecodeTagged(input, pos + 1, input[pos], depth, max);
    match shape
    case LeafShape(kind) => LeafReadExactly(input, pos, depth, max, toDouble, t.leaf, end);
    case ArrayShape(shapes) =>
      var (count, start) := TakeLength(input, pos + 1, 1).value;
      ReadOfItems(input, start, depth + 1, max, count, shapes, 0, toDouble, t.items);
    case ObjectShape(shapes) =>
      var (count, start) := TakeLength(input, pos + 1, 2).value;
      ReadOfEntries(input, start, depth + 1, max, count, shapes, 0, toDouble, t.entries);
  }

  lemma {:induction false} ReadOfItems(input: seq<Byte>, pos: nat, depth: nat, max: nat, count: nat, shapes: seq<Shape>,
                                       k: nat, toDouble: int -> U64, items: seq<Value>)
    requires pos <= |input| && k <= |shapes| && DecodeItems(input, pos, depth, max, count).Ok?
    requires ItemsDenote(DecodeItems(input, pos, depth, max, count).value.0, items, toDouble)
    requires ItemsHaveShapes(items, shapes, k)
    ensures PullItems(input, pos, depth, max, count, shapes, k, toDouble)
         == Ok((items, DecodeItems(input, pos, depth, max, count).value.1))
    decreases shapes, |shapes| - k
  {
    hide DecodeTagged, PullAt, Denotes, HasShape;
    if count > 0 {
      var (item, next) := Decode(input, pos, depth, max).value;
      var rest := DecodeItems(input, next, depth, max, count - 1).value.0;
      assert ([item] + rest)[1..] == rest;
      ReadOfDenoted(input, pos, depth, max, shapes[k], toDouble, items[0]);
      ReadOfItems(input, next, depth, max, count - 1, shapes, k + 1, toDouble, items[1..]);
      assert [items[0]] + items[1..] == items;
    }
  }

  lemma {:induction false} ReadOfEntries(input: seq<Byte>, pos: nat, depth: nat, max: nat, count: nat,
                                         shapes: seq<Shape>, k: nat, toDouble: int -> U64, entries: seq<Field>)
    requires pos <= |input| && k <= |shapes| && DecodeEntries(input, pos, depth, max, count).Ok?
    requires EntriesDenote(DecodeEntries(input, pos, depth, max, count).value.0, entries, toDouble)
    requires EntriesHaveShapes(entries, shapes, k)
    ensures PullEntries(input, pos, depth, max, count, shapes, k, toDouble)
         == Ok((entries, DecodeEntries(input, pos, depth, max, count).value.1))
    decreases shapes, |shapes| - k
  {
    hide DecodeTagged, PullAt, Denotes, HasShape, TakeText;
    if count > 0 {
      var (entry, next) := DecodeEntry(input, pos, depth, max).value;
      var rest := DecodeEntries(input, next, depth, max, count - 1).value.0;
      assert ([entry] + rest)[1..] == rest;
      ReadOfDenoted(input, TakeText(input, pos).value.1, depth, max, shapes[k], toDouble, entries[0].value);
      ReadOfEntries(input, next, depth, max, count - 1, shapes, k + 1, toDouble, entries[1..]);
      assert [entries[0]] + entries[1..] == entries;
    }
  }

  /** Whatever is read has the types asked for, and is denoted by the value that stands there. */
  lemma {:induction false} DenotedOfRead(input: seq<Byte>, pos: nat, depth: nat, max: nat, shape: Shape,
                                         toDouble: int -> U64)
    requires pos <= |input| && PullAt(input, pos, depth, max, shape, toDouble).Ok?
    ensures Decode(input, pos, depth, max).Ok?
    ensures var (t, end) := PullAt(input, pos, depth, max, shape, toDouble).value;
            var (found, last) := Decode(input, pos, depth, max).value;
            HasShape(t, shape) && Denotes(found, t, toDouble) && last == end
    decreases shape, 0
  {
    hide PullLeaf, TakeLength, DecodeLeaf, DenotesLeaf;
    match shape
    case LeafShape(kind) =>
      var (leaf, end) := PullLeaf(input, pos, kind, toDouble).value;
      PulledKind(input, pos, kind, toDouble);
      LeafReadExactly(input, pos, depth, max, toDouble, leaf, end);
    case ArrayShape(shapes) =>
      assert Decode(input, pos, depth, max) == DecodeTagged(input, pos + 1, ARRAY_TAG, depth, max);
      var (count, start) := TakeLength(input, pos + 1, 1).value;
      DenotedOfItems(input, start, depth + 1, max, count, shapes, 0, toDouble);
    case ObjectShape(shapes) =>
      assert Decode(input, pos, depth, max) == DecodeTagged(input, pos + 1, OBJECT_TAG, depth, max);
      var (count, start) := TakeLength(input, pos + 1, 2).value;
      DenotedOfEntries(input, start, depth + 1, max, count, shapes, 0, toDouble);
  }

  lemma PulledKind(input: seq<Byte>, pos: nat, kind: Kind, toDouble: int -> U64)
    requires PullLeaf(input, pos, kind, toDouble).Ok?
    ensures KindOf(PullLeaf(input, pos, kind, toDouble).value.0) == kind
  {
  }

  lemma {:induction false} DenotedOfItems(input: seq<Byte>, pos: nat, depth: nat, max: nat, count: nat,
                                          shapes: seq<Shape>, k: nat, toDouble: int -> U64)
    requires pos <= |input| && k <= |shapes| && PullItems(input, pos, depth, max, count, shapes, k, toDouble).Ok?
    ensures DecodeItems(input, pos, depth, max, count).Ok?
    ensures var (items, end) := PullItems(input, pos, depth, max, count, shapes, k, toDouble).value;
            var (found, last) := DecodeItems(input, pos, depth, max, count).value;
            ItemsHaveShapes(items, shapes, k) && ItemsDenote(found, items, toDouble) && last == end
    decreases shapes, |shapes| - k
  {
    hide DecodeTagged, PullAt, Denotes, HasShape;
    if count > 0 {
      DenotedOfRead(input, pos, depth, max, shapes[k], toDouble);
      var (item, next) := PullAt(input, pos, depth, max, shapes[k], toDouble).value;
      DenotedOfItems(input, next, depth, max, count - 1, shapes, k + 1, toDouble);
      var rest := PullItems(input, next, depth, max, count - 1, shapes, k + 1, toDouble).value.0;
      var found := Decode(input, pos, depth, max).value.0;
      var others := DecodeItems(input, next, depth, max, count - 1).value.0;
      assert ([item] + rest)[1..] == rest && ([found] + others)[1..] == others;
    }
  }

  lemma {:induction false} DenotedOfEntries(input: seq<Byte>, pos: nat, depth: nat, max: nat, count: nat,
                                            shapes: seq<Shape>, k: nat, toDouble: int -> U64)
    requires pos <= |input| && k <= |shapes| && PullEntries(input, pos, depth, max, count, shapes, k, toDouble).Ok?
    ensures DecodeEntries(input, pos, depth, max, count).Ok?
    ensures var (entries, end) := PullEntries(input, pos, depth, max, count, shapes, k, toDouble).value;
            var (found, last) := DecodeEntries(input, pos, depth, max, count).value;
            EntriesHaveShapes(entries, shapes, k) && EntriesDenote(found, entries, toDouble) && last == end
    decreases shapes, |shapes| - k
  {
    hide DecodeTagged, PullAt, Denotes, HasShape, TakeText;
    if count > 0 {
      var (key, start) := TakeText(input, pos).value;
      DenotedOfRead(input, start, depth, max, shapes[k], toDouble);
      var (value, next) := PullAt(input, start, depth, max, shapes[k], toDouble).value;
      DenotedOfEntries(input, next, depth, max, count - 1, shapes, k + 1, toDouble);
      var rest := PullEntries(input, next, depth, max, count - 1, shapes, k + 1, toDouble).value.0;
      var entry := DecodeEntry(input, pos, depth, max).value.0;
      var others := DecodeEntries(input, next, depth, max, count - 1).value.0;
      assert ([Entry(key, value)] + rest)[1..] == rest && ([entry] + others)[1..] == others;
    }
  }

  /** Typed reads give a value of the types asked for exactly where a value stands that denotes it. */
  lemma ReadExactly(input: seq<Byte>, pos: nat, depth: nat, max: nat, shape: Shape, toDouble: int -> U64, t: Value,
                    end: nat)
    requires pos <= |input|
    ensures PullAt(input, pos, depth, max, shape, toDouble) == Ok((t, end))
       <==> HasShape(t, shape)
            && var r := Decode(input, pos, depth, max);
               r.Ok? && Denotes(r.value.0, t, toDouble) && r.value.1 == end
  {
    hide PullAt, Decode, Denotes, HasShape;
    if PullAt(input, pos, depth, max, shape, toDouble) == Ok((t, end)) {
      DenotedOfRead(input, pos, depth, max, shape, toDouble);
    }
    var r := Decode(input, pos, depth, max);
    if r.Ok? && Denotes(r.value.0, t, toDouble) && HasShape(t, shape) {
      ReadOfDenoted(input, pos, depth, max, shape, toDouble, t);
    }
  }

  /** The whole input is one value, and it denotes `t`. */
  predicate DenotesIn(input: seq<Byte>, max: nat, t: Value, toDouble: int -> U64) {
    var r := Decode(input, 0, 0, max);
    r.Ok? && Denotes(r.value.0, t, toDouble) && r.value.1 == |input|
  }

  lemma DocumentReadExactly(input: seq<Byte>, max: nat, shape: Shape, toDouble: int -> U64)
    ensures forall t :: HasShape(t, shape) && DenotesIn(input, max, t, toDouble) <==>
              PullAt(input, 0, 0, max, shape, toDouble) == Ok((t, |input|))
  {
    hide PullAt, Decode, Denotes, HasShape;
    forall t
      ensures HasShape(t, shape) && DenotesIn(input, max, t, toDouble) <==>
                PullAt(input, 0, 0, max, shape, toDouble) == Ok((t, |input|))
    {
      ReadExactly(input, 0, 0, max, shape, toDouble, t, |input|);
    }
  }
}
