/**
 The interface both formats implement: the value model, the calls a writer takes, the order in which
 a value is written, and the calls a consumer makes to read a value back.
 */
module Serial {
  import opened Bytes

  /** A value without parts; `F` is what a format keeps of a floating-point number. */
  datatype Leaf<F> =
    | Null
    | Bool(flag: bool)
    | Signed(signed: I64)
    | Unsigned(unsigned: U64)
    | Float(float: F)
    | Str(text: Text)
    | Blob(bytes: Text)

  datatype Tree<F> =
    | Leaf(leaf: Leaf<F>)
    | Array(items: Sized<Tree<F>>)
    | Object(entries: Sized<Entry<F>>)

  datatype Entry<F> = Entry(key: Text, value: Tree<F>)

  function Max(a: nat, b: nat): nat {
    if a < b then b else a
  }

  /** How many containers are open around the innermost value. */
  function Depth<F>(t: Tree<F>): nat
    decreases t, 1
  {
    match t
    case Leaf(_) => 0
    case Array(items) => 1 + ItemsDepth(items)
    case Object(entries) => 1 + EntriesDepth(entries)
  }

  function ItemsDepth<F>(items: seq<Tree<F>>): nat
    decreases items, 0
  {
    if items == [] then 0 else Max(Depth(items[0]), ItemsDepth(items[1..]))
  }

  function EntriesDepth<F>(entries: seq<Entry<F>>): nat
    decreases entries, 0
  {
    if entries == [] then 0 else Max(Depth(entries[0].value), EntriesDepth(entries[1..]))
  }

  /** One call on the writer interface. */
  datatype Call<F> =
    | WriteLeaf(leaf: Leaf<F>)
    | BeginArray(size: U64)
    | EndArray
    | BeginObject(size: U64)
    | WriteKey(key: Text)
    | EndObject
    | PreferInline

  /** The calls, in order, that write `t`. */
  function Calls<F>(t: Tree<F>): seq<Call<F>>
    decreases t, 1
  {
    match t
    case Leaf(leaf) => [WriteLeaf(leaf)]
    case Array(items) => [BeginArray(|items|)] + ItemCalls(items) + [EndArray]
    case Object(entries) => [BeginObject(|entries|)] + EntryCalls(entries) + [EndObject]
  }

  function ItemCalls<F>(items: seq<Tree<F>>): seq<Call<F>>
    decreases items, 0
  {
    if items == [] then [] else Calls(items[0]) + ItemCalls(items[1..])
  }

  function EntryCalls<F>(entries: seq<Entry<F>>): seq<Call<F>>
    decreases entries, 0
  {
    if entries == [] then []
    else [WriteKey(entries[0].key)] + Calls(entries[0].value) + EntryCalls(entries[1..])
  }

  /** What a reader says about the next value without taking it: the sign of an integer is not told. */
  datatype ValueKind =
    | NullValue
    | BooleanValue
    | IntegerValue
    | FloatingValue
    | StringValue
    | BytesValue
    | ArrayValue
    | ObjectValue

  datatype Kind = NullKind | BoolKind | SignedKind | UnsignedKind | FloatKind | StrKind | BlobKind

  /** Which read call a consumer makes for each part of a value: it knows the types it expects. */
  datatype Shape =
    | LeafShape(kind: Kind)
    | ArrayShape(items: seq<Shape>)
    | ObjectShape(values: seq<Shape>)

  function KindOf<F>(leaf: Leaf<F>): Kind {
    match leaf
    case Null => NullKind
    case Bool(_) => BoolKind
    case Signed(_) => SignedKind
    case Unsigned(_) => UnsignedKind
    case Float(_) => FloatKind
    case Str(_) => StrKind
    case Blob(_) => BlobKind
  }

  function ShapeOf<F>(t: Tree<F>): Shape
    decreases t, 1
  {
    match t
    case Leaf(leaf) => LeafShape(KindOf(leaf))
    case Array(items) => ArrayShape(ItemShapes(items))
    case Object(entries) => ObjectShape(EntryShapes(entries))
  }

  function ItemShapes<F>(items: seq<Tree<F>>): (shapes: seq<Shape>)
    ensures |shapes| == |items|
    ensures forall i :: 0 <= i < |items| ==> shapes[i] == ShapeOf(items[i])
    decreases items, 0
  {
    seq(|items|, i requires 0 <= i < |items| => ShapeOf(items[i]))
  }

  function EntryShapes<F>(entries: seq<Entry<F>>): (shapes: seq<Shape>)
    ensures |shapes| == |entries|
    ensures forall i :: 0 <= i < |entries| ==> shapes[i] == ShapeOf(entries[i].value)
    decreases entries, 0
  {
    seq(|entries|, i requires 0 <= i < |entries| => ShapeOf(entries[i].value))
  }
}
