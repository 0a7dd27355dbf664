/** Reading a value of known shape through the JSON reader's calls alone, in the order the interface asks for. */
module JsonConsumer {
  import opened Bytes
  import opened Serial
  import opened Reading
  import opened JsonNumber
  import opened JsonText
  import opened JsonGrammar
  import opened JsonReader

  method PullScalar(r: Reader, kind: Kind) returns (res: Result<Leaf<FloatText>, Fault>)
    requires r.Valid()
    modifies r
    ensures r.stack == old(r.stack) && (res.Ok? ==> r.Valid())
    ensures Took(PullLeaf(r.input, old(r.position), kind, r.inRange), res, r.position)
  {
    match kind {
      case NullKind =>
        var _ :- r.ReadNull();
        return Ok(Null);
      case BoolKind =>
        var flag :- r.ReadBool();
        return Ok(Bool(flag));
      case SignedKind =>
        var v :- r.ReadInt();
        return Ok(Signed(v));
      case UnsignedKind =>
        var v :- r.ReadUint();
        return Ok(Unsigned(v));
      case FloatKind =>
        var f :- r.ReadFloat();
        return Ok(Float(f));
      case StrKind =>
        var text :- r.ReadString();
        return Ok(Str(text));
      case BlobKind =>
        var bytes :- r.ReadBytes();
        return Ok(Blob(bytes));
    }
  }

  method Pull(r: Reader, shape: Shape) returns (res: Result<Value, Fault>)
    requires r.Valid()
    modifies r
    ensures res.Ok? ==> r.Valid() && r.stack == old(r.stack)
    ensures Took(PullAt(r.input, old(r.position), |old(r.stack)|, r.maxDepth, shape, r.inRange), res, r.position)
    decreases shape, 1
  {
    hide PullLeaf, EnterAt;
    match shape {
      case LeafShape(kind) =>
        var leaf :- PullScalar(r, kind);
        return Ok(Leaf(leaf));
      case ArrayShape(shapes) =>
        var _ :- r.BeginArray();
        var items :- PullArray(r, shapes);
        return Ok(Array(items));
      case ObjectShape(shapes) =>
        var _ :- r.BeginObject();
        var entries :- PullObject(r, shapes);
        return Ok(Object(entries));
    }
  }

  /** The elements of the array just begun, and its end. */
  method PullArray(r: Reader, shapes: seq<Shape>) returns (res: Result<Sized<Value>, Fault>)
    requires r.Valid() && Inside(r.stack, false) && Top(r.stack).first
    modifies r
    ensures res.Ok? ==> r.Valid() && r.stack == old(r.stack)[..|old(r.stack)| - 1]
    ensures Took(PullItems(r.input, old(r.position), |old(r.stack)|, r.maxDepth, true, shapes, 0, r.inRange),
                 res, r.position)
    decreases shapes, 0
  {
    hide PullAt;
    hide Advance, EndAt, SkipSpace, PullLeaf, EnterAt;
    ghost var outer, depth := r.stack[..|r.stack| - 1], |r.stack|;
    ghost var whole := PullItems(r.input, r.position, depth, r.maxDepth, true, shapes, 0, r.inRange);
    ContinuesEmpty(whole);
    var items: seq<Value> := [];
    while true
      invariant r.Valid() && |items| <= |shapes|
      invariant r.stack == outer + [Frame(false, items == [])]
      invariant Continues(items,
                  PullItems(r.input, r.position, depth, r.maxDepth, items == [], shapes, |items|, r.inRange), whole)
      decreases |shapes| - |items|
    {
      var more :- r.NextElement();
      if !more {
        break;
      }
      if |items| == |shapes| {
        return Err(Fault(UnexpectedItem, r.position));
      }
      var item :- Pull(r, shapes[|items|]);
      ContinuesOne(items, item,
        PullItems(r.input, r.position, depth, r.maxDepth, false, shapes, |items| + 1, r.inRange), whole);
      items := items + [item];
    }
    var _ :- r.EndArray();
    assert items + [] == items;
    return Ok(items);
  }

  /** The entries of the object just begun, and its end. */
  method PullObject(r: Reader, shapes: seq<Shape>) returns (res: Result<Sized<Field>, Fault>)
    requires r.Valid() && Inside(r.stack, true) && Top(r.stack).first
    modifies r
    ensures res.Ok? ==> r.Valid() && r.stack == old(r.stack)[..|old(r.stack)| - 1]
    ensures Took(PullEntries(r.input, old(r.position), |old(r.stack)|, r.maxDepth, true, shapes, 0, r.inRange),
                 res, r.position)
    decreases shapes, 0
  {
    hide KeyAt, EndAt, SkipSpace, PullLeaf, EnterAt;
    ghost var outer, depth := r.stack[..|r.stack| - 1], |r.stack|;
    ghost var whole := PullEntries(r.input, r.position, depth, r.maxDepth, true, shapes, 0, r.inRange);
    ContinuesEmpty(whole);
    var entries: seq<Field> := [];
    while true
      invariant r.Valid() && |entries| <= |shapes|
      invariant r.stack == outer + [Frame(true, entries == [])]
      invariant Continues(entries,
                  PullEntries(r.input, r.position, depth, r.maxDepth, entries == [], shapes, |entries|, r.inRange), whole)
      decreases |shapes| - |entries|
    {
      var key :- r.NextKey();
      if key.None? {
        break;
      }
      if |entries| == |shapes| {
        return Err(Fault(UnexpectedItem, r.position));
      }
      var value :- Pull(r, shapes[|entries|]);
      ContinuesOne(entries, Entry(key.value, value),
        PullEntries(r.input, r.position, depth, r.maxDepth, false, shapes, |entries| + 1, r.inRange), whole);
      entries := entries + [Entry(key.value, value)];
    }
    var _ :- r.EndObject();
    assert entries + [] == entries;
    return Ok(entries);
  }
}
