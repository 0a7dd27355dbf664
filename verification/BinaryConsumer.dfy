/** Reading a value of known shape through the reader's calls alone, in the order the interface asks for. */
module BinaryConsumer {
  import opened Bytes
  import opened Serial
  import opened Reading
  import opened BinaryFormat
  import opened BinaryGrammar
  import opened BinaryReader

  method PullScalar(r: Reader, kind: Kind) returns (res: Result<Leaf<U64>, Fault>)
    requires r.Valid()
    modifies r
    ensures r.Valid() && r.stack == old(r.stack)
    ensures Took(PullLeaf(r.input, old(r.position), kind, r.toDouble), res, r.position)
  {
    match kind {
      case NullKind =>
        var _ :- r.ReadNull();
        return Ok(Null);
      case BoolKind =>
        var flag :- r.ReadBool();
        return Ok(Bool(flag));
      case SignedKind =>
        var v :- r.ReadInt();
        return Ok(Signed(v));
      case UnsignedKind =>
        var v :- r.ReadUint();
        return Ok(Unsigned(v));
      case FloatKind =>
        var bits :- r.ReadFloat();
        return Ok(Float(bits));
      case StrKind =>
        var text :- r.ReadString();
        return Ok(Str(text));
      case BlobKind =>
        var bytes :- r.ReadBytes();
        return Ok(Blob(bytes));
    }
  }

  method Pull(r: Reader, shape: Shape) returns (res: Result<Value, Fault>)
    requires r.Valid()
    modifies r
    ensures r.Valid() && (res.Ok? ==> r.stack == old(r.stack))
    ensures Took(PullAt(r.input, old(r.position), |old(r.stack)|, r.maxDepth, shape, r.toDouble), res, r.position)
    decreases shape, 1
  {
    match shape {
      case LeafShape(kind) =>
        var leaf :- PullScalar(r, kind);
        return Ok(Leaf(leaf));
      case ArrayShape(shapes) =>
        var count :- r.BeginArray();
        var items :- PullArray(r, shapes);
        return Ok(Array(items));
      case ObjectShape(shapes) =>
        var count :- r.BeginObject();
        var entries :- PullObject(r, shapes);
        return Ok(Object(entries));
    }
  }

  /** The elements of the array just begun, and its end. */
  method PullArray(r: Reader, shapes: seq<Shape>) returns (res: Result<Sized<Value>, Fault>)
    requires r.Valid() && Inside(r.stack, false)
    modifies r
    ensures r.Valid() && (res.Ok? ==> r.stack == old(r.stack)[..|old(r.stack)| - 1])
    ensures Took(PullItems(r.input, old(r.position), |old(r.stack)|, r.maxDepth, Top(old(r.stack)).remaining,
                           shapes, 0, r.toDouble), res, r.position)
    decreases shapes, 0
  {
    hide PullAt;
    ghost var outer, depth, count := r.stack[..|r.stack| - 1], |r.stack|, Top(r.stack).remaining;
    ghost var whole := PullItems(r.input, r.position, depth, r.maxDepth, count, shapes, 0, r.toDouble);
    ghost var left: nat := count;
    ContinuesEmpty(whole);
    var items: seq<Value> := [];
    var k := 0;
    var more := r.NextElement();
    while more == Ok(true)
      invariant r.Valid() && k == |items| <= |shapes| && k + left == count
      invariant more == Ok(left > 0)
      invariant r.stack == outer + [Frame(false, if left > 0 then left - 1 else 0)]
      invariant Continues(items,
                  PullItems(r.input, r.position, depth, r.maxDepth, left, shapes, k, r.toDouble), whole)
      decreases left
    {
      if k == |shapes| {
        return Err(Fault(UnexpectedItem, r.position));
      }
      var item :- Pull(r, shapes[k]);
      ContinuesOne(items, item,
        PullItems(r.input, r.position, depth, r.maxDepth, left - 1, shapes, k + 1, r.toDouble), whole);
      items, k, left := items + [item], k + 1, left - 1;
      more := r.NextElement();
    }
    var end := r.EndArray();
    assert items + [] == items;
    return Ok(items);
  }

  /** The entries of the object just begun, and its end. */
  method PullObject(r: Reader, shapes: seq<Shape>) returns (res: Result<Sized<Field>, Fault>)
    requires r.Valid() && Inside(r.stack, true)
    modifies r
    ensures r.Valid() && (res.Ok? ==> r.stack == old(r.stack)[..|old(r.stack)| - 1])
    ensures Took(PullEntries(r.input, old(r.position), |old(r.stack)|, r.maxDepth, Top(old(r.stack)).remaining,
                             shapes, 0, r.toDouble), res, r.position)
    decreases shapes, 0
  {
    ghost var outer, depth, count := r.stack[..|r.stack| - 1], |r.stack|, Top(r.stack).remaining;
    ghost var whole := PullEntries(r.input, r.position, depth, r.maxDepth, count, shapes, 0, r.toDouble);
    ghost var left: nat := count;
    ContinuesEmpty(whole);
    var entries: seq<Field> := [];
    var k := 0;
    while true
      invariant r.Valid() && k == |entries| <= |shapes| && k + left == count
      invariant r.stack == outer + [Frame(true, left)]
      invariant Continues(entries,
                  PullEntries(r.input, r.position, depth, r.maxDepth, left, shapes, k, r.toDouble), whole)
      decreases left
    {
      var key :- r.NextKey();
      if key.None? {
        break;
      }
      if k == |shapes| {
        return Err(Fault(UnexpectedItem, r.position));
      }
      var value :- Pull(r, shapes[k]);
      ContinuesOne(entries, Entry(key.value, value),
        PullEntries(r.input, r.position, depth, r.maxDepth, left - 1, shapes, k + 1, r.toDouble), whole);
      entries, k, left := entries + [Entry(key.value, value)], k + 1, left - 1;
    }
    var end := r.EndObject();
    assert entries + [] == entries;
    return Ok(entries);
  }
}
