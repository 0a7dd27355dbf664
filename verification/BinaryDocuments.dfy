/** Whole documents: writing a value call by call, reading one back, and the two together. */
module BinaryDocuments {
  import opened Bytes
  import opened Serial
  import opened BinaryFormat
  import W = BinaryWriter
  import G = BinaryGrammar
  import R = BinaryReader
  import opened BinaryTheorems
  import opened BinaryMeaning
  import opened BinaryConsumer

  /** The calls in turn, up to the first refusal. */
  function Perform(s: W.State, max: nat, calls: seq<Call<U64>>): Result<W.State, W.Refusal>
    decreases |calls|
  {
    if calls == [] then Ok(s)
    else
      var next :- W.Step(s, max, calls[0]);
      Perform(next, max, calls[1..])
  }

  lemma {:induction false} PerformConcat(s: W.State, max: nat, a: seq<Call<U64>>, b: seq<Call<U64>>)
    ensures Perform(s, max, a + b)
         == match Perform(s, max, a)
            case Ok(middle) => Perform(middle, max, b)
            case Err(refusal) => Err(refusal)
    decreases |a|
  {
    if a == [] {
      assert a + b == b;
    } else {
      assert (a + b)[1..] == a[1..] + b;
      if W.Step(s, max, a[0]).Ok? {
        PerformConcat(W.Step(s, max, a[0]).value, max, a[1..], b);
      }
    }
  }

  lemma PerformOne(s: W.State, max: nat, call: Call<U64>)
    ensures Perform(s, max, [call]) == W.Step(s, max, call)
  {
  }

  /** Writing a value where one is due appends its encoding, unless it nests too deep for the limit. */
  lemma {:induction false} PerformTree(s: W.State, max: nat, t: Value)
    requires W.Begun(s).Ok? && |s.stack| <= max
    ensures Perform(s, max, Calls(t))
         == if |s.stack| + Depth(t) <= max then Ok(W.Begun(s).value.(output := s.output + Encode(t)))
            else Err(W.TooDeep)
    decreases t, 1
  {
    match t
    case Leaf(leaf) =>
      PerformOne(s, max, WriteLeaf(leaf));
    case Array(items) =>
      if |s.stack| < max {
        PerformItems(W.Opened(s, max, ARRAY_TAG, |items|).value, max, items);
      }
      PerformArray(s, max, items);
    case Object(entries) =>
      if |s.stack| < max {
        PerformEntries(W.Opened(s, max, OBJECT_TAG, |entries|).value, max, entries);
      }
      PerformObject(s, max, entries);
  }

  lemma PerformArray(s: W.State, max: nat, items: Sized<Value>)
    requires W.Begun(s).Ok? && |s.stack| <= max
    requires |s.stack| < max ==>
               var inner := W.Opened(s, max, ARRAY_TAG, |items|).value;
               Perform(inner, max, ItemCalls(items))
               == if |inner.stack| + ItemsDepth(items) <= max then Ok(Filled(inner, 0, EncodeItems(items)))
                  else Err(W.TooDeep)
    ensures Perform(s, max, Calls(Array(items)))
         == if |s.stack| + Depth(Array(items)) <= max
            then Ok(W.Begun(s).value.(output := s.output + Encode(Array(items))))
            else Err(W.TooDeep)
  {
    PerformContainer(s, max, BeginArray(|items|), ItemCalls(items), EndArray);
    if |s.stack| < max {
      EndWritten(s, W.Opened(s, max, ARRAY_TAG, |items|).value, max, ARRAY_TAG, |items|, EncodeItems(items));
    }
  }

  lemma PerformObject(s: W.State, max: nat, entries: Sized<Field>)
    requires W.Begun(s).Ok? && |s.stack| <= max
    requires |s.stack| < max ==>
               var inner := W.Opened(s, max, OBJECT_TAG, |entries|).value;
               Perform(inner, max, EntryCalls(entries))
               == if |inner.stack| + EntriesDepth(entries) <= max then Ok(Filled(inner, 0, EncodeEntries(entries)))
                  else Err(W.TooDeep)
    ensures Perform(s, max, Calls(Object(entries)))
         == if |s.stack| + Depth(Object(entries)) <= max
            then Ok(W.Begun(s).value.(output := s.output + Encode(Object(entries))))
            else Err(W.TooDeep)
  {
    PerformContainer(s, max, BeginObject(|entries|), EntryCalls(entries), EndObject);
    if |s.stack| < max {
      EndWritten(s, W.Opened(s, max, OBJECT_TAG, |entries|).value, max, OBJECT_TAG, |entries|, EncodeEntries(entries));
    }
  }

  function Within(s: W.State, max: nat, begin: Call<U64>, body: seq<Call<U64>>, end: Call<U64>)
    : Result<W.State, W.Refusal>
  {
    var inner :- W.Step(s, max, begin);
    var full :- Perform(inner, max, body);
    W.Step(full, max, end)
  }

  lemma PerformContainer(s: W.State, max: nat, begin: Call<U64>, body: seq<Call<U64>>, end: Call<U64>)
    ensures Perform(s, max, [begin] + body + [end]) == Within(s, max, begin, body, end)
  {
    PerformConcat(s, max, [begin] + body, [end]);
    PerformConcat(s, max, [begin], body);
    PerformOne(s, max, begin);
    if Perform(s, max, [begin] + body).Ok? {
      PerformOne(Perform(s, max, [begin] + body).value, max, end);
    }
  }

  /** The state inside a container that has written `body` and owes `remaining` more. */
  function Filled(inner: W.State, remaining: U64, body: seq<Byte>): W.State
    requires inner.stack != []
  {
    inner.(output := inner.output + body, stack := W.WithTop(inner.stack, W.Top(inner.stack).(remaining := remaining)))
  }

  lemma EndWritten(s: W.State, inner: W.State, max: nat, tag: Byte, count: U64, body: seq<Byte>)
    requires tag == ARRAY_TAG || tag == OBJECT_TAG
    requires W.Opened(s, max, tag, count) == Ok(inner) && W.Begun(s).Ok?
    ensures W.Closed(Filled(inner, 0, body), tag == OBJECT_TAG)
         == Ok(W.Begun(s).value.(output := s.output + ([tag] + Varint(count) + body)))
  {
    var begun := W.Begun(s).value;
    assert Filled(inner, 0, body).stack == begun.stack + [W.Frame(tag == OBJECT_TAG, 0, false)];
    assert s.output + ([tag] + Varint(count)) + body == s.output + ([tag] + Varint(count) + body);
  }

  lemma {:induction false} PerformItems(inner: W.State, max: nat, items: seq<Value>)
    requires inner.stack != [] && |inner.stack| <= max
    requires !W.Top(inner.stack).isObject && W.Top(inner.stack).remaining >= |items|
    ensures Perform(inner, max, ItemCalls(items))
         == if |inner.stack| + ItemsDepth(items) <= max
            then Ok(Filled(inner, W.Top(inner.stack).remaining - |items|, EncodeItems(items)))
            else Err(W.TooDeep)
    decreases items, 0
  {
    var n := W.Top(inner.stack).remaining;
    if items == [] {
      assert inner.output + [] == inner.output;
      assert W.WithTop(inner.stack, W.Top(inner.stack)) == inner.stack;
    } else {
      PerformConcat(inner, max, Calls(items[0]), ItemCalls(items[1..]));
      PerformTree(inner, max, items[0]);
      if |inner.stack| + Depth(items[0]) <= max {
        var next := Filled(inner, n - 1, Encode(items[0]));
        assert Perform(inner, max, Calls(items[0])) == Ok(next);
        PerformItems(next, max, items[1..]);
        FilledTwice(inner, n - 1, Encode(items[0]), n - |items|, EncodeItems(items[1..]));
      }
    }
  }

  lemma FilledTwice(inner: W.State, a: U64, first: seq<Byte>, b: U64, second: seq<Byte>)
    requires inner.stack != []
    ensures Filled(Filled(inner, a, first), b, second) == Filled(inner, b, first + second)
  {
    assert inner.output + first + second == inner.output + (first + second);
    assert W.WithTop(W.WithTop(inner.stack, W.Top(inner.stack).(remaining := a)),
                     W.Top(inner.stack).(remaining := b))
        == W.WithTop(inner.stack, W.Top(inner.stack).(remaining := b));
  }

  lemma {:induction false} PerformEntries(inner: W.State, max: nat, entries: seq<Field>)
    requires inner.stack != [] && |inner.stack| <= max
    requires W.Top(inner.stack).isObject && !W.Top(inner.stack).awaiting
    requires W.Top(inner.stack).remaining >= |entries|
    ensures Perform(inner, max, EntryCalls(entries))
         == if |inner.stack| + EntriesDepth(entries) <= max
            then Ok(Filled(inner, W.Top(inner.stack).remaining - |entries|, EncodeEntries(entries)))
            else Err(W.TooDeep)
    decreases entries, 0
  {
    var n := W.Top(inner.stack).remaining;
    if entries == [] {
      assert inner.output + [] == inner.output;
      assert W.WithTop(inner.stack, W.Top(inner.stack)) == inner.stack;
    } else {
      var e := entries[0];
      PerformConcat(inner, max, [WriteKey(e.key)] + Calls(e.value), EntryCalls(entries[1..]));
      PerformEntry(inner, max, e);
      if |inner.stack| + Depth(e.value) <= max {
        var next := Filled(inner, n - 1, EncodeEntry(e));
        PerformEntries(next, max, entries[1..]);
        FilledTwice(inner, n - 1, EncodeEntry(e), n - |entries|, EncodeEntries(entries[1..]));
      }
    }
  }

  lemma {:induction false} PerformEntry(inner: W.State, max: nat, e: Field)
    requires inner.stack != [] && |inner.stack| <= max
    requires W.Top(inner.stack).isObject && !W.Top(inner.stack).awaiting && W.Top(inner.stack).remaining > 0
    ensures Perform(inner, max, [WriteKey(e.key)] + Calls(e.value))
         == if |inner.stack| + Depth(e.value) <= max
            then Ok(Filled(inner, W.Top(inner.stack).remaining - 1, EncodeEntry(e)))
            else Err(W.TooDeep)
    decreases e, 1
  {
    var keyed := W.Keyed(inner, e.key).value;
    PerformConcat(inner, max, [WriteKey(e.key)], Calls(e.value));
    PerformOne(inner, max, WriteKey(e.key));
    PerformTree(keyed, max, e.value);
    assert W.Begun(keyed).value.stack
        == W.WithTop(inner.stack, W.Top(inner.stack).(remaining := W.Top(inner.stack).remaining - 1));
    assert inner.output + EncodeText(e.key) + Encode(e.value) == inner.output + EncodeEntry(e);
  }

  // Driving a writer

  /** Makes the calls that write `t`, and stops at a refusal. */
  method Write(w: W.Writer, t: Value) returns (r: Result<(), W.Refusal>)
    modifies w
    ensures match Perform(old(w.Snapshot()), w.maxDepth, Calls(t))
            case Ok(next) => r == Ok(()) && w.Snapshot() == next
            case Err(refusal) => r == Err(refusal)
    decreases t, 1
  {
    match t {
      case Leaf(leaf) =>
        PerformOne(w.Snapshot(), w.maxDepth, WriteLeaf(leaf));
        r := WriteScalar(w, leaf);
      case Array(items) =>
        PerformContainer(w.Snapshot(), w.maxDepth, BeginArray(|items|), ItemCalls(items), EndArray);
        var _ :- w.BeginArray(|items|);
        var _ :- WriteItems(w, items);
        r := w.EndArray();
      case Object(entries) =>
        PerformContainer(w.Snapshot(), w.maxDepth, BeginObject(|entries|), EntryCalls(entries), EndObject);
        var _ :- w.BeginObject(|entries|);
        var _ :- WriteEntries(w, entries);
        r := w.EndObject();
    }
  }

  method WriteScalar(w: W.Writer, leaf: Leaf<U64>) returns (r: Result<(), W.Refusal>)
    modifies w
    ensures W.Answers(W.Step(old(w.Snapshot()), w.maxDepth, WriteLeaf(leaf)), r, old(w.Snapshot()), w.Snapshot())
  {
    match leaf {
      case Null => r := w.WriteNull();
      case Bool(flag) => r := w.WriteBool(flag);
      case Signed(v) => r := w.WriteInt(v);
      case Unsigned(v) => r := w.WriteUint(v);
      case Float(bits) => r := w.WriteFloat(bits);
      case Str(text) => r := w.WriteString(text);
      case Blob(bytes) => r := w.WriteBytes(bytes);
    }
  }

  method WriteItems(w: W.Writer, items: seq<Value>) returns (r: Result<(), W.Refusal>)
    modifies w
    ensures match Perform(old(w.Snapshot()), w.maxDepth, ItemCalls(items))
            case Ok(next) => r == Ok(()) && w.Snapshot() == next
            case Err(refusal) => r == Err(refusal)
    decreases items, 0
  {
    ghost var whole := Perform(w.Snapshot(), w.maxDepth, ItemCalls(items));
    assert items[0..] == items;
    for i := 0 to |items|
      invariant Perform(w.Snapshot(), w.maxDepth, ItemCalls(items[i..])) == whole
    {
      assert items[i..][1..] == items[i + 1..];
      PerformConcat(w.Snapshot(), w.maxDepth, Calls(items[i]), ItemCalls(items[i + 1..]));
      var _ :- Write(w, items[i]);
    }
    return Ok(());
  }

  method WriteEntries(w: W.Writer, entries: seq<Field>) returns (r: Result<(), W.Refusal>)
    modifies w
    ensures match Perform(old(w.Snapshot()), w.maxDepth, EntryCalls(entries))
            case Ok(next) => r == Ok(()) && w.Snapshot() == next
            case Err(refusal) => r == Err(refusal)
    decreases entries, 0
  {
    ghost var whole := Perform(w.Snapshot(), w.maxDepth, EntryCalls(entries));
    assert entries[0..] == entries;
    for i := 0 to |entries|
      invariant Perform(w.Snapshot(), w.maxDepth, EntryCalls(entries[i..])) == whole
    {
      var e := entries[i];
      assert entries[i..][1..] == entries[i + 1..];
      PerformConcat(w.Snapshot(), w.maxDepth, [WriteKey(e.key)] + Calls(e.value), EntryCalls(entries[i + 1..]));
      PerformConcat(w.Snapshot(), w.maxDepth, [WriteKey(e.key)], Calls(e.value));
      PerformOne(w.Snapshot(), w.maxDepth, WriteKey(e.key));
      var _ :- w.WriteKey(e.key);
      var _ :- Write(w, e.value);
    }
    return Ok(());
  }

  // Documents

  method ToBytes(t: Value, max: nat) returns (r: Result<seq<Byte>, W.Refusal>)
    ensures r == if Depth(t) <= max then Ok(Encode(t)) else Err(W.TooDeep)
  {
    var w := new W.Writer([], max);
    PerformTree(w.Snapshot(), max, t);
    var _ :- Write(w, t);
    assert [] + Encode(t) == Encode(t);
    return Ok(w.output);
  }

  method FromBytes(bytes: seq<Byte>, shape: Shape, max: nat, toDouble: int -> U64)
    returns (r: Result<Value, G.Fault>)
    ensures match G.PullAt(bytes, 0, 0, max, shape, toDouble)
            case Err(fault) => r == Err(fault)
            case Ok((t, end)) => r == if end == |bytes| then Ok(t) else Err(G.Fault(G.TrailingBytes, end))
    ensures forall t :: r == Ok(t) <==> HasShape(t, shape) && DenotesIn(bytes, max, t, toDouble)
  {
    DocumentReadExactly(bytes, max, shape, toDouble);
    var reader := new R.Reader(bytes, max, toDouble);
    var t :- Pull(reader, shape);
    var _ :- reader.Finish();
    return Ok(t);
  }

  /** What is written within the limit is read back unchanged under the same limit. */
  method WriteThenRead(t: Value, max: nat, toDouble: int -> U64) returns (back: Option<Value>)
    ensures back == if Depth(t) <= max then Some(t) else None
  {
    var bytes := ToBytes(t, max);
    if bytes.Err? {
      return None;
    }
    PullRoundTrip(t, max, toDouble);
    var read := FromBytes(bytes.value, ShapeOf(t), max, toDouble);
    return Some(read.value);
  }
}
