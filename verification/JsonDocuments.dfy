/** Whole JSON texts: writing a value call by call, reading one back, and the two together. */
module JsonDocuments {
  import opened Bytes
  import opened Serial
  import opened Building
  import opened JsonNumber
  import T = JsonText
  import opened JsonGrammar
  import W = JsonWriter
  import opened JsonLayout
  import opened JsonProtocol
  import opened JsonRuns
  import opened JsonTheorems
  import opened JsonPrinting
  import opened JsonSheets
  import R = JsonReader
  import opened JsonConsumer

  function Stepped(s: W.State, indent: nat, max: nat, call: Call<FloatText>): Result<W.State, W.Refusal> {
    match W.Step(s, indent, max, call)
    case Outcome(_, Some(refusal)) => Err(refusal)
    case Outcome(next, None) => Ok(next)
  }

  /** The calls in turn, up to the first refusal. */
  function Perform(s: W.State, indent: nat, max: nat, calls: JsonCalls): Result<W.State, W.Refusal>
    decreases |calls|
  {
    if calls == [] then Ok(s)
    else
      var next :- Stepped(s, indent, max, calls[0]);
      Perform(next, indent, max, calls[1..])
  }

  function Then(r: Result<W.State, W.Refusal>, indent: nat, max: nat, calls: JsonCalls): Result<W.State, W.Refusal> {
    var middle :- r;
    Perform(middle, indent, max, calls)
  }

  lemma {:induction false} PerformConcat(s: W.State, indent: nat, max: nat, a: JsonCalls, b: JsonCalls)
    ensures Perform(s, indent, max, a + b) == Then(Perform(s, indent, max, a), indent, max, b)
    decreases |a|
  {
    hide W.Step;
    if a == [] {
      assert a + b == b;
    } else {
      assert (a + b)[1..] == a[1..] + b;
      PerformConcat(W.Step(s, indent, max, a[0]).state, indent, max, a[1..], b);
    }
  }

  lemma PerformOne(s: W.State, indent: nat, max: nat, call: Call<FloatText>)
    ensures Perform(s, indent, max, [call]) == Stepped(s, indent, max, call)
  {
    hide W.Step;
  }

  /** A run in which every call is carried out is the same up to the first refusal: there is none. */
  lemma {:induction false} CarriedOutIsPerformed(prefix: seq<Byte>, indent: nat, max: nat, calls: JsonCalls)
    requires AllCarriedOut(prefix, indent, max, calls)
    ensures Perform(Fresh(prefix), indent, max, calls) == Ok(Run(Fresh(prefix), indent, max, calls))
    decreases |calls|
  {
    hide W.Step;
    if calls != [] {
      var earlier, last := calls[..|calls| - 1], calls[|calls| - 1];
      forall i {:trigger earlier[..i]} | 0 <= i < |earlier|
        ensures W.Step(Run(Fresh(prefix), indent, max, earlier[..i]), indent, max, earlier[i]).refusal.None?
      {
        assert earlier[..i] == calls[..i];
      }
      CarriedOutIsPerformed(prefix, indent, max, earlier);
      assert calls == earlier + [last];
      PerformConcat(Fresh(prefix), indent, max, earlier, [last]);
      PerformOne(Run(Fresh(prefix), indent, max, earlier), indent, max, last);
    }
  }

  lemma CarriedOutIsClean(s: W.State, indent: nat, max: nat, call: Call<FloatText>)
    requires W.Step(s, indent, max, call).refusal.None?
    ensures Clean(call, AnyFloat())
  {
  }

  /** When no call of a value is refused, the writer holds the value: its texts are valid, its depth allowed. */
  lemma {:induction false} PerformedFits(prefix: seq<Byte>, indent: nat, max: nat, calls: JsonCalls, open: nat,
                                         b: Builder<FloatText>)
    requires TakeWithin(Builder([], None), calls, open) == Some(b)
    requires Perform(Fresh(prefix), indent, max, calls).Ok?
    ensures Matches(Perform(Fresh(prefix), indent, max, calls).value, b, |prefix|, max, AnyFloat())
    decreases |calls|
  {
    hide W.Step, Matches, Clean;
    if calls == [] {
      FreshMatches(prefix, max, AnyFloat());
    } else {
      var earlier, last := calls[..|calls| - 1], calls[|calls| - 1];
      assert calls == earlier + [last];
      PerformConcat(Fresh(prefix), indent, max, earlier, [last]);
      TakeWithinConcat(Builder([], None), earlier, [last], open);
      var middle := TakeWithin(Builder([], None), earlier, open).value;
      TakeWithinOne(middle, last, open);
      PerformedFits(prefix, indent, max, earlier, open, middle);
      var s := Perform(Fresh(prefix), indent, max, earlier).value;
      PerformOne(s, indent, max, last);
      CarriedOutIsClean(s, indent, max, last);
      EndFits(middle, last);
      MatchesStep(s, middle, |prefix|, indent, max, last, AnyFloat());
    }
  }

  lemma EndFits(b: Builder<FloatText>, call: Call<FloatText>)
    requires b.CanTake(call)
    ensures call.EndArray? || call.EndObject? ==> CountsFit(b)
  {
  }

  /** The writer refuses a value exactly when it nests too deep or holds text that is not UTF-8. */
  lemma WrittenExactlyWhen(indent: nat, max: nat, t: Value)
    ensures Perform(Fresh([]), indent, max, Calls(t)).Ok? <==> Depth(t) <= max && Writable(t, AnyFloat())
    ensures Perform(Fresh([]), indent, max, Calls(t)).Ok? ==>
              Perform(Fresh([]), indent, max, Calls(t)) == Ok(Run(Fresh([]), indent, max, Calls(t)))
  {
    hide Matches, AllCarriedOut;
    if Depth(t) <= max && Writable(t, AnyFloat()) {
      NoHints(t);
      EveryLayoutReadsBack([], indent, max, t, Calls(t), AnyFloat());
      CarriedOutIsPerformed([], indent, max, Calls(t));
    }
    if Perform(Fresh([]), indent, max, Calls(t)).Ok? {
      var empty: Builder<FloatText> := Builder([], None);
      TakeWithinTree(empty, t, Depth(t));
      PerformedFits([], indent, max, Calls(t), Depth(t), empty.Place(t));
      FitsIsWritable(Perform(Fresh([]), indent, max, Calls(t)).value, t, max);
    }
  }

  lemma FitsIsWritable(s: W.State, t: Value, max: nat)
    requires Matches(s, Builder([], Some(t)), 0, max, AnyFloat())
    ensures Depth(t) <= max && Writable(t, AnyFloat())
  {
  }

  lemma {:induction false} NoHints(t: Value)
    ensures WithoutHints(Calls(t)) == Calls(t)
    decreases t, 1
  {
    match t
    case Leaf(_) =>
    case Array(items) =>
      NoItemHints(items);
      NoHintsAround(BeginArray(|items|), ItemCalls(items), EndArray);
    case Object(entries) =>
      NoEntryHints(entries);
      NoHintsAround(BeginObject(|entries|), EntryCalls(entries), EndObject);
  }

  lemma NoHintsAround(begin: Call<FloatText>, body: JsonCalls, end: Call<FloatText>)
    requires !begin.PreferInline? && !end.PreferInline? && WithoutHints(body) == body
    ensures WithoutHints([begin] + body + [end]) == [begin] + body + [end]
  {
    NoHintsConcat([begin] + body, [end]);
    NoHintsConcat([begin], body);
  }

  lemma {:induction false} NoHintsConcat(a: JsonCalls, b: JsonCalls)
    ensures WithoutHints(a + b) == WithoutHints(a) + WithoutHints(b)
    decreases |a|
  {
    if a == [] {
      assert a + b == b;
    } else {
      assert (a + b)[1..] == a[1..] + b;
      NoHintsConcat(a[1..], b);
    }
  }

  lemma {:induction false} NoItemHints(items: seq<Value>)
    ensures WithoutHints(ItemCalls(items)) == ItemCalls(items)
    decreases items, 0
  {
    if items != [] {
      NoHints(items[0]);
      NoItemHints(items[1..]);
      NoHintsConcat(Calls(items[0]), ItemCalls(items[1..]));
    }
  }

  lemma {:induction false} NoEntryHints(entries: seq<Field>)
    ensures WithoutHints(EntryCalls(entries)) == EntryCalls(entries)
    decreases entries, 0
  {
    if entries != [] {
      var e := entries[0];
      NoHints(e.value);
      NoEntryHints(entries[1..]);
      NoHintsConcat([WriteKey(e.key)] + Calls(e.value), EntryCalls(entries[1..]));
      NoHintsConcat([WriteKey(e.key)], Calls(e.value));
    }
  }

  // Driving a writer

  /** A call that ran as the first of `calls`. */
  predicate Ran(r: Result<(), W.Refusal>, after: W.State, spec: Result<W.State, W.Refusal>) {
    match spec
    case Ok(next) => r == Ok(()) && after == next
    case Err(refusal) => r == Err(refusal)
  }

  /** Makes the calls that write `t`, and stops at a refusal. */
  method Write(w: W.Writer, t: Value) returns (r: Result<(), W.Refusal>)
    modifies w
    ensures Ran(r, w.Snapshot(), Perform(old(w.Snapshot()), w.indent, w.maxDepth, Calls(t)))
    decreases t, 1
  {
    hide W.Step;
    match t {
      case Leaf(leaf) =>
        PerformOne(w.Snapshot(), w.indent, w.maxDepth, WriteLeaf(leaf));
        r := WriteScalar(w, leaf);
      case Array(items) =>
        PerformContainer(w.Snapshot(), w.indent, w.maxDepth, BeginArray(|items|), ItemCalls(items), EndArray);
        OpenedIsStep(w.Snapshot(), w.indent, w.maxDepth, |items|);
        var _ :- w.BeginArray();
        var _ :- WriteItems(w, items);
        r := w.EndArray();
      case Object(entries) =>
        PerformContainer(w.Snapshot(), w.indent, w.maxDepth, BeginObject(|entries|), EntryCalls(entries), EndObject);
        OpenedIsStep(w.Snapshot(), w.indent, w.maxDepth, |entries|);
        var _ :- w.BeginObject();
        var _ :- WriteEntries(w, entries);
        r := w.EndObject();
    }
  }

  /** The announced size makes no difference. */
  lemma OpenedIsStep(s: W.State, indent: nat, max: nat, size: U64)
    ensures W.Step(s, indent, max, BeginArray(size)) == W.Opened(s, indent, max, false)
    ensures W.Step(s, indent, max, BeginObject(size)) == W.Opened(s, indent, max, true)
  {
  }

  function Within(s: W.State, indent: nat, max: nat, begin: Call<FloatText>, body: JsonCalls, end: Call<FloatText>)
    : Result<W.State, W.Refusal>
  {
    var inner :- Stepped(s, indent, max, begin);
    var full :- Perform(inner, indent, max, body);
    Stepped(full, indent, max, end)
  }

  lemma PerformContainer(s: W.State, indent: nat, max: nat, begin: Call<FloatText>, body: JsonCalls,
                         end: Call<FloatText>)
    ensures Perform(s, indent, max, [begin] + body + [end]) == Within(s, indent, max, begin, body, end)
  {
    hide W.Step;
    PerformConcat(s, indent, max, [begin] + body, [end]);
    PerformConcat(s, indent, max, [begin], body);
    PerformOne(s, indent, max, begin);
    if Perform(s, indent, max, [begin] + body).Ok? {
      PerformOne(Perform(s, indent, max, [begin] + body).value, indent, max, end);
    }
  }

  method WriteScalar(w: W.Writer, leaf: Leaf<FloatText>) returns (r: Result<(), W.Refusal>)
    modifies w
    ensures W.Answers(W.Step(old(w.Snapshot()), w.indent, w.maxDepth, WriteLeaf(leaf)), r, w.Snapshot())
  {
    match leaf {
      case Null => r := w.WriteNull();
      case Bool(flag) => r := w.WriteBool(flag);
      case Signed(v) => r := w.WriteInt(v);
      case Unsigned(v) => r := w.WriteUint(v);
      case Float(f) => r := w.WriteFloat(Some(f));
      case Str(text) => r := w.WriteString(text);
      case Blob(bytes) => r := w.WriteBytes(bytes);
    }
  }

  method WriteItems(w: W.Writer, items: seq<Value>) returns (r: Result<(), W.Refusal>)
    modifies w
    ensures Ran(r, w.Snapshot(), Perform(old(w.Snapshot()), w.indent, w.maxDepth, ItemCalls(items)))
    decreases items, 0
  {
    hide W.Step;
    ghost var whole := Perform(w.Snapshot(), w.indent, w.maxDepth, ItemCalls(items));
    assert items[0..] == items;
    for i := 0 to |items|
      invariant Perform(w.Snapshot(), w.indent, w.maxDepth, ItemCalls(items[i..])) == whole
    {
      assert items[i..][1..] == items[i + 1..];
      PerformConcat(w.Snapshot(), w.indent, w.maxDepth, Calls(items[i]), ItemCalls(items[i + 1..]));
      var _ :- Write(w, items[i]);
    }
    return Ok(());
  }

  method WriteEntries(w: W.Writer, entries: seq<Field>) returns (r: Result<(), W.Refusal>)
    modifies w
    ensures Ran(r, w.Snapshot(), Perform(old(w.Snapshot()), w.indent, w.maxDepth, EntryCalls(entries)))
    decreases entries, 0
  {
    hide W.Step;
    ghost var whole := Perform(w.Snapshot(), w.indent, w.maxDepth, EntryCalls(entries));
    assert entries[0..] == entries;
    for i := 0 to |entries|
      invariant Perform(w.Snapshot(), w.indent, w.maxDepth, EntryCalls(entries[i..])) == whole
    {
      var e := entries[i];
      assert entries[i..][1..] == entries[i + 1..];
      PerformConcat(w.Snapshot(), w.indent, w.maxDepth, [WriteKey(e.key)] + Calls(e.value), EntryCalls(entries[i + 1..]));
      PerformConcat(w.Snapshot(), w.indent, w.maxDepth, [WriteKey(e.key)], Calls(e.value));
      PerformOne(w.Snapshot(), w.indent, w.maxDepth, WriteKey(e.key));
      var _ :- w.WriteKey(e.key);
      var _ :- Write(w, e.value);
    }
    return Ok(());
  }

  // Texts

  lemma PlainText(indent: nat, max: nat, t: Value)
    ensures Writable(t, AnyFloat()) && Depth(t) <= max ==>
              Run(Fresh([]), indent, max, Calls(t)).output == Printed(Plain(t), indent, 0)
  {
    hide Printed;
    if Writable(t, AnyFloat()) && Depth(t) <= max {
      NoHints(t);
      var d := EveryTextIsPrinted([], indent, max, t, Calls(t));
      assert [] + Printed(d, indent, 0) == Printed(d, indent, 0);
    }
  }

  method ToText(t: Value, indent: nat, max: nat) returns (r: Result<seq<Byte>, W.Refusal>)
    ensures r.Ok? <==> Depth(t) <= max && Writable(t, AnyFloat())
    ensures r.Ok? ==> r.value == Run(Fresh([]), indent, max, Calls(t)).output
    ensures r.Ok? ==> r.value == Printed(Plain(t), indent, 0)
  {
    var w := new W.Writer([], indent, max);
    WrittenExactlyWhen(indent, max, t);
    PlainText(indent, max, t);
    var _ :- Write(w, t);
    return Ok(w.output);
  }

  method FromText(text: Text, shape: Shape, max: nat, inRange: FloatText -> bool) returns (r: Result<Value, T.Fault>)
    ensures match PullAt(text, 0, 0, max, shape, inRange)
            case Err(fault) => r == Err(fault)
            case Ok((t, end)) =>
              match R.Finished(text, end)
              case Err(fault) => r == Err(fault)
              case Ok(_) => r == Ok(t)
  {
    var reader := new R.Reader(text, max, inRange);
    var t :- Pull(reader, shape);
    var _ :- reader.Finish();
    return Ok(t);
  }

  /** What is written, at any indentation, is read back unchanged under the same depth limit. */
  method WriteThenRead(t: Value, indent: nat, max: nat, inRange: FloatText -> bool) returns (back: Option<Value>)
    ensures Writable(t, inRange) && Depth(t) <= max && |Run(Fresh([]), indent, max, Calls(t)).output| < TWO_64 ==>
              back == Some(t)
  {
    var text := ToText(t, indent, max);
    if text.Err? || |text.value| >= TWO_64 {
      if Writable(t, inRange) {
        WritableWithAny(t, inRange);
      }
      return None;
    }
    var read := FromText(text.value, ShapeOf(t), max, inRange);
    if Writable(t, inRange) {
      NoHints(t);
      EveryLayoutReadsBack([], indent, max, t, Calls(t), inRange);
    }
    return if read.Ok? then Some(read.value) else None;
  }

  lemma {:induction false} WritableWithAny(t: Value, inRange: FloatText -> bool)
    requires Writable(t, inRange)
    ensures Writable(t, AnyFloat())
    decreases t, 1
  {
    match t
    case Leaf(_) =>
    case Array(items) => ItemsWritableWithAny(items, inRange);
    case Object(entries) => EntriesWritableWithAny(entries, inRange);
  }

  lemma {:induction false} ItemsWritableWithAny(items: seq<Value>, inRange: FloatText -> bool)
    requires ItemsWritable(items, inRange)
    ensures ItemsWritable(items, AnyFloat())
    decreases items, 0
  {
    if items != [] {
      WritableWithAny(items[0], inRange);
      ItemsWritableWithAny(items[1..], inRange);
    }
  }

  lemma {:induction false} EntriesWritableWithAny(entries: seq<Field>, inRange: FloatText -> bool)
    requires EntriesWritable(entries, inRange)
    ensures EntriesWritable(entries, AnyFloat())
    decreases entries, 0
  {
    if entries != [] {
      WritableWithAny(entries[0].value, inRange);
      EntriesWritableWithAny(entries[1..], inRange);
    }
  }
}
