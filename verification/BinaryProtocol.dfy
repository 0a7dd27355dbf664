/**
 Runs of writer calls. Whatever is called in whatever order, the bytes written are always those of the
 value built so far, and a completed writer holds exactly one encoded value.
 */
module BinaryProtocol {
  import opened Bytes
  import opened Serial
  import opened Building
  import opened BinaryFormat
  import W = BinaryWriter
  import opened BinaryTheorems

  type Calls64 = seq<Call<U64>>

  // The bytes of a value under construction

  function OpenBytes(o: Open<U64>): seq<Byte> {
    match o
    case OpenArray(declared, items) => [ARRAY_TAG] + Varint(declared) + EncodeItems(items)
    case OpenObject(declared, entries, key) =>
      [OBJECT_TAG] + Varint(declared) + EncodeEntries(entries)
      + (if key.Some? then EncodeText(key.value) else [])
  }

  function AllOpenBytes(open: seq<Open<U64>>): seq<Byte> {
    if open == [] then [] else AllOpenBytes(open[..|open| - 1]) + OpenBytes(open[|open| - 1])
  }

  function BuilderBytes(b: Builder<U64>): seq<Byte> {
    if b.root.Some? then Encode(b.root.value) else AllOpenBytes(b.open)
  }

  // How a writer's stack and a builder correspond

  /** `busy` tells that the container's next part is itself open, above it on the stack. */
  ghost predicate FrameMatches(f: W.Frame, o: Open<U64>, busy: bool) {
    match o
    case OpenArray(declared, items) =>
      !f.isObject && !f.awaiting && f.remaining + |items| + (if busy then 1 else 0) == declared
    case OpenObject(declared, entries, key) =>
      && f.isObject
      && f.remaining + |entries| + (if key.Some? then 1 else 0) == declared
      && (busy ==> key.Some?)
      && f.awaiting == (key.Some? && !busy)
  }

  ghost predicate FramesMatch(s: W.State, b: Builder<U64>, max: nat) {
    && |s.stack| == |b.open| <= max
    && s.started == (b.root.Some? || b.open != [])
    && (b.root.Some? ==> b.open == [] && Depth(b.root.value) <= max)
    && (forall i :: 0 <= i < |b.open| ==> FrameMatches(s.stack[i], b.open[i], i + 1 < |b.open|))
    && (forall i :: 0 <= i < |b.open| ==> i + 1 + b.open[i].PartsDepth() <= max)
  }

  ghost predicate Matches(s: W.State, b: Builder<U64>, prefix: seq<Byte>, max: nat) {
    FramesMatch(s, b, max) && s.output == prefix + BuilderBytes(b)
  }

  lemma AllOpenBytesAppend(open: seq<Open<U64>>, o: Open<U64>)
    ensures AllOpenBytes(open + [o]) == AllOpenBytes(open) + OpenBytes(o)
  {
    assert (open + [o])[..|open|] == open;
  }

  lemma WithBytes(o: Open<U64>, t: Value)
    requires o.Ready()
    ensures OpenBytes(o.With(t)) == OpenBytes(o) + Encode(t)
  {
    match o
    case OpenArray(declared, items) =>
      EncodeItemsAppend(items, t);
      ConcatAssociative([ARRAY_TAG] + Varint(declared), EncodeItems(items), Encode(t));
    case OpenObject(declared, entries, key) =>
      var e := Entry(key.value, t);
      EncodeEntriesAppend(entries, e);
      var head, body := [OBJECT_TAG] + Varint(declared), EncodeEntries(entries);
      ConcatAssociative(head, body, EncodeEntry(e));
      ConcatAssociative(head + body, EncodeText(key.value), Encode(t));
      assert OpenBytes(o.With(t)) == head + (body + EncodeEntry(e)) + [];
  }

  lemma EncodeItemsAppend(items: seq<Value>, t: Value)
    ensures EncodeItems(items + [t]) == EncodeItems(items) + Encode(t)
  {
    EncodeItemsConcat(items, [t]);
    assert [t][1..] == [];
    assert EncodeItems([t]) == Encode(t) + [];
  }

  lemma EncodeEntriesAppend(entries: seq<Field>, e: Field)
    ensures EncodeEntries(entries + [e]) == EncodeEntries(entries) + EncodeEntry(e)
  {
    EncodeEntriesConcat(entries, [e]);
    assert [e][1..] == [];
    assert EncodeEntries([e]) == EncodeEntry(e) + [];
  }

  lemma PlaceBytes(b: Builder<U64>, t: Value)
    requires b.Ready() && b.root.None?
    ensures BuilderBytes(b.Place(t)) == BuilderBytes(b) + Encode(t)
  {
    if b.open != [] {
      var outer, top := b.open[..|b.open| - 1], b.open[|b.open| - 1];
      WithBytes(top, t);
      AllOpenBytesAppend(outer, top.With(t));
      ConcatAssociative(AllOpenBytes(outer), OpenBytes(top), Encode(t));
    }
  }

  lemma WithDepth(o: Open<U64>, t: Value)
    requires o.Ready()
    ensures o.With(t).PartsDepth() == Max(o.PartsDepth(), Depth(t))
  {
    match o
    case OpenArray(_, items) => ItemsDepthAppend(items, t);
    case OpenObject(_, entries, key) => EntriesDepthAppend(entries, Entry(key.value, t));
  }

  lemma OpenedBytes(b: Builder<U64>, isObject: bool, size: U64)
    requires b.Ready() && b.root.None?
    ensures BuilderBytes(b.Take(if isObject then BeginObject(size) else BeginArray(size)))
         == BuilderBytes(b) + ([if isObject then OBJECT_TAG else ARRAY_TAG] + Varint(size))
  {
    var o: Open<U64> := if isObject then OpenObject(size, [], None) else OpenArray(size, []);
    AllOpenBytesAppend(b.open, o);
    FreshBytes(o);
  }

  lemma FreshBytes(o: Open<U64>)
    requires o.Count() == 0 && (o.OpenObject? ==> o.key.None?)
    ensures OpenBytes(o) == [if o.OpenObject? then OBJECT_TAG else ARRAY_TAG] + Varint(o.declared)
  {
    var head := [if o.OpenObject? then OBJECT_TAG else ARRAY_TAG] + Varint(o.declared);
    assert head + [] == head;
  }

  lemma KeyedBytes(b: Builder<U64>, key: Text)
    requires b.CanTake(WriteKey(key)) && b.root.None?
    ensures BuilderBytes(b.Take(WriteKey(key))) == BuilderBytes(b) + EncodeText(key)
  {
    var outer, top := b.open[..|b.open| - 1], b.open[|b.open| - 1];
    AllOpenBytesAppend(outer, top.(key := Some(key)));
    KeyedOpenBytes(top, key);
    ConcatAssociative(AllOpenBytes(outer), OpenBytes(top), EncodeText(key));
  }

  lemma KeyedOpenBytes(o: Open<U64>, key: Text)
    requires o.OpenObject? && o.key.None?
    ensures OpenBytes(o.(key := Some(key))) == OpenBytes(o) + EncodeText(key)
  {
    var body := [OBJECT_TAG] + Varint(o.declared) + EncodeEntries(o.entries);
    assert body + [] == body;
  }

  /** Ending a container that holds what it declared writes nothing: its bytes are all there. */
  lemma ClosedBytes(b: Builder<U64>, isObject: bool)
    requires b.CanTake(if isObject then EndObject else EndArray) && b.root.None?
    requires b.open[|b.open| - 1].Count() == b.open[|b.open| - 1].declared
    ensures BuilderBytes(b.Take(if isObject then EndObject else EndArray)) == BuilderBytes(b)
  {
    var outer, top := b.open[..|b.open| - 1], b.open[|b.open| - 1];
    assert Encode(top.Closed()) == OpenBytes(top);
    PlaceBytes(Builder(outer, b.root), top.Closed());
  }

  // One call

  /** The writer is at a point where a value may be written only when the builder is. */
  lemma ReadyWhenBegun(s: W.State, b: Builder<U64>, max: nat)
    requires FramesMatch(s, b, max)
    requires W.Begun(s).Ok?
    ensures b.Ready() && b.root.None?
    ensures b.open != [] ==> FrameMatches(s.stack[|b.open| - 1], b.open[|b.open| - 1], false)
  {
    if b.open != [] {
      assert FrameMatches(s.stack[|b.open| - 1], b.open[|b.open| - 1], false);
    }
  }

  lemma FramesMatchPlaced(s: W.State, b: Builder<U64>, max: nat, t: Value)
    requires FramesMatch(s, b, max)
    requires W.Begun(s).Ok? && |b.open| + Depth(t) <= max
    ensures b.Ready() && b.root.None?
    ensures FramesMatch(W.Begun(s).value, b.Place(t), max)
  {
    ReadyWhenBegun(s, b, max);
    if b.open != [] {
      WithDepth(b.open[|b.open| - 1], t);
    }
  }

  lemma FramesMatchOpened(s: W.State, b: Builder<U64>, max: nat, isObject: bool, size: U64)
    requires FramesMatch(s, b, max)
    requires W.Opened(s, max, if isObject then OBJECT_TAG else ARRAY_TAG, size).Ok?
    ensures b.Ready() && b.root.None?
    ensures FramesMatch(W.Opened(s, max, if isObject then OBJECT_TAG else ARRAY_TAG, size).value,
                        b.Take(if isObject then BeginObject(size) else BeginArray(size)), max)
  {
    ReadyWhenBegun(s, b, max);
  }

  lemma FramesMatchKeyed(s: W.State, b: Builder<U64>, max: nat, key: Text)
    requires FramesMatch(s, b, max)
    requires W.Keyed(s, key).Ok?
    ensures b.CanTake(WriteKey(key)) && b.root.None?
    ensures FramesMatch(W.Keyed(s, key).value, b.Take(WriteKey(key)), max)
  {
    assert FrameMatches(s.stack[|b.open| - 1], b.open[|b.open| - 1], false);
  }

  /** The container on top may be ended: it is complete, and its place in the one below was kept for it. */
  lemma CanEnd(s: W.State, b: Builder<U64>, max: nat, isObject: bool)
    requires FramesMatch(s, b, max)
    requires W.Closed(s, isObject).Ok?
    ensures b.root.None? && b.CanTake(if isObject then EndObject else EndArray)
    ensures b.open[|b.open| - 1].Count() == b.open[|b.open| - 1].declared
    ensures |b.open| > 1 ==> FrameMatches(s.stack[|b.open| - 2], b.open[|b.open| - 2], true)
  {
    var n := |b.open| - 1;
    assert FrameMatches(s.stack[n], b.open[n], false);
    if n > 0 {
      assert FrameMatches(s.stack[n - 1], b.open[n - 1], true);
    }
  }

  lemma FramesMatchClosed(s: W.State, b: Builder<U64>, max: nat, isObject: bool)
    requires FramesMatch(s, b, max)
    requires W.Closed(s, isObject).Ok?
    ensures b.root.None? && b.CanTake(if isObject then EndObject else EndArray)
    ensures FramesMatch(W.Closed(s, isObject).value, b.Take(if isObject then EndObject else EndArray), max)
  {
    CanEnd(s, b, max, isObject);
    var n := |b.open| - 1;
    var t := b.open[n].Closed();
    assert Depth(t) == 1 + b.open[n].PartsDepth();
    if n > 0 {
      WithDepth(b.open[n - 1], t);
    }
  }

  /** What one call keeps: the builder takes it too, records it, and still corresponds to the writer. */
  ghost predicate Keeps(s: W.State, b: Builder<U64>, prefix: seq<Byte>, max: nat, call: Call<U64>) {
    && b.CanTake(call)
    && W.Step(s, max, call).Ok?
    && Matches(W.Step(s, max, call).value, b.Take(call), prefix, max)
    && (!call.PreferInline? ==> BuilderCalls(b.Take(call)) == BuilderCalls(b) + [call])
  }

  lemma MatchesStep(s: W.State, b: Builder<U64>, prefix: seq<Byte>, max: nat, call: Call<U64>)
    requires Matches(s, b, prefix, max)
    requires W.Step(s, max, call).Ok?
    ensures Keeps(s, b, prefix, max, call)
  {
    match call
    case WriteLeaf(leaf) => KeepsLeaf(s, b, prefix, max, leaf);
    case BeginArray(size) => KeepsBegin(s, b, prefix, max, call);
    case BeginObject(size) => KeepsBegin(s, b, prefix, max, call);
    case WriteKey(key) => KeepsKey(s, b, prefix, max, key);
    case EndArray => KeepsEnd(s, b, prefix, max, false);
    case EndObject => KeepsEnd(s, b, prefix, max, true);
    case PreferInline =>
  }

  lemma KeepsLeaf(s: W.State, b: Builder<U64>, prefix: seq<Byte>, max: nat, leaf: Leaf<U64>)
    requires Matches(s, b, prefix, max)
    requires W.Begun(s).Ok?
    ensures Keeps(s, b, prefix, max, WriteLeaf(leaf))
  {
    FramesMatchPlaced(s, b, max, Leaf(leaf));
    PlaceBytes(b, Leaf(leaf));
    ConcatAssociative(prefix, BuilderBytes(b), EncodeLeaf(leaf));
    TakeCalls(b, WriteLeaf(leaf));
  }

  lemma KeepsBegin(s: W.State, b: Builder<U64>, prefix: seq<Byte>, max: nat, call: Call<U64>)
    requires Matches(s, b, prefix, max)
    requires (call.BeginArray? || call.BeginObject?) && W.Step(s, max, call).Ok?
    ensures Keeps(s, b, prefix, max, call)
  {
    FramesMatchBegin(s, b, max, call);
    assert BuilderCalls(b.Take(call)) == BuilderCalls(b) + [call] by {
      TakeCalls(b, call);
    }
    assert W.Step(s, max, call).value.output == prefix + BuilderBytes(b.Take(call)) by {
      BeginBytes(s, b, prefix, max, call);
    }
  }

  lemma FramesMatchBegin(s: W.State, b: Builder<U64>, max: nat, call: Call<U64>)
    requires FramesMatch(s, b, max)
    requires (call.BeginArray? || call.BeginObject?) && W.Step(s, max, call).Ok?
    ensures b.Ready() && b.root.None?
    ensures FramesMatch(W.Step(s, max, call).value, b.Take(call), max)
  {
    FramesMatchOpened(s, b, max, call.BeginObject?, call.size);
  }

  function Head(call: Call<U64>): seq<Byte>
    requires call.BeginArray? || call.BeginObject?
  {
    [if call.BeginObject? then OBJECT_TAG else ARRAY_TAG] + Varint(call.size)
  }

  lemma BeginBytes(s: W.State, b: Builder<U64>, prefix: seq<Byte>, max: nat, call: Call<U64>)
    requires (call.BeginArray? || call.BeginObject?) && W.Step(s, max, call).Ok?
    requires b.Ready() && b.root.None? && s.output == prefix + BuilderBytes(b)
    ensures W.Step(s, max, call).value.output == prefix + BuilderBytes(b.Take(call))
  {
    assert W.Step(s, max, call).value.output == s.output + Head(call);
    assert BuilderBytes(b.Take(call)) == BuilderBytes(b) + Head(call) by {
      OpenedBytes(b, call.BeginObject?, call.size);
    }
    ConcatAssociative(prefix, BuilderBytes(b), Head(call));
  }

  lemma KeepsKey(s: W.State, b: Builder<U64>, prefix: seq<Byte>, max: nat, key: Text)
    requires Matches(s, b, prefix, max)
    requires W.Keyed(s, key).Ok?
    ensures Keeps(s, b, prefix, max, WriteKey(key))
  {
    FramesMatchKeyed(s, b, max, key);
    KeyedBytes(b, key);
    ConcatAssociative(prefix, BuilderBytes(b), EncodeText(key));
    TakeCalls(b, WriteKey(key));
  }

  lemma KeepsEnd(s: W.State, b: Builder<U64>, prefix: seq<Byte>, max: nat, isObject: bool)
    requires Matches(s, b, prefix, max)
    requires W.Closed(s, isObject).Ok?
    ensures Keeps(s, b, prefix, max, if isObject then EndObject else EndArray)
  {
    CanEnd(s, b, max, isObject);
    FramesMatchClosed(s, b, max, isObject);
    ClosedBytes(b, isObject);
    TakeCalls(b, if isObject then EndObject else EndArray);
  }

  // Whole runs

  /** Every call in turn; a refused call is the caller's to notice, and the next one follows it. */
  function Run(s: W.State, max: nat, calls: Calls64): W.State
    decreases |calls|
  {
    if calls == [] then s
    else
      var before := Run(s, max, calls[..|calls| - 1]);
      match W.Step(before, max, calls[|calls| - 1])
      case Ok(after) => after
      case Err(_) => before
  }

  /** The calls of a run that were carried out, but for the layout hints. */
  function Accepted(s: W.State, max: nat, calls: Calls64): Calls64
    decreases |calls|
  {
    if calls == [] then []
    else
      var earlier := calls[..|calls| - 1];
      var last := calls[|calls| - 1];
      Accepted(s, max, earlier)
      + (if W.Step(Run(s, max, earlier), max, last).Ok? && !last.PreferInline? then [last] else [])
  }

  /** The builder that corresponds to the writer after a run. */
  lemma {:induction false} RunMatches(prefix: seq<Byte>, max: nat, calls: Calls64) returns (b: Builder<U64>)
    ensures Matches(Run(W.State(prefix, [], false), max, calls), b, prefix, max)
    ensures BuilderCalls(b) == Accepted(W.State(prefix, [], false), max, calls)
    decreases |calls|
  {
    var start := W.State(prefix, [], false);
    if calls == [] {
      b := Builder([], None);
    } else {
      var earlier, last := calls[..|calls| - 1], calls[|calls| - 1];
      b := RunMatches(prefix, max, earlier);
      var before := Run(start, max, earlier);
      if W.Step(before, max, last).Ok? {
        MatchesStep(before, b, prefix, max, last);
        b := b.Take(last);
      }
    }
  }

  /**
   After any calls whatever on a fresh writer: if it is complete, then the calls it carried out are
   those that write some one value within the depth limit, and it appended exactly that value.
   */
  lemma CompleteRunWroteOneValue(prefix: seq<Byte>, max: nat, calls: Calls64) returns (t: Value)
    requires W.Complete(Run(W.State(prefix, [], false), max, calls))
    ensures Depth(t) <= max
    ensures Accepted(W.State(prefix, [], false), max, calls) == Calls(t)
    ensures Run(W.State(prefix, [], false), max, calls).output == prefix + Encode(t)
    ensures Document(Encode(t), max, t)
  {
    var b := RunMatches(prefix, max, calls);
    t := b.root.value;
    RoundTrip(t, max);
  }
}
