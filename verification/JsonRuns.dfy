/** Whole runs of JSON writer calls, and what their text is read back as. */
module JsonRuns {
  import opened Bytes
  import opened Serial
  import opened Building
  import opened JsonNumber
  import opened JsonGrammar
  import W = JsonWriter
  import opened JsonLayout
  import opened JsonProtocol
  import R = JsonReader
  import Utf8

  ghost predicate Matches(s: W.State, b: Builder<FloatText>, pos: nat, max: nat, inRange: FloatText -> bool) {
    FramesMatch(s, b, max) && AllWritable(b, inRange) && LaidThrough(s.output, pos, BuilderTokens(b))
  }

  /** A call without the size it announces, which this format does not write. */
  function Unsized(call: Call<FloatText>): Call<FloatText> {
    match call
    case BeginArray(_) => BeginArray(0)
    case BeginObject(_) => BeginObject(0)
    case _ => call
  }

  function AllUnsized(calls: JsonCalls): (unsized: JsonCalls)
    ensures |unsized| == |calls|
    ensures forall i :: 0 <= i < |calls| ==> unsized[i] == Unsized(calls[i])
  {
    seq(|calls|, i requires 0 <= i < |calls| => Unsized(calls[i]))
  }

  lemma AllUnsizedConcat(a: JsonCalls, b: JsonCalls)
    ensures AllUnsized(a + b) == AllUnsized(a) + AllUnsized(b)
  {
  }

  /** A builder is the record of the calls it took, but for the sizes they announced. */
  lemma TakeCallsUnsized(b: Builder<FloatText>, call: Call<FloatText>)
    requires b.CanTake(call) && b.root.None? && !call.PreferInline?
    ensures AllUnsized(BuilderCalls(b.Take(call))) == AllUnsized(BuilderCalls(b)) + [Unsized(call)]
  {
    AllUnsizedConcat(BuilderCalls(b), [call]);
    match call
    case EndArray => CloseCallsUnsized(b, call);
    case EndObject => CloseCallsUnsized(b, call);
    case _ => TakeCalls(b, call);
  }

  lemma CloseCallsUnsized(b: Builder<FloatText>, call: Call<FloatText>)
    requires b.CanTake(call) && b.root.None? && (call.EndArray? || call.EndObject?)
    ensures AllUnsized(BuilderCalls(b.Take(call))) == AllUnsized(BuilderCalls(b)) + [call]
  {
    var outer, top := b.open[..|b.open| - 1], b.open[|b.open| - 1];
    PlaceCalls(Builder(outer, b.root), top.Closed());
    ClosedCallsUnsized(top, call);
    AllUnsizedConcat(AllOpenCalls(outer), Calls(top.Closed()));
    AllUnsizedConcat(AllOpenCalls(outer), OpenCalls(top));
    ConcatAssociative(AllUnsized(AllOpenCalls(outer)), AllUnsized(OpenCalls(top)), [call]);
  }

  lemma ClosedCallsUnsized(o: Open<FloatText>, call: Call<FloatText>)
    requires o.Count() < TWO_64 && (o.OpenObject? ==> o.key.None?)
    requires call == if o.OpenArray? then EndArray else EndObject
    ensures AllUnsized(Calls(o.Closed())) == AllUnsized(OpenCalls(o)) + [call]
  {
    var counted := if o.OpenArray? then OpenArray(|o.items|, o.items) else OpenObject(|o.entries|, o.entries, None);
    ClosedCalls(counted);
    AllUnsizedConcat(OpenCalls(counted), [call]);
    match o
    case OpenArray(_, items) =>
      AllUnsizedConcat([BeginArray(o.declared)], ItemCalls(items));
      AllUnsizedConcat([BeginArray(|items|)], ItemCalls(items));
    case OpenObject(_, entries, _) =>
      AllUnsizedConcat([BeginObject(o.declared)], EntryCalls(entries));
      AllUnsizedConcat([BeginObject(|entries|)], EntryCalls(entries));
      assert [BeginObject(o.declared)] + EntryCalls(entries) + [] == [BeginObject(o.declared)] + EntryCalls(entries);
      assert [BeginObject(|entries|)] + EntryCalls(entries) + [] == [BeginObject(|entries|)] + EntryCalls(entries);
  }

  // One call

  /** A call that is carried out: the builder takes it too, and still corresponds to the writer. */
  lemma MatchesStep(s: W.State, b: Builder<FloatText>, pos: nat, indent: nat, max: nat, call: Call<FloatText>,
                    inRange: FloatText -> bool)
    requires Matches(s, b, pos, max, inRange) && Clean(call, inRange)
    requires call.EndArray? || call.EndObject? ==> CountsFit(b)
    requires W.Step(s, indent, max, call).refusal.None?
    ensures b.CanTake(call) && (!call.PreferInline? ==> b.root.None?)
    ensures Matches(W.Step(s, indent, max, call).state, b.Take(call), pos, max, inRange)
  {
    match call
    case WriteLeaf(leaf) => MatchesLeaf(s, b, pos, indent, max, leaf, inRange);
    case BeginArray(size) => MatchesOpening(s, b, pos, indent, max, false, size, inRange);
    case BeginObject(size) => MatchesOpening(s, b, pos, indent, max, true, size, inRange);
    case WriteKey(key) => MatchesKey(s, b, pos, indent, max, key, inRange);
    case EndArray => MatchesClosing(s, b, pos, indent, max, false, inRange);
    case EndObject => MatchesClosing(s, b, pos, indent, max, true, inRange);
    case PreferInline =>
  }

  lemma MatchesLeaf(s: W.State, b: Builder<FloatText>, pos: nat, indent: nat, max: nat, leaf: Leaf<FloatText>,
                    inRange: FloatText -> bool)
    requires Matches(s, b, pos, max, inRange) && Clean(WriteLeaf(leaf), inRange)
    requires W.Written(s, indent, leaf).refusal.None?
    ensures b.Ready() && b.root.None?
    ensures Matches(W.Written(s, indent, leaf).state, b.Place(Leaf(leaf)), pos, max, inRange)
  {
    assert |b.open| <= max;
    hide LaidThrough, W.Begun, W.LeafText, FramesMatch, AllWritable, BuilderTokens;
    FramesMatchPlaced(s, b, indent, max, Leaf(leaf));
    TakenWritable(b, WriteLeaf(leaf), inRange);
    LaidLeaf(s, b, pos, indent, max, leaf);
    OutputIsNoFrame(W.Begun(s, indent).value, b.Place(Leaf(leaf)), max, W.Written(s, indent, leaf).state.output);
  }

  lemma OutputIsNoFrame(s: W.State, b: Builder<FloatText>, max: nat, output: seq<Byte>)
    requires FramesMatch(s, b, max)
    ensures FramesMatch(s.(output := output), b, max)
  {
  }

  lemma MatchesOpening(s: W.State, b: Builder<FloatText>, pos: nat, indent: nat, max: nat, isObject: bool, size: U64,
                       inRange: FloatText -> bool)
    requires Matches(s, b, pos, max, inRange) && W.Opened(s, indent, max, isObject).refusal.None?
    ensures b.Ready() && b.root.None?
    ensures Matches(W.Opened(s, indent, max, isObject).state,
                    b.Take(if isObject then BeginObject(size) else BeginArray(size)), pos, max, inRange)
  {
    hide LaidThrough, W.Opened, FramesMatch, AllWritable, BuilderTokens;
    FramesMatchOpened(s, b, indent, max, isObject, size);
    TakenWritable(b, if isObject then BeginObject(size) else BeginArray(size), inRange);
    LaidOpening(s, b, pos, indent, max, isObject, size);
  }

  lemma MatchesKey(s: W.State, b: Builder<FloatText>, pos: nat, indent: nat, max: nat, key: Text,
                   inRange: FloatText -> bool)
    requires Matches(s, b, pos, max, inRange) && Clean(WriteKey(key), inRange)
    requires W.Keyed(s, indent, key).refusal.None?
    ensures b.CanTake(WriteKey(key)) && b.root.None?
    ensures Matches(W.Keyed(s, indent, key).state, b.Take(WriteKey(key)), pos, max, inRange)
  {
    hide LaidThrough, AllWritable, BuilderTokens, W.Separator;
    FramesMatchKeyed(s, b, indent, max, key);
    TakenWritable(b, WriteKey(key), inRange);
    LaidKey(s, b, pos, indent, key);
  }

  lemma MatchesClosing(s: W.State, b: Builder<FloatText>, pos: nat, indent: nat, max: nat, isObject: bool,
                       inRange: FloatText -> bool)
    requires Matches(s, b, pos, max, inRange) && CountsFit(b)
    requires W.Closed(s, indent, isObject).refusal.None?
    ensures b.CanTake(if isObject then EndObject else EndArray) && b.root.None?
    ensures Matches(W.Closed(s, indent, isObject).state, b.Take(if isObject then EndObject else EndArray),
                    pos, max, inRange)
  {
    hide LaidThrough, W.Closed, FramesMatch, AllWritable, BuilderTokens;
    FramesMatchClosed(s, b, indent, max, isObject);
    TakenWritable(b, if isObject then EndObject else EndArray, inRange);
    LaidClosing(s, b, pos, indent, isObject);
  }

  /**
   The call carries bad text to a place where text may go, and there the writer has already written a
   separator or ticked off the value when it looks at the text. Only the first key of an object that is
   on one line has nothing written before it.
   */
  predicate Spoils(s: W.State, indent: nat, call: Call<FloatText>) {
    match call
    case WriteLeaf(Str(text)) => !Utf8.Valid(text) && W.Begun(s, indent).Ok?
    case WriteKey(key) =>
      && !Utf8.Valid(key) && s.stack != [] && W.Top(s.stack).isObject && !W.Top(s.stack).awaiting
      && (W.Top(s.stack).hasItems || (indent > 0 && !W.Top(s.stack).isInline))
    case _ => false
  }

  /** A refused call leaves output, stack and flags as they were, exactly when it does not spoil them. */
  lemma RefusalChangesNothingExactlyWhen(s: W.State, indent: nat, max: nat, call: Call<FloatText>)
    requires W.Step(s, indent, max, call).refusal.Some?
    ensures W.Step(s, indent, max, call).state == s <==> !Spoils(s, indent, call)
  {
    if call.WriteKey? {
      KeyRefusal(s, indent, call.key);
    } else if call.WriteLeaf? {
      LeafRefusal(s, indent, call.leaf);
    }
  }

  lemma KeyRefusal(s: W.State, indent: nat, key: Text)
    requires W.Keyed(s, indent, key).refusal.Some?
    ensures W.Keyed(s, indent, key).state == s <==> !Spoils(s, indent, WriteKey(key))
  {
    if W.Keyed(s, indent, key).refusal == Some(W.NotUtf8) {
      var gap := W.Separator(W.Top(s.stack), |s.stack|, indent);
      assert |s.output + gap| == |s.output| + |gap|;
      assert gap == [] ==> s.output + gap == s.output;
    }
  }

  lemma LeafRefusal(s: W.State, indent: nat, leaf: Leaf<FloatText>)
    requires W.Written(s, indent, leaf).refusal.Some?
    ensures W.Written(s, indent, leaf).state == s <==> !Spoils(s, indent, WriteLeaf(leaf))
  {
    if W.Written(s, indent, leaf).refusal == Some(W.NotUtf8) && s.stack != [] {
      var top := W.Top(s.stack);
      var after := W.Begun(s, indent).value;
      assert W.Top(after.stack) == if top.isObject then top.(awaiting := false) else top.(hasItems := true);
      var gap := W.Separator(top, |s.stack|, indent);
      assert |s.output + gap| == |s.output| + |gap|;
    }
  }

  // Runs

  /** Every call in turn; a refused call is the caller's to notice, and the next one follows it. */
  function Run(s: W.State, indent: nat, max: nat, calls: JsonCalls): W.State
    decreases |calls|
  {
    if calls == [] then s
    else W.Step(Run(s, indent, max, calls[..|calls| - 1]), indent, max, calls[|calls| - 1]).state
  }

  /** The calls of a run that were carried out, but for the layout hints. */
  function Accepted(s: W.State, indent: nat, max: nat, calls: JsonCalls): JsonCalls
    decreases |calls|
  {
    if calls == [] then []
    else
      var earlier, last := calls[..|calls| - 1], calls[|calls| - 1];
      var carriedOut := W.Step(Run(s, indent, max, earlier), indent, max, last).refusal.None?;
      Accepted(s, indent, max, earlier) + (if carriedOut && !last.PreferInline? then [last] else [])
  }

  function Fresh(prefix: seq<Byte>): W.State {
    W.State(prefix, [], false, false)
  }

  predicate AllClean(calls: JsonCalls, inRange: FloatText -> bool) {
    forall i :: 0 <= i < |calls| ==> Clean(calls[i], inRange)
  }

  lemma FreshMatches(prefix: seq<Byte>, max: nat, inRange: FloatText -> bool)
    ensures Matches(Fresh(prefix), Builder([], None), |prefix|, max, inRange)
  {
  }

  /** The text is one value, found by reading it with the types of `t`, and nothing but spaces after it. */
  ghost predicate ReadsAs(input: Text, pos: nat, max: nat, t: Value, inRange: FloatText -> bool) {
    && PullAt(input, pos, 0, max, ShapeOf(t), inRange).Ok?
    && PullAt(input, pos, 0, max, ShapeOf(t), inRange).value.0 == t
    && R.Finished(input, PullAt(input, pos, 0, max, ShapeOf(t), inRange).value.1) == Ok(())
  }

  lemma LaidReadsAs(input: Text, pos: nat, max: nat, t: Value, inRange: FloatText -> bool)
    requires LaidThrough(input, pos, Tokens(t)) && Writable(t, inRange) && Depth(t) <= max
    ensures ReadsAs(input, pos, max, t, inRange)
  {
    var end := LaidEnd(input, pos, Tokens(t)).value;
    SkipSpaces(input, end, |input|);
    PullOfLaid(input, pos, t, 0, max, inRange, end);
  }
}
