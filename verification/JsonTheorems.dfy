/** What the JSON codec promises: any layout reads back, reading then writing, and skipping. */
module JsonTheorems {
  import opened Bytes
  import opened Serial
  import opened Building
  import opened JsonNumber
  import opened JsonText
  import opened JsonGrammar
  import W = JsonWriter
  import opened JsonLayout
  import opened JsonProtocol
  import opened JsonRuns

  // Every layout of every value

  /** Where the builder may take a call, the writer carries it out. */
  lemma CarriedOut(s: W.State, b: Builder<FloatText>, indent: nat, max: nat, call: Call<FloatText>,
                   inRange: FloatText -> bool)
    requires FramesMatch(s, b, max) && b.CanTake(call) && Clean(call, inRange)
    requires Begins(call) ==> |b.open| < max
    requires !call.PreferInline? ==> b.root.None?
    ensures W.Step(s, indent, max, call).refusal.None?
  {
    if b.open != [] {
      assert FrameMatches(s.stack[|b.open| - 1], b.open[|b.open| - 1], false);
    }
  }

  predicate AllCarriedOut(prefix: seq<Byte>, indent: nat, max: nat, calls: JsonCalls) {
    forall i {:trigger calls[..i]} :: 0 <= i < |calls| ==>
      W.Step(Run(Fresh(prefix), indent, max, calls[..i]), indent, max, calls[i]).refusal.None?
  }

  lemma RootStaysLast(b: Builder<FloatText>, call: Call<FloatText>)
    requires (b.root.Some? ==> b.open == []) && b.CanTake(call)
    ensures b.Take(call).root.Some? ==> b.Take(call).open == []
    ensures !call.PreferInline? ==> b.root.None?
  {
  }

  /** Calls that build something are all carried out, and the writer follows the builder. */
  lemma {:induction false} RunFollows(prefix: seq<Byte>, indent: nat, max: nat, calls: JsonCalls,
                                      inRange: FloatText -> bool) returns (b: Builder<FloatText>)
    requires AllClean(calls, inRange)
    requires TakeWithin(Builder([], None), calls, max).Some?
    ensures TakeWithin(Builder([], None), calls, max) == Some(b) && (b.root.Some? ==> b.open == [])
    ensures Matches(Run(Fresh(prefix), indent, max, calls), b, |prefix|, max, inRange)
    ensures AllCarriedOut(prefix, indent, max, calls)
    decreases |calls|
  {
    hide Matches, Clean, W.Step, FramesMatch;
    if calls == [] {
      b := Builder([], None);
      FreshMatches(prefix, max, inRange);
    } else {
      var earlier, last := calls[..|calls| - 1], calls[|calls| - 1];
      assert AllClean(earlier, inRange) && Clean(last, inRange);
      assert earlier + [last] == calls;
      TakeWithinConcat(Builder([], None), earlier, [last], max);
      b := RunFollows(prefix, indent, max, earlier, inRange);
      TakeWithinOne(b, last, max);
      LastCarriedOut(prefix, indent, max, earlier, last, b, inRange);
      forall i {:trigger calls[..i]} | 0 <= i < |calls|
        ensures W.Step(Run(Fresh(prefix), indent, max, calls[..i]), indent, max, calls[i]).refusal.None?
      {
        if i < |earlier| {
          assert earlier[..i] == calls[..i];
        }
      }
      b := b.Take(last);
    }
  }

  lemma LastCarriedOut(prefix: seq<Byte>, indent: nat, max: nat, earlier: JsonCalls, last: Call<FloatText>,
                       b: Builder<FloatText>, inRange: FloatText -> bool)
    requires Matches(Run(Fresh(prefix), indent, max, earlier), b, |prefix|, max, inRange)
    requires b.CanTake(last) && Clean(last, inRange) && (Begins(last) ==> |b.open| < max)
    requires b.root.Some? ==> b.open == []
    ensures var s := Run(Fresh(prefix), indent, max, earlier);
            && W.Step(s, indent, max, last).refusal.None?
            && Matches(W.Step(s, indent, max, last).state, b.Take(last), |prefix|, max, inRange)
    ensures b.Take(last).root.Some? ==> b.Take(last).open == []
  {
    hide LaidThrough, W.Step, BuilderTokens, AllWritable, FramesMatch;
    var s := Run(Fresh(prefix), indent, max, earlier);
    RootStaysLast(b, last);
    CarriedOut(s, b, indent, max, last, inRange);
    MatchesStep(s, b, |prefix|, indent, max, last, inRange);
  }

  lemma {:induction false} WritableCalls(t: Value, inRange: FloatText -> bool)
    requires Writable(t, inRange)
    ensures AllClean(Calls(t), inRange)
    decreases t, 1
  {
    match t
    case Leaf(_) =>
    case Array(items) => WritableItemCalls(items, inRange);
    case Object(entries) => WritableEntryCalls(entries, inRange);
  }

  lemma {:induction false} WritableItemCalls(items: seq<Value>, inRange: FloatText -> bool)
    requires ItemsWritable(items, inRange)
    ensures AllClean(ItemCalls(items), inRange)
    decreases items, 0
  {
    if items != [] {
      WritableCalls(items[0], inRange);
      WritableItemCalls(items[1..], inRange);
    }
  }

  lemma {:induction false} WritableEntryCalls(entries: seq<Field>, inRange: FloatText -> bool)
    requires EntriesWritable(entries, inRange)
    ensures AllClean(EntryCalls(entries), inRange)
    decreases entries, 0
  {
    if entries != [] {
      WritableCalls(entries[0].value, inRange);
      WritableEntryCalls(entries[1..], inRange);
    }
  }

  lemma {:induction false} HintsAreClean(calls: JsonCalls, inRange: FloatText -> bool)
    requires AllClean(WithoutHints(calls), inRange)
    ensures AllClean(calls, inRange)
    decreases |calls|
  {
    if calls != [] {
      var rest := WithoutHints(calls[1..]);
      var all := WithoutHints(calls);
      assert forall i :: 0 <= i < |rest| ==> rest[i] == all[i + (|all| - |rest|)];
      HintsAreClean(calls[1..], inRange);
      if !calls[0].PreferInline? {
        assert all[0] == calls[0];
      }
      forall i | 0 <= i < |calls|
        ensures Clean(calls[i], inRange)
      {
        if i > 0 {
          assert calls[i] == calls[1..][i - 1];
        }
      }
    }
  }

  /**
   Every writable value within the depth limit, at every indentation and with inline hints put anywhere
   between the calls that write it: no call is refused, the writer is complete at the end, and its text
   is read back as the same value.
   */
  lemma EveryLayoutReadsBack(prefix: seq<Byte>, indent: nat, max: nat, t: Value, calls: JsonCalls,
                             inRange: FloatText -> bool)
    requires Writable(t, inRange) && Depth(t) <= max
    requires WithoutHints(calls) == Calls(t)
    ensures AllCarriedOut(prefix, indent, max, calls)
    ensures W.Complete(Run(Fresh(prefix), indent, max, calls))
    ensures LaidThrough(Run(Fresh(prefix), indent, max, calls).output, |prefix|, Tokens(t))
    ensures |Run(Fresh(prefix), indent, max, calls).output| < TWO_64 ==>
              ReadsAs(Run(Fresh(prefix), indent, max, calls).output, |prefix|, max, t, inRange)
  {
    hide AllCarriedOut, LaidThrough;
    var empty: Builder<FloatText> := Builder([], None);
    TakeWithinTree(empty, t, max);
    HintsBuildNothing(empty, calls, max);
    WritableCalls(t, inRange);
    HintsAreClean(calls, inRange);
    var b := RunFollows(prefix, indent, max, calls, inRange);
    var output := Run(Fresh(prefix), indent, max, calls).output;
    if |output| < TWO_64 {
      LaidReadsAs(output, |prefix|, max, t, inRange);
    }
  }

  // What was read can be written

  lemma PulledLeafIsWritable(input: Text, pos: nat, kind: Kind, inRange: FloatText -> bool)
    requires PullLeaf(input, pos, kind, inRange).Ok?
    ensures Writable(Leaf(PullLeaf(input, pos, kind, inRange).value.0), inRange)
    ensures KindOf(PullLeaf(input, pos, kind, inRange).value.0) == kind
  {
    hide NumberAt, StrAt, BlobAt;
  }

  /** Whatever is read is valid UTF-8, in range, and within the depth limit. */
  lemma {:induction false} PulledIsWritable(input: Text, pos: nat, depth: nat, max: nat, shape: Shape,
                                            inRange: FloatText -> bool)
    requires PullAt(input, pos, depth, max, shape, inRange).Ok?
    ensures var t := PullAt(input, pos, depth, max, shape, inRange).value.0;
            Writable(t, inRange) && (depth <= max ==> depth + Depth(t) <= max)
    decreases shape, 0
  {
    hide PullLeaf, EnterAt;
    match shape
    case LeafShape(kind) => PulledLeafIsWritable(input, pos, kind, inRange);
    case ArrayShape(shapes) =>
      EnteredBelowLimit(input, pos, OPEN_BRACKET, depth, max);
      PulledItemsAreWritable(input, EnterAt(input, pos, OPEN_BRACKET, depth, max).value, depth + 1, max, true,
                             shapes, 0, inRange);
    case ObjectShape(shapes) =>
      EnteredBelowLimit(input, pos, OPEN_BRACE, depth, max);
      PulledEntriesAreWritable(input, EnterAt(input, pos, OPEN_BRACE, depth, max).value, depth + 1, max, true,
                               shapes, 0, inRange);
  }

  lemma EnteredBelowLimit(input: seq<Byte>, pos: nat, opening: Byte, depth: nat, max: nat)
    requires opening != 0 && EnterAt(input, pos, opening, depth, max).Ok?
    ensures depth < max
  {
  }

  lemma {:induction false} PulledItemsAreWritable(input: Text, pos: nat, depth: nat, max: nat, first: bool,
                                                  shapes: seq<Shape>, k: nat, inRange: FloatText -> bool)
    requires k <= |shapes| && depth <= max
    requires PullItems(input, pos, depth, max, first, shapes, k, inRange).Ok?
    ensures var items := PullItems(input, pos, depth, max, first, shapes, k, inRange).value.0;
            ItemsWritable(items, inRange) && depth + ItemsDepth(items) <= max
    decreases shapes, |shapes| - k
  {
    hide PullAt;
    hide Advance, EndAt;
    var (more, start) := Advance(input, pos, first, CLOSE_BRACKET).value;
    if more {
      PulledIsWritable(input, start, depth, max, shapes[k], inRange);
      var (item, next) := PullAt(input, start, depth, max, shapes[k], inRange).value;
      PulledItemsAreWritable(input, next, depth, max, false, shapes, k + 1, inRange);
      var rest := PullItems(input, next, depth, max, false, shapes, k + 1, inRange).value.0;
      assert ([item] + rest)[1..] == rest;
    }
  }

  lemma {:induction false} PulledEntriesAreWritable(input: Text, pos: nat, depth: nat, max: nat, first: bool,
                                                    shapes: seq<Shape>, k: nat, inRange: FloatText -> bool)
    requires k <= |shapes| && depth <= max
    requires PullEntries(input, pos, depth, max, first, shapes, k, inRange).Ok?
    ensures var entries := PullEntries(input, pos, depth, max, first, shapes, k, inRange).value.0;
            EntriesWritable(entries, inRange) && depth + EntriesDepth(entries) <= max
    decreases shapes, |shapes| - k
  {
    hide KeyAt, EndAt;
    var (key, start) := KeyAt(input, pos, first).value;
    if key.Some? {
      PulledIsWritable(input, start, depth, max, shapes[k], inRange);
      var (value, next) := PullAt(input, start, depth, max, shapes[k], inRange).value;
      PulledEntriesAreWritable(input, next, depth, max, false, shapes, k + 1, inRange);
      var rest := PullEntries(input, next, depth, max, false, shapes, k + 1, inRange).value.0;
      assert ([Entry(key.value, value)] + rest)[1..] == rest;
    }
  }

  /**
   Reading then writing, in any layout, then reading again gives the value that was read: whatever the
   reader accepts, the writer can write within the same depth limit.
   */
  lemma ReadWriteRead(input: Text, max: nat, shape: Shape, indent: nat, calls: JsonCalls, inRange: FloatText -> bool)
    requires PullAt(input, 0, 0, max, shape, inRange).Ok?
    requires WithoutHints(calls) == Calls(PullAt(input, 0, 0, max, shape, inRange).value.0)
    ensures var output := Run(Fresh([]), indent, max, calls).output;
            && AllCarriedOut([], indent, max, calls)
            && W.Complete(Run(Fresh([]), indent, max, calls))
            && (|output| < TWO_64 ==>
                  ReadsAs(output, 0, max, PullAt(input, 0, 0, max, shape, inRange).value.0, inRange))
  {
    hide AllCarriedOut, ReadsAs;
    PulledIsWritable(input, 0, 0, max, shape, inRange);
    EveryLayoutReadsBack([], indent, max, PullAt(input, 0, 0, max, shape, inRange).value.0, calls, inRange);
  }

  // Skipping

  lemma SkipOfPulledLeaf(input: Text, pos: nat, depth: nat, max: nat, kind: Kind, inRange: FloatText -> bool)
    requires PullLeaf(input, pos, kind, inRange).Ok?
    ensures SkipAt(input, pos, depth, max) == Ok(PullLeaf(input, pos, kind, inRange).value.1)
  {
    hide ScanNumber, ParseString, SkipSpace, Number.Text;
    SkipTwice(input, pos);
    match kind
    case NullKind => LiteralStarts(input, SkipSpace(input, pos), NULL_TEXT);
    case BoolKind =>
    case StrKind =>
    case BlobKind =>
    case _ => NumberIsPeeked(input, SkipSpace(input, pos));
  }

  lemma LiteralStarts(input: seq<Byte>, pos: nat, literal: seq<Byte>)
    requires literal != [] && At(input, pos, literal)
    ensures Current(input, pos) == literal[0]
  {
    assert input[pos + 0] == literal[0];
  }

  lemma NumberIsPeeked(input: seq<Byte>, pos: nat)
    requires NumberAt(input, pos).Ok?
    ensures Current(input, pos) == MINUS || IsDigit(Current(input, pos))
    ensures PeekAt(input, pos) == Ok(if NumberAt(input, pos).value.0.IsInteger() then IntegerValue else FloatingValue)
  {
    hide ScanFraction, ScanExponent;
  }

  /** Whatever types a consumer asks for, a read that succeeds ends where skipping the value ends. */
  lemma {:induction false} SkipOfPull(input: Text, pos: nat, depth: nat, max: nat, shape: Shape,
                                      inRange: FloatText -> bool)
    requires PullAt(input, pos, depth, max, shape, inRange).Ok?
    ensures SkipAt(input, pos, depth, max) == Ok(PullAt(input, pos, depth, max, shape, inRange).value.1)
    decreases shape, 0
  {
    hide PullLeaf, NumberAt, ParseString, SkipSpace, Advance, KeyAt, EndAt;
    match shape
    case LeafShape(kind) => SkipOfPulledLeaf(input, pos, depth, max, kind, inRange);
    case ArrayShape(shapes) =>
      var start := EnterAt(input, pos, OPEN_BRACKET, depth, max).value;
      SkipTwice(input, pos);
      SkipOfPulledItems(input, start, depth + 1, max, true, shapes, 0, inRange);
    case ObjectShape(shapes) =>
      var start := EnterAt(input, pos, OPEN_BRACE, depth, max).value;
      SkipTwice(input, pos);
      SkipOfPulledEntries(input, start, depth + 1, max, true, shapes, 0, inRange);
  }

  lemma {:induction false} SkipOfPulledItems(input: Text, pos: nat, depth: nat, max: nat, first: bool,
                                             shapes: seq<Shape>, k: nat, inRange: FloatText -> bool)
    requires k <= |shapes|
    requires PullItems(input, pos, depth, max, first, shapes, k, inRange).Ok?
    ensures SkipItems(input, pos, depth, max, first)
         == Ok(PullItems(input, pos, depth, max, first, shapes, k, inRange).value.1)
    decreases shapes, |shapes| - k
  {
    hide Advance, EndAt;
    var (more, start) := Advance(input, pos, first, CLOSE_BRACKET).value;
    if more {
      SkipOfPull(input, start, depth, max, shapes[k], inRange);
      var next := PullAt(input, start, depth, max, shapes[k], inRange).value.1;
      SkipOfPulledItems(input, next, depth, max, false, shapes, k + 1, inRange);
    }
  }

  lemma {:induction false} SkipOfPulledEntries(input: Text, pos: nat, depth: nat, max: nat, first: bool,
                                               shapes: seq<Shape>, k: nat, inRange: FloatText -> bool)
    requires k <= |shapes|
    requires PullEntries(input, pos, depth, max, first, shapes, k, inRange).Ok?
    ensures SkipEntries(input, pos, depth, max, first)
         == Ok(PullEntries(input, pos, depth, max, first, shapes, k, inRange).value.1)
    decreases shapes, |shapes| - k
  {
    hide KeyAt, EndAt;
    var (key, start) := KeyAt(input, pos, first).value;
    if key.Some? {
      SkipOfPull(input, start, depth, max, shapes[k], inRange);
      var next := PullAt(input, start, depth, max, shapes[k], inRange).value.1;
      SkipOfPulledEntries(input, next, depth, max, false, shapes, k + 1, inRange);
    }
  }
}
