/** When the text of a complete writer can be read: exactly when no call of the run has ruined it. */
module JsonReadability {
  import opened Bytes
  import opened Serial
  import opened Building
  import opened JsonNumber
  import opened JsonText
  import opened JsonGrammar
  import W = JsonWriter
  import opened JsonLayout
  import opened JsonProtocol
  import opened JsonRuns
  import opened JsonTheorems
  import opened JsonUnfinished
  import opened JsonRuins

  // Texts that stay unreadable

  /** Whatever is written behind it, the text cannot be read. */
  ghost predicate IsDead(output: seq<Byte>, pos: nat) {
    forall more: seq<Byte> :: IsUnreadable(output + more, pos)
  }

  /** Whatever comma or closing bracket comes next, the text cannot be read. */
  ghost predicate IsBroken(output: seq<Byte>, pos: nat) {
    forall more: seq<Byte> :: EndsPart(more) ==> IsUnreadable(output + more, pos)
  }

  /**
   What a ruined run leaves: nothing at all where the only value should be; a text that is dead; or a text
   that is broken while the writer can only go on with a comma or a closing bracket.
   */
  ghost predicate IsLost(s: W.State, pos: nat) {
    || (s.stack == [] && s.started && SpacesFrom(s.output, pos))
    || IsDead(s.output, pos)
    || (s.stack != [] && W.Top(s.stack).hasItems && !W.Top(s.stack).awaiting && IsBroken(s.output, pos))
  }

  lemma SpacesAreUnreadable(input: seq<Byte>, pos: nat)
    requires SpacesFrom(input, pos)
    ensures IsUnreadable(input, pos)
  {
    if pos <= |input| {
      SkipSpaces(input, pos, |input|);
    }
  }

  /** A complete writer with a lost text. */
  lemma LostIsUnreadable(s: W.State, pos: nat)
    requires IsLost(s, pos) && W.Complete(s)
    ensures IsUnreadable(s.output, pos)
  {
    hide IsUnreadable;
    if IsDead(s.output, pos) {
      assert s.output + [] == s.output;
    } else {
      SpacesAreUnreadable(s.output, pos);
    }
  }

  // What was lost stays lost

  lemma SkipSpaceBefore(part: seq<Byte>, more: seq<Byte>)
    requires EndsPart(part)
    ensures EndsPart(part + more)
  {
    SkipSpaceExtend(part, more, 0);
  }

  lemma BrokenDies(output: seq<Byte>, pos: nat, part: seq<Byte>)
    requires IsBroken(output, pos) && EndsPart(part)
    ensures IsDead(output + part, pos)
  {
    hide IsUnreadable, EndsPart;
    forall more: seq<Byte>
      ensures IsUnreadable(output + part + more, pos)
    {
      SkipSpaceBefore(part, more);
      assert output + part + more == output + (part + more);
    }
  }

  lemma DeadStays(output: seq<Byte>, pos: nat, part: seq<Byte>)
    requires IsDead(output, pos)
    ensures IsDead(output + part, pos)
  {
    hide IsUnreadable;
    forall more: seq<Byte>
      ensures IsUnreadable(output + part + more, pos)
    {
      assert output + part + more == output + (part + more);
    }
  }

  lemma CommaEndsPart(rest: seq<Byte>)
    ensures EndsPart([COMMA] + rest)
  {
    assert ([COMMA] + rest)[0] == COMMA;
  }

  lemma ClosingEndsPart(gap: seq<Byte>, closing: Byte)
    requires AllSpaces(gap) && (closing == CLOSE_BRACKET || closing == CLOSE_BRACE)
    ensures EndsPart(gap + [closing])
  {
    SkipSpaces(gap + [closing], 0, |gap|);
  }

  /** Behind an item that is there, or was ticked off, a call writes nothing, or it starts with a comma or ends the container. */
  lemma AddedEndsPart(s: W.State, indent: nat, max: nat, call: Call<FloatText>)
    requires s.stack != [] && W.Top(s.stack).hasItems && !W.Top(s.stack).awaiting
    ensures var after := W.Step(s, indent, max, call).state;
            (after.output == s.output && after.stack == s.stack)
            || exists part :: EndsPart(part) && after.output == s.output + part
  {
    var top := W.Top(s.stack);
    if W.Step(s, indent, max, call).state.output != s.output {
      if call.EndArray? || call.EndObject? {
        ClosingAdded(s, indent, call.EndObject?);
      } else {
        CommaAdded(s, indent, max, call);
      }
    } else if W.Step(s, indent, max, call).state.stack != s.stack {
      assert false;
    }
  }

  lemma ClosingAdded(s: W.State, indent: nat, isObject: bool)
    requires W.Closed(s, indent, isObject).refusal.None?
    ensures exists part :: EndsPart(part) && W.Closed(s, indent, isObject).state.output == s.output + part
  {
    var top := W.Top(s.stack);
    var gap := if top.hasItems && !top.isInline then W.Newline(|s.stack| - 1, indent) else [];
    var closing := if isObject then CLOSE_BRACE else CLOSE_BRACKET;
    GapIsSpaces(top, |s.stack| - 1, indent);
    ClosingEndsPart(gap, closing);
    assert s.output + gap + [closing] == s.output + (gap + [closing]);
  }

  lemma CommaAdded(s: W.State, indent: nat, max: nat, call: Call<FloatText>)
    requires s.stack != [] && W.Top(s.stack).hasItems && !call.EndArray? && !call.EndObject?
    requires W.Step(s, indent, max, call).state.output != s.output
    requires W.Top(s.stack).isObject ==> !W.Top(s.stack).awaiting
    ensures exists part :: EndsPart(part) && W.Step(s, indent, max, call).state.output == s.output + part
  {
    hide W.LeafText, W.Gap, EndsPart, Quoted;
    var top := W.Top(s.stack);
    var gap, after := W.Gap(top, |s.stack|, indent), W.Step(s, indent, max, call).state.output;
    var separated := s.output + ([COMMA] + gap);
    assert after[..|separated|] == separated;
    var rest := after[|separated|..];
    assert after == separated + rest == s.output + ([COMMA] + (gap + rest));
    CommaEndsPart(gap + rest);
  }

  lemma LostStays(s: W.State, pos: nat, indent: nat, max: nat, call: Call<FloatText>)
    requires IsLost(s, pos)
    ensures IsLost(W.Step(s, indent, max, call).state, pos)
  {
    hide IsDead, IsBroken, W.Separator, W.LeafText, EndsPart;
    var after := W.Step(s, indent, max, call).state;
    if IsDead(s.output, pos) {
      var part := Added(s, indent, max, call);
      DeadStays(s.output, pos, part);
    } else if s.stack != [] {
      hide W.Step;
      AddedEndsPart(s, indent, max, call);
      if after.output != s.output || after.stack != s.stack {
        var part :| EndsPart(part) && after.output == s.output + part;
        BrokenDies(s.output, pos, part);
      }
    }
  }

  // What ruins, loses

  lemma ChainOf(s: W.State, b: Builder<FloatText>, pos: nat, max: nat)
    requires Corresponds(s, b, pos, max, AnyFloat()) && b.open != []
    ensures |s.stack| == |b.open| && b.root.None? && IsChain(b.open, max) && BuilderTokens(b) == AllOpenTokens(b.open)
    ensures FrameMatches(W.Top(Cured(s).stack), b.open[|b.open| - 1], false)
    ensures LaidThrough(s.output, pos, AllOpenTokens(b.open))
  {
    hide LaidThrough, LastVisible, AllOpenTokens;
    var cured := Cured(s);
    forall i | 0 <= i < |b.open| - 1
      ensures b.open[i].Ready()
    {
      assert FrameMatches(cured.stack[i], b.open[i], true);
    }
    assert FrameMatches(cured.stack[|b.open| - 1], b.open[|b.open| - 1], false);
  }

  /** In a text that goes on behind spaces, the next visible byte is that of the rest. */
  lemma NextVisible(output: seq<Byte>, more: seq<Byte>, end: nat)
    requires end <= |output| && SpacesFrom(output, end) && SkipSpace(more, 0) < |more|
    ensures SkipSpace(output + more, end) == |output| + SkipSpace(more, 0)
    ensures Current(output + more, SkipSpace(output + more, end)) == more[SkipSpace(more, 0)]
    ensures IsSpace(Current(output + more, end)) || Current(output + more, end) == more[SkipSpace(more, 0)]
  {
    var input, next := output + more, |output| + SkipSpace(more, 0);
    SpacesSkipped(more, 0);
    forall i | end <= i < next
      ensures IsSpace(input[i])
    {
      assert input[i] == if i < |output| then output[i] else more[i - |output|];
    }
    assert input[next] == more[SkipSpace(more, 0)];
    SkipSpaces(input, end, next);
  }

  lemma {:induction false} SpacesSkipped(input: seq<Byte>, pos: nat)
    requires pos <= |input|
    ensures forall i :: pos <= i < SkipSpace(input, pos) ==> IsSpace(input[i])
    decreases |input| - pos
  {
    if pos < |input| && IsSpace(input[pos]) {
      SpacesSkipped(input, pos + 1);
    }
  }

  /** The value of a key is missing. */
  lemma MissingValue(output: seq<Byte>, pos: nat, open: seq<Open<FloatText>>, max: nat)
    requires open != [] && IsChain(open, max) && open[|open| - 1].OpenObject? && open[|open| - 1].key.Some?
    requires LaidThrough(output, pos, AllOpenTokens(open))
    ensures IsBroken(output, pos)
  {
    hide SkipSpace, OpenWritable, AllOpenTokens, IsUnreadable, SkipAt, SkipItems, SkipEntries;
    var end, top := LaidEnd(output, pos, AllOpenTokens(open)).value, open[|open| - 1];
    forall more: seq<Byte> | EndsPart(more)
      ensures IsUnreadable(output + more, pos)
    {
      var input := output + more;
      LaidExtend(output, more, pos, AllOpenTokens(open));
      NextVisible(output, more, end);
      if |input| < TWO_64 {
        forall limit: nat
          ensures !GoesOn(input, end, top, |open|, limit)
        {
          NoValueAt(input, end, |open|, limit);
        }
      }
      CutOff(input, pos, open, top, |open|, max, end);
    }
  }

  /** A comma behind a part, and no part behind the comma. */
  lemma MissingPart(output: seq<Byte>, pos: nat, open: seq<Open<FloatText>>, max: nat, gap: seq<Byte>)
    requires open != [] && IsChain(open, max) && AllSpaces(gap) && HasParts(open[|open| - 1])
    requires LaidThrough(output, pos, AllOpenTokens(open))
    ensures IsBroken(output + [COMMA] + gap, pos)
  {
    hide LaidThrough, IsChain, HasParts, IsUnreadable, EndsPart, AllSpaces;
    forall more: seq<Byte> | EndsPart(more)
      ensures IsUnreadable(output + [COMMA] + gap + more, pos)
    {
      MissingPartBefore(output, pos, open, max, gap, more);
    }
  }

  predicate HasParts(top: Open<FloatText>) {
    match top
    case OpenArray(_, items) => items != []
    case OpenObject(_, entries, key) => entries != [] && key.None?
  }

  lemma NoneGoesOn(input: Text, end: nat, top: Open<FloatText>, depth: nat, limit: nat)
    requires HasParts(top) && Current(input, SkipSpace(input, end)) == COMMA
    requires IsPunctuation(Current(input, SkipSpace(input, SkipSpace(input, end) + 1)))
    ensures !GoesOn(input, end, top, depth, limit)
  {
    hide SkipSpace, SkipAt, SkipItems, SkipEntries;
    NoItemAfterComma(input, end, depth, limit);
  }

  lemma MissingPartBefore(output: seq<Byte>, pos: nat, open: seq<Open<FloatText>>, max: nat, gap: seq<Byte>,
                          more: seq<Byte>)
    requires open != [] && IsChain(open, max) && AllSpaces(gap) && HasParts(open[|open| - 1]) && EndsPart(more)
    requires LaidThrough(output, pos, AllOpenTokens(open))
    ensures IsUnreadable(output + [COMMA] + gap + more, pos)
  {
    hide SkipSpace, AllOpenTokens, IsUnreadable, IsChain, GoesOn, HasParts, EndsPart, AllSpaces, IsPunctuation;
    var end, top := LaidEnd(output, pos, AllOpenTokens(open)).value, open[|open| - 1];
    var input, part := output + [COMMA] + gap + more, [COMMA] + gap + more;
    assert input == output + part;
    LaidExtend(output, part, pos, AllOpenTokens(open));
    CommaThenMore(output, gap, more, end);
    if |input| < TWO_64 {
      forall limit: nat
        ensures !GoesOn(input, end, top, |open|, limit)
      {
        NoneGoesOn(input, end, top, |open|, limit);
      }
    }
    CutOff(input, pos, open, top, |open|, max, end);
  }

  lemma CommaThenMore(output: seq<Byte>, gap: seq<Byte>, more: seq<Byte>, end: nat)
    requires end <= |output| && SpacesFrom(output, end) && AllSpaces(gap) && EndsPart(more)
    ensures var input := output + [COMMA] + gap + more;
            && SkipSpace(input, end) == |output| && Current(input, |output|) == COMMA
            && EndsNumber(Current(input, end))
            && IsPunctuation(Current(input, SkipSpace(input, |output| + 1)))
  {
    var input, part := output + [COMMA] + gap + more, [COMMA] + gap + more;
    assert input == output + part && part[0] == COMMA;
    assert SkipSpace(part, 0) == 0;
    NextVisible(output, part, end);
    assert input == output + [COMMA] + gap + more;
    NextVisible(output + [COMMA] + gap, more, |output| + 1);
  }

  /** A comma where the first item should be. */
  lemma MissingFirst(output: seq<Byte>, pos: nat, open: seq<Open<FloatText>>, max: nat, rest: seq<Byte>)
    requires open != [] && IsChain(open, max) && open[|open| - 1].OpenArray? && open[|open| - 1].items == []
    requires LaidThrough(output, pos, AllOpenTokens(open))
    ensures IsDead(output + ([COMMA] + rest), pos)
  {
    hide SkipSpace, OpenWritable, AllOpenTokens, IsUnreadable, SkipAt, SkipItems, SkipEntries;
    var end, top := LaidEnd(output, pos, AllOpenTokens(open)).value, open[|open| - 1];
    forall more: seq<Byte>
      ensures IsUnreadable(output + ([COMMA] + rest) + more, pos)
    {
      var input, part := output + ([COMMA] + rest) + more, [COMMA] + rest + more;
      assert input == output + part;
      LaidExtend(output, part, pos, AllOpenTokens(open));
      CommaFirst(output, part, end);
      if |input| < TWO_64 {
        forall limit: nat
          ensures !GoesOn(input, end, top, |open|, limit)
        {
          NoFirstItem(input, end, |open|, limit);
        }
      }
      CutOff(input, pos, open, top, |open|, max, end);
    }
  }

  lemma CommaFirst(output: seq<Byte>, part: seq<Byte>, end: nat)
    requires end <= |output| && SpacesFrom(output, end) && part != [] && part[0] == COMMA
    ensures Current(output + part, SkipSpace(output + part, end)) == COMMA && EndsNumber(Current(output + part, end))
  {
    assert SkipSpace(part, 0) == 0;
    NextVisible(output, part, end);
  }

  /** A call that ruins a text that was sound so far leaves it lost. */
  lemma RuinLoses(s: W.State, b: Builder<FloatText>, pos: nat, indent: nat, max: nat, call: Call<FloatText>)
    requires Corresponds(s, b, pos, max, AnyFloat()) && Ruins(s, indent, max, call)
    ensures IsLost(W.Step(s, indent, max, call).state, pos)
  {
    hide Corresponds, Ruins, IsLost, IsHollow, W.Step;
    if s.stack == [] {
      RootRefused(s, b, pos, indent, max, call);
    } else if IsHollow(s) {
      HollowRuined(s, b, pos, indent, max, call);
    } else if W.Top(s.stack).isObject && call.WriteLeaf? {
      ValueRefused(s, b, pos, indent, max, call);
    } else {
      PartRefused(s, b, pos, indent, max, call);
    }
  }

  /** A bad text under a key. */
  lemma ValueRefused(s: W.State, b: Builder<FloatText>, pos: nat, indent: nat, max: nat, call: Call<FloatText>)
    requires Corresponds(s, b, pos, max, AnyFloat()) && Ruins(s, indent, max, call) && s.stack != [] && !IsHollow(s)
    requires W.Top(s.stack).isObject && call.WriteLeaf?
    ensures IsLost(W.Step(s, indent, max, call).state, pos)
  {
    hide IsDead, IsBroken, LaidThrough, AllOpenTokens, IsChain, LastVisible, Matches;
    assert |b.open| > 0 by {
      OpenAsStack(s, b, pos, max);
    }
    ChainOf(s, b, pos, max);
    MissingValue(s.output, pos, b.open, max);
  }

  /** A bad text behind another item, or a bad key behind another entry. */
  lemma PartRefused(s: W.State, b: Builder<FloatText>, pos: nat, indent: nat, max: nat, call: Call<FloatText>)
    requires Corresponds(s, b, pos, max, AnyFloat()) && Ruins(s, indent, max, call) && s.stack != [] && !IsHollow(s)
    requires W.Top(s.stack).isObject ==> !call.WriteLeaf?
    ensures IsLost(W.Step(s, indent, max, call).state, pos)
  {
    hide IsDead, IsBroken, LaidThrough, AllOpenTokens, IsChain, LastVisible, Matches, W.Gap;
    assert |b.open| > 0 by {
      OpenAsStack(s, b, pos, max);
    }
    ChainOf(s, b, pos, max);
    var gap := W.Gap(W.Top(s.stack), |s.stack|, indent);
    GapIsSpaces(W.Top(s.stack), |s.stack|, indent);
    MissingPart(s.output, pos, b.open, max, gap);
    assert s.output + ([COMMA] + gap) == s.output + [COMMA] + gap;
  }

  lemma OpenAsStack(s: W.State, b: Builder<FloatText>, pos: nat, max: nat)
    requires Corresponds(s, b, pos, max, AnyFloat())
    ensures |b.open| == |s.stack|
  {
    hide LaidThrough, LastVisible, AllWritable;
  }

  lemma RootRefused(s: W.State, b: Builder<FloatText>, pos: nat, indent: nat, max: nat, call: Call<FloatText>)
    requires Corresponds(s, b, pos, max, AnyFloat()) && Ruins(s, indent, max, call) && s.stack == []
    ensures IsLost(W.Step(s, indent, max, call).state, pos)
  {
    LaidNone(s.output, pos);
  }

  lemma HollowRuined(s: W.State, b: Builder<FloatText>, pos: nat, indent: nat, max: nat, call: Call<FloatText>)
    requires Corresponds(s, b, pos, max, AnyFloat()) && Ruins(s, indent, max, call) && IsHollow(s)
    ensures IsLost(W.Step(s, indent, max, call).state, pos)
  {
    hide IsDead, IsBroken, LaidThrough, AllOpenTokens, IsChain, LastVisible, W.LeafText, W.Gap;
    OpenAsStack(s, b, pos, max);
    ChainOf(s, b, pos, max);
    var output, gap := W.Step(s, indent, max, call).state.output, W.Gap(W.Top(s.stack), |s.stack|, indent);
    var separated := s.output + ([COMMA] + gap);
    assert output[..|separated|] == separated;
    var rest := output[|separated|..];
    assert output == separated + rest == s.output + ([COMMA] + (gap + rest));
    MissingFirst(s.output, pos, b.open, max, gap + rest);
  }

  // Runs

  lemma AnyIsInRange(calls: JsonCalls)
    ensures AllInRange(calls, AnyFloat())
  {
  }

  /** After a ruined run the text is lost, whatever was called since. */
  lemma {:induction false} RuinedIsLost(prefix: seq<Byte>, indent: nat, max: nat, calls: JsonCalls)
    requires IsRuined(Fresh(prefix), indent, max, calls) && |Run(Fresh(prefix), indent, max, calls).output| < TWO_64
    ensures IsLost(Run(Fresh(prefix), indent, max, calls), |prefix|)
    decreases |calls|
  {
    hide IsLost, W.Step, Ruins;
    var earlier, last := calls[..|calls| - 1], calls[|calls| - 1];
    var before := Run(Fresh(prefix), indent, max, earlier);
    var part := Added(before, indent, max, last);
    if IsRuined(Fresh(prefix), indent, max, earlier) {
      RuinedIsLost(prefix, indent, max, earlier);
      LostStays(before, |prefix|, indent, max, last);
    } else {
      AnyIsInRange(earlier);
      var b := RunMatches(prefix, indent, max, earlier, AnyFloat());
      RuinLoses(before, b, |prefix|, indent, max, last);
    }
  }

  /**
   After any calls whatever on a fresh writer, none of which ruins the text: if the writer is complete, the
   calls it carried out are those that write some one value within the depth limit, and what it appended is
   read back as exactly that value.
   */
  lemma CompleteRunWroteOneValue(prefix: seq<Byte>, indent: nat, max: nat, calls: JsonCalls, inRange: FloatText -> bool)
      returns (t: Value)
    requires AllInRange(calls, inRange) && |Run(Fresh(prefix), indent, max, calls).output| < TWO_64
    requires !IsRuined(Fresh(prefix), indent, max, calls) && W.Complete(Run(Fresh(prefix), indent, max, calls))
    ensures Depth(t) <= max && Writable(t, inRange)
    ensures AllUnsized(Accepted(Fresh(prefix), indent, max, calls)) == AllUnsized(Calls(t))
    ensures LaidThrough(Run(Fresh(prefix), indent, max, calls).output, |prefix|, Tokens(t))
    ensures ReadsAs(Run(Fresh(prefix), indent, max, calls).output, |prefix|, max, t, inRange)
  {
    var b := RunMatches(prefix, indent, max, calls, inRange);
    t := b.root.value;
    LaidReadsAs(Run(Fresh(prefix), indent, max, calls).output, |prefix|, max, t, inRange);
  }

  /** Some value is read from the text, and nothing but spaces is behind it. */
  ghost predicate IsReadable(input: Text, pos: nat, max: nat, inRange: FloatText -> bool) {
    exists t :: ReadsAs(input, pos, max, t, inRange)
  }

  /**
   After any calls whatever on a fresh writer: a complete writer holds a text that can be read exactly when
   no call has ruined it; and a ruined text is read by no consumer, whatever types and limit it has.
   */
  lemma ReadableExactlyWhenNotRuined(prefix: seq<Byte>, indent: nat, max: nat, calls: JsonCalls,
                                     inRange: FloatText -> bool)
    requires AllInRange(calls, inRange) && W.Complete(Run(Fresh(prefix), indent, max, calls))
    requires |Run(Fresh(prefix), indent, max, calls).output| < TWO_64
    ensures IsReadable(Run(Fresh(prefix), indent, max, calls).output, |prefix|, max, inRange)
       <==> !IsRuined(Fresh(prefix), indent, max, calls)
    ensures IsRuined(Fresh(prefix), indent, max, calls) ==>
              forall limit, shape, range ::
                PullAt(Run(Fresh(prefix), indent, max, calls).output, |prefix|, 0, limit, shape, range).Err?
  {
    hide PullAt, SkipAt, IsRuined, IsLost;
    var s := Run(Fresh(prefix), indent, max, calls);
    if IsRuined(Fresh(prefix), indent, max, calls) {
      RuinedIsLost(prefix, indent, max, calls);
      LostIsUnreadable(s, |prefix|);
      forall limit: nat, shape, range
        ensures PullAt(s.output, |prefix|, 0, limit, shape, range).Err?
      {
        if PullAt(s.output, |prefix|, 0, limit, shape, range).Ok? {
          SkipOfPull(s.output, |prefix|, 0, limit, shape, range);
        }
      }
    } else {
      var t := CompleteRunWroteOneValue(prefix, indent, max, calls, inRange);
    }
  }
}
