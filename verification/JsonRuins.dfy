/**
 Runs with refused text. The writer looks at a text only after it has written what separates it from the
 values before, or ticked off the place it was due at. Which calls ruin the text by that, and that every
 other run of calls, refused ones among them, ends with a text that reads as one value.
 */
module JsonRuins {
  import opened Bytes
  import opened Serial
  import opened Building
  import opened JsonNumber
  import opened JsonText
  import opened JsonGrammar
  import W = JsonWriter
  import opened JsonLayout
  import opened JsonProtocol
  import opened JsonRuns
  import Base64
  import Utf8

  // Which calls ruin a text

  /** The last byte that is not a space. */
  function LastVisible(output: seq<Byte>): Option<Byte>
    decreases |output|
  {
    if output == [] then None
    else if IsSpace(output[|output| - 1]) then LastVisible(output[..|output| - 1])
    else Some(output[|output| - 1])
  }

  /** The innermost container is an array that counts an item and has none: its first text was refused. */
  predicate IsHollow(s: W.State) {
    && s.stack != [] && !W.Top(s.stack).isObject && W.Top(s.stack).hasItems
    && LastVisible(s.output) == Some(OPEN_BRACKET)
  }

  predicate IsBad(call: Call<FloatText>) {
    match call
    case WriteLeaf(Str(text)) => !Utf8.Valid(text)
    case WriteKey(key) => !Utf8.Valid(key)
    case _ => false
  }

  /**
   A bad text at the root, under a key, or behind another item; a bad key behind another entry; and any
   value that is begun in an array whose first text was refused.
   */
  predicate Ruins(s: W.State, indent: nat, max: nat, call: Call<FloatText>) {
    match call
    case WriteLeaf(_) =>
      && W.Begun(s, indent).Ok?
      && (IsHollow(s) || (IsBad(call) && (s.stack == [] || W.Top(s.stack).isObject || W.Top(s.stack).hasItems)))
    case BeginArray(_) => |s.stack| < max && IsHollow(s)
    case BeginObject(_) => |s.stack| < max && IsHollow(s)
    case WriteKey(_) =>
      && IsBad(call) && s.stack != [] && W.Top(s.stack).isObject && !W.Top(s.stack).awaiting && W.Top(s.stack).hasItems
    case _ => false
  }

  /** Some call of the run ruins the text. */
  predicate IsRuined(s: W.State, indent: nat, max: nat, calls: JsonCalls)
    decreases |calls|
  {
    calls != []
    && var earlier, last := calls[..|calls| - 1], calls[|calls| - 1];
       IsRuined(s, indent, max, earlier) || Ruins(Run(s, indent, max, earlier), indent, max, last)
  }

  // The last token tells whether an array is empty

  lemma {:induction false} LastVisibleAt(output: seq<Byte>, end: nat)
    requires 0 < end <= |output| && SpacesFrom(output, end) && !IsSpace(output[end - 1])
    ensures LastVisible(output) == Some(output[end - 1])
    decreases |output|
  {
    if end < |output| {
      LastVisibleAt(output[..|output| - 1], end);
    }
  }

  function LastByte(token: Token): Byte {
    token[|token| - 1]
  }

  lemma LastOfLaid(output: seq<Byte>, pos: nat, front: seq<Token>, last: Token)
    requires LaidThrough(output, pos, front + [last]) && !IsSpace(LastByte(last))
    ensures LastVisible(output) == Some(LastByte(last))
  {
    var end := LaidEnd(output, pos, front + [last]).value;
    LaidConcat(output, pos, front, [last]);
    var middle := LaidEnd(output, pos, front).value;
    LaidOne(output, middle, last);
    assert At(output, SkipSpace(output, middle), last);
    assert output[SkipSpace(output, middle) + (|last| - 1)] == LastByte(last);
    LastVisibleAt(output, end);
  }

  lemma NumberEnds(n: Number)
    requires n.Valid()
    ensures IsDigit(n.Text()[|n.Text()| - 1])
  {
    assert n.Text() == n.Head() + n.FractionText() + n.ExponentText();
    if n.exponent.Some? {
      assert n.Text()[|n.Text()| - 1] == n.exponent.value.digits[|n.exponent.value.digits| - 1];
    } else if n.fraction.Some? {
      assert n.Text()[|n.Text()| - 1] == n.fraction.value[|n.fraction.value| - 1];
    } else {
      assert n.Text()[|n.Text()| - 1] == n.whole[|n.whole| - 1];
    }
  }

  /** A token that ends a value is no opening bracket. */
  predicate EndsValue(token: Token) {
    !IsSpace(LastByte(token)) && LastByte(token) != OPEN_BRACKET
  }

  lemma LeafEnds(leaf: Leaf<FloatText>)
    ensures EndsValue(LeafToken(leaf))
  {
    match leaf
    case Signed(v) => NumberEnds(IntegerNumber(v));
    case Unsigned(v) => NumberEnds(IntegerNumber(v));
    case Float(f) => NumberEnds(f);
    case Str(text) => QuoteEnds(EscapedFrom(text, 0));
    case Blob(bytes) => QuoteEnds(Base64.Encode(bytes));
    case _ =>
  }

  lemma QuoteEnds(body: seq<Byte>)
    ensures var quoted := [QUOTE] + body + [QUOTE]; quoted[|quoted| - 1] == QUOTE
  {
  }

  lemma ValueEnds(t: Value)
    ensures Tokens(t) != [] && EndsValue(Tokens(t)[|Tokens(t)| - 1])
  {
    match t
    case Leaf(leaf) => LeafEnds(leaf);
    case Array(items) => assert Tokens(t)[|Tokens(t)| - 1] == [CLOSE_BRACKET];
    case Object(entries) => assert Tokens(t)[|Tokens(t)| - 1] == [CLOSE_BRACE];
  }

  lemma {:induction false} ItemsEnd(items: seq<Value>, first: bool)
    requires items != []
    ensures ItemTokens(items, first) != [] && EndsValue(ItemTokens(items, first)[|ItemTokens(items, first)| - 1])
    decreases |items|
  {
    ValueEnds(items[0]);
    if |items| > 1 {
      ItemsEnd(items[1..], false);
    }
  }

  /** In an array on top, the last token is its own opening bracket exactly when it has no items. */
  lemma ArrayEnds(output: seq<Byte>, pos: nat, b: Builder<FloatText>)
    requires b.open != [] && b.root.None? && b.open[|b.open| - 1].OpenArray?
    requires LaidThrough(output, pos, BuilderTokens(b))
    ensures LastVisible(output) == Some(OPEN_BRACKET) <==> b.open[|b.open| - 1].items == []
  {
    hide LaidThrough, LastVisible;
    var tokens, items := BuilderTokens(b), b.open[|b.open| - 1].items;
    var before := AllOpenTokens(b.open[..|b.open| - 1]) + Lead(b.open[..|b.open| - 1]);
    assert tokens == before + ([[OPEN_BRACKET]] + ItemTokens(items, true));
    var front, last := tokens[..|tokens| - 1], tokens[|tokens| - 1];
    assert tokens == front + [last];
    if items == [] {
      assert last == [OPEN_BRACKET];
    } else {
      ItemsEnd(items, true);
      assert last == ItemTokens(items, true)[|ItemTokens(items, true)| - 1];
    }
    LastOfLaid(output, pos, front, last);
  }

  // Runs that are not ruined

  /** The state without the item that a hollow array counts. */
  function Cured(s: W.State): W.State {
    if IsHollow(s) then s.(stack := W.WithTop(s.stack, W.Top(s.stack).(hasItems := false))) else s
  }

  /** The writer holds what the builder has, but for an item counted and not written. */
  ghost predicate Corresponds(s: W.State, b: Builder<FloatText>, pos: nat, max: nat, inRange: FloatText -> bool) {
    Matches(Cured(s), b, pos, max, inRange)
  }

  lemma MatchedIsNotHollow(s: W.State, b: Builder<FloatText>, pos: nat, max: nat, inRange: FloatText -> bool)
    requires Matches(s, b, pos, max, inRange)
    ensures !IsHollow(s) && Corresponds(s, b, pos, max, inRange)
  {
    hide LaidThrough, LastVisible, BuilderTokens;
    if s.stack != [] {
      assert FrameMatches(s.stack[|b.open| - 1], b.open[|b.open| - 1], false);
      if b.open[|b.open| - 1].OpenArray? {
        ArrayEnds(s.output, pos, b);
      }
    }
  }

  predicate FloatInRange(call: Call<FloatText>, inRange: FloatText -> bool) {
    match call
    case WriteLeaf(Float(f)) => inRange(f)
    case _ => true
  }

  lemma CarriedOutIsClean(s: W.State, indent: nat, max: nat, call: Call<FloatText>, inRange: FloatText -> bool)
    requires W.Step(s, indent, max, call).refusal.None? && FloatInRange(call, inRange)
    ensures Clean(call, inRange)
  {
  }

  /** A call that is carried out and ruins nothing. */
  lemma CarriedOutCorresponds(s: W.State, b: Builder<FloatText>, pos: nat, indent: nat, max: nat,
                              call: Call<FloatText>, inRange: FloatText -> bool)
    requires Corresponds(s, b, pos, max, inRange) && FloatInRange(call, inRange)
    requires call.EndArray? || call.EndObject? ==> CountsFit(b)
    requires W.Step(s, indent, max, call).refusal.None? && !Ruins(s, indent, max, call)
    ensures b.CanTake(call) && (!call.PreferInline? ==> b.root.None?)
    ensures Corresponds(W.Step(s, indent, max, call).state, b.Take(call), pos, max, inRange)
  {
    hide Matches, W.Step, IsHollow, Clean;
    if IsHollow(s) {
      HollowStep(s, b, pos, indent, max, call, inRange);
    } else {
      CarriedOutIsClean(s, indent, max, call, inRange);
      MatchesStep(s, b, pos, indent, max, call, inRange);
      MatchedIsNotHollow(W.Step(s, indent, max, call).state, b.Take(call), pos, max, inRange);
    }
  }

  /** In a hollow array only hints and its end do no harm; the end may stand on a line of its own. */
  lemma HollowStep(s: W.State, b: Builder<FloatText>, pos: nat, indent: nat, max: nat, call: Call<FloatText>,
                   inRange: FloatText -> bool)
    requires Corresponds(s, b, pos, max, inRange) && IsHollow(s)
    requires call.EndArray? ==> CountsFit(b)
    requires W.Step(s, indent, max, call).refusal.None? && !Ruins(s, indent, max, call)
    ensures b.CanTake(call) && (!call.PreferInline? ==> b.root.None?)
    ensures Corresponds(W.Step(s, indent, max, call).state, b.Take(call), pos, max, inRange)
  {
    hide LaidThrough, BuilderTokens, LastVisible, AllWritable;
    assert call.EndArray? || call.PreferInline?;
    if call.EndArray? {
      HollowEnd(s, b, pos, indent, max, inRange);
    } else {
      assert Cured(s.(inlineNext := true)) == Cured(s).(inlineNext := true);
    }
  }

  lemma HollowEnd(s: W.State, b: Builder<FloatText>, pos: nat, indent: nat, max: nat, inRange: FloatText -> bool)
    requires Corresponds(s, b, pos, max, inRange) && IsHollow(s) && CountsFit(b)
    ensures b.CanTake(EndArray) && b.root.None?
    ensures Corresponds(W.Closed(s, indent, false).state, b.Take(EndArray), pos, max, inRange)
  {
    hide LaidThrough, BuilderTokens, LastVisible, AllWritable, FramesMatch;
    var cured := Cured(s);
    assert W.Closed(cured, indent, false).refusal.None? && W.Closed(s, indent, false).refusal.None?;
    MatchesClosing(cured, b, pos, indent, max, false, inRange);
    LaidClosing(s, b, pos, indent, false);
    var after := W.Closed(s, indent, false).state;
    assert cured.stack[..|cured.stack| - 1] == s.stack[..|s.stack| - 1];
    assert W.Closed(cured, indent, false).state.(output := after.output) == after;
    OutputIsNoFrame(W.Closed(cured, indent, false).state, b.Take(EndArray), max, after.output);
    MatchedIsNotHollow(after, b.Take(EndArray), pos, max, inRange);
  }

  /** A call that is refused and ruins nothing adds at most spaces. */
  lemma RefusedCorresponds(s: W.State, b: Builder<FloatText>, pos: nat, indent: nat, max: nat,
                           call: Call<FloatText>, inRange: FloatText -> bool)
    requires Corresponds(s, b, pos, max, inRange)
    requires W.Step(s, indent, max, call).refusal.Some? && !Ruins(s, indent, max, call)
    ensures Corresponds(W.Step(s, indent, max, call).state, b, pos, max, inRange)
  {
    hide Matches, W.Separator, IsHollow;
    if W.Step(s, indent, max, call).state != s {
      if call.WriteLeaf? {
        FirstItemRefused(s, b, pos, indent, max, call.leaf, inRange);
      } else {
        FirstKeyRefused(s, b, pos, indent, max, call.key, inRange);
      }
    }
  }

  /** The first item of an array is refused: the array is hollow from now on. */
  lemma FirstItemRefused(s: W.State, b: Builder<FloatText>, pos: nat, indent: nat, max: nat,
                         leaf: Leaf<FloatText>, inRange: FloatText -> bool)
    requires Corresponds(s, b, pos, max, inRange)
    requires W.Written(s, indent, leaf).refusal.Some? && W.Written(s, indent, leaf).state != s
    requires !Ruins(s, indent, max, WriteLeaf(leaf))
    ensures Corresponds(W.Written(s, indent, leaf).state, b, pos, max, inRange)
  {
    hide LaidThrough, BuilderTokens, LastVisible, AllWritable;
    var top, after := W.Top(s.stack), W.Written(s, indent, leaf).state;
    var gap := W.Gap(top, |s.stack|, indent);
    GapIsSpaces(top, |s.stack|, indent);
    assert W.Separator(top, |s.stack|, indent) == [] + gap == gap;
    assert FrameMatches(s.stack[|b.open| - 1], b.open[|b.open| - 1], false);
    LaidGap(s.output, pos, BuilderTokens(b), gap);
    OutputIsNoFrame(s, b, max, after.output);
    ArrayEnds(after.output, pos, b);
    assert W.WithTop(after.stack, W.Top(after.stack).(hasItems := false)) == s.stack;
    assert Cured(after) == s.(output := after.output);
  }

  /** The first key of an object is refused: nothing but spaces was written before it. */
  lemma FirstKeyRefused(s: W.State, b: Builder<FloatText>, pos: nat, indent: nat, max: nat, key: Text,
                        inRange: FloatText -> bool)
    requires Corresponds(s, b, pos, max, inRange)
    requires W.Keyed(s, indent, key).refusal.Some? && W.Keyed(s, indent, key).state != s
    requires !Ruins(s, indent, max, WriteKey(key))
    ensures Corresponds(W.Keyed(s, indent, key).state, b, pos, max, inRange)
  {
    hide LaidThrough, BuilderTokens, LastVisible, AllWritable;
    var top, after := W.Top(s.stack), W.Keyed(s, indent, key).state;
    var gap := W.Gap(top, |s.stack|, indent);
    GapIsSpaces(top, |s.stack|, indent);
    assert W.Separator(top, |s.stack|, indent) == [] + gap == gap;
    LaidGap(s.output, pos, BuilderTokens(b), gap);
    OutputIsNoFrame(s, b, max, after.output);
    assert after == s.(output := after.output);
    MatchedIsNotHollow(after, b, pos, max, inRange);
  }

  predicate AllInRange(calls: JsonCalls, inRange: FloatText -> bool) {
    forall i :: 0 <= i < |calls| ==> FloatInRange(calls[i], inRange)
  }

  /** What a call writes. */
  lemma Added(s: W.State, indent: nat, max: nat, call: Call<FloatText>) returns (part: seq<Byte>)
    ensures W.Step(s, indent, max, call).state.output == s.output + part
  {
    hide W.LeafText, W.Separator, W.Newline;
    var after := W.Step(s, indent, max, call).state.output;
    part := after[|s.output|..];
  }

  /** Every token takes a byte. */
  lemma {:induction false} LaidLength(input: seq<Byte>, pos: nat, tokens: seq<Token>)
    requires LaidEnd(input, pos, tokens).Some?
    ensures pos + |tokens| <= LaidEnd(input, pos, tokens).value
    decreases |tokens|
  {
    if tokens != [] {
      LaidLength(input, SkipSpace(input, pos) + |tokens[0]|, tokens[1..]);
    }
  }

  lemma {:induction false} ItemsLength(items: seq<Value>, first: bool)
    ensures |items| <= |ItemTokens(items, first)|
    decreases |items|
  {
    if items != [] {
      TokensStart(items[0]);
      ItemsLength(items[1..], false);
    }
  }

  lemma {:induction false} EntriesLength(entries: seq<Field>, first: bool)
    ensures |entries| <= |EntryTokens(entries, first)|
    decreases |entries|
  {
    if entries != [] {
      EntriesLength(entries[1..], false);
    }
  }

  /** No container holds more parts than there are bytes. */
  lemma CountsFitText(s: W.State, b: Builder<FloatText>, pos: nat, max: nat, inRange: FloatText -> bool)
    requires Corresponds(s, b, pos, max, inRange) && |s.output| < TWO_64
    ensures CountsFit(b)
  {
    hide IsHollow, LaidEnd, ItemTokens, EntryTokens;
    if b.open != [] {
      LaidLength(s.output, pos, BuilderTokens(b));
      match b.open[|b.open| - 1]
      case OpenArray(_, items) => ItemsLength(items, true);
      case OpenObject(_, entries, _) => EntriesLength(entries, true);
    }
  }

  /** The builder that corresponds to the writer after a run that is not ruined. */
  lemma {:induction false} RunMatches(prefix: seq<Byte>, indent: nat, max: nat, calls: JsonCalls,
                                      inRange: FloatText -> bool) returns (b: Builder<FloatText>)
    requires AllInRange(calls, inRange) && !IsRuined(Fresh(prefix), indent, max, calls)
    requires |Run(Fresh(prefix), indent, max, calls).output| < TWO_64
    ensures Corresponds(Run(Fresh(prefix), indent, max, calls), b, |prefix|, max, inRange)
    ensures AllUnsized(BuilderCalls(b)) == AllUnsized(Accepted(Fresh(prefix), indent, max, calls))
    decreases |calls|
  {
    hide Corresponds, FloatInRange, W.Step, Ruins;
    if calls == [] {
      b := Builder([], None);
      FreshMatches(prefix, max, inRange);
      MatchedIsNotHollow(Fresh(prefix), b, |prefix|, max, inRange);
    } else {
      var earlier, last := calls[..|calls| - 1], calls[|calls| - 1];
      assert AllInRange(earlier, inRange) && FloatInRange(last, inRange);
      var before := Run(Fresh(prefix), indent, max, earlier);
      var part := Added(before, indent, max, last);
      b := RunMatches(prefix, indent, max, earlier, inRange);
      CountsFitText(before, b, |prefix|, max, inRange);
      if W.Step(before, indent, max, last).refusal.None? {
        CarriedOutCorresponds(before, b, |prefix|, indent, max, last, inRange);
        if !last.PreferInline? {
          TakeCallsUnsized(b, last);
          AllUnsizedConcat(Accepted(Fresh(prefix), indent, max, earlier), [last]);
        }
        b := b.Take(last);
      } else {
        RefusedCorresponds(before, b, |prefix|, indent, max, last, inRange);
      }
    }
  }
}
