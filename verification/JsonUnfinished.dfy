/**
 Reading a text that so far lays out the tokens of an unfinished value: a reader that gets through all of
 it comes to the place where those tokens end, inside the innermost open container.
 */
module JsonUnfinished {
  import opened Bytes
  import opened Serial
  import opened Building
  import opened JsonNumber
  import opened JsonText
  import opened JsonGrammar
  import opened JsonLayout
  import opened JsonProtocol
  import opened JsonTheorems
  import Utf8

  // A higher limit changes nothing

  lemma {:induction false} SkipWithHigherLimit(input: Text, pos: nat, depth: nat, max: nat, higher: nat)
    requires max <= higher && SkipAt(input, pos, depth, max).Ok?
    ensures SkipAt(input, pos, depth, higher) == SkipAt(input, pos, depth, max)
    decreases |input| - pos, 0
  {
    hide PeekAt, NullAt, BoolAt, NumberAt, ParseString, SkipSpace, Advance, KeyAt, EndAt;
    var start := SkipSpace(input, pos);
    var kind := PeekAt(input, start).value;
    if kind == ArrayValue {
      SkipItemsWithHigherLimit(input, EnterAt(input, start, OPEN_BRACKET, depth, max).value, depth + 1, max, higher, true);
    } else if kind == ObjectValue {
      SkipEntriesWithHigherLimit(input, EnterAt(input, start, OPEN_BRACE, depth, max).value, depth + 1, max, higher, true);
    }
  }

  lemma {:induction false} SkipItemsWithHigherLimit(input: Text, pos: nat, depth: nat, max: nat, higher: nat, first: bool)
    requires max <= higher && SkipItems(input, pos, depth, max, first).Ok?
    ensures SkipItems(input, pos, depth, higher, first) == SkipItems(input, pos, depth, max, first)
    decreases |input| - pos, 1
  {
    hide Advance, EndAt;
    var (more, start) := Advance(input, pos, first, CLOSE_BRACKET).value;
    if more {
      SkipWithHigherLimit(input, start, depth, max, higher);
      SkipItemsWithHigherLimit(input, SkipAt(input, start, depth, max).value, depth, max, higher, false);
    }
  }

  lemma {:induction false} SkipEntriesWithHigherLimit(input: Text, pos: nat, depth: nat, max: nat, higher: nat, first: bool)
    requires max <= higher && SkipEntries(input, pos, depth, max, first).Ok?
    ensures SkipEntries(input, pos, depth, higher, first) == SkipEntries(input, pos, depth, max, first)
    decreases |input| - pos, 1
  {
    hide KeyAt, EndAt;
    var (key, start) := KeyAt(input, pos, first).value;
    if key.Some? {
      SkipWithHigherLimit(input, start, depth, max, higher);
      SkipEntriesWithHigherLimit(input, SkipAt(input, start, depth, max).value, depth, max, higher, false);
    }
  }

  // Through what is finished

  lemma SkipOfLaid(input: Text, pos: nat, t: Value, depth: nat, max: nat, end: nat)
    requires Writable(t, AnyFloat()) && depth + Depth(t) <= max
    requires LaidEnd(input, pos, Tokens(t)) == Some(end) && EndsNumber(Current(input, end))
    ensures SkipAt(input, pos, depth, max) == Ok(end)
  {
    PullOfLaid(input, pos, t, depth, max, AnyFloat(), end);
    SkipOfPull(input, pos, depth, max, ShapeOf(t), AnyFloat());
  }

  lemma {:induction false} ThroughItems(input: Text, pos: nat, items: seq<Value>, first: bool, depth: nat, max: nat,
                                        tail: seq<Token>, end: nat)
    requires ItemsWritable(items, AnyFloat()) && depth + ItemsDepth(items) <= max
    requires LaidEnd(input, pos, ItemTokens(items, first)) == Some(end) && Follows(input, end, tail, CLOSE_BRACKET)
    requires SkipItems(input, pos, depth, max, first).Ok?
    ensures SkipItems(input, end, depth, max, first && items == []).Ok?
    decreases |items|
  {
    hide Advance, SkipAt, LaidEnd, Follows;
    if items == [] {
      LaidNone(input, pos);
    } else {
      var start, middle := FirstItemOfLaid(input, pos, items, first, tail, end);
      SkipOfLaid(input, start, items[0], depth, max, middle);
      ThroughItems(input, middle, items[1..], false, depth, max, tail, end);
    }
  }

  lemma {:induction false} ThroughEntries(input: Text, pos: nat, entries: seq<Field>, first: bool, depth: nat, max: nat,
                                          tail: seq<Token>, end: nat)
    requires EntriesWritable(entries, AnyFloat()) && depth + EntriesDepth(entries) <= max
    requires LaidEnd(input, pos, EntryTokens(entries, first)) == Some(end) && Follows(input, end, tail, CLOSE_BRACE)
    requires SkipEntries(input, pos, depth, max, first).Ok?
    ensures SkipEntries(input, end, depth, max, first && entries == []).Ok?
    decreases |entries|
  {
    hide KeyAt, SkipAt, LaidEnd, Follows;
    if entries == [] {
      LaidNone(input, pos);
    } else {
      var start, middle := FirstEntryOfLaid(input, pos, entries, first, tail, end);
      SkipOfLaid(input, start, entries[0].value, depth, max, middle);
      ThroughEntries(input, middle, entries[1..], false, depth, max, tail, end);
    }
  }

  // Into what is open

  /** The rest of the container can be skipped: its next part is due at `pos`, or the value of its last key. */
  predicate GoesOn(input: Text, pos: nat, o: Open<FloatText>, depth: nat, max: nat) {
    match o
    case OpenArray(_, items) => SkipItems(input, pos, depth, max, items == []).Ok?
    case OpenObject(_, entries, None) => SkipEntries(input, pos, depth, max, entries == []).Ok?
    case OpenObject(_, _, Some(_)) => SkipAt(input, pos, depth, max).Ok?
  }

  lemma IntoOpen(input: Text, pos: nat, o: Open<FloatText>, depth: nat, max: nat, end: nat)
    requires OpenWritable(o, AnyFloat()) && depth + 1 + o.PartsDepth() <= max
    requires LaidEnd(input, pos, OpenTokens(o)) == Some(end) && EndsNumber(Current(input, end))
    requires SkipAt(input, pos, depth, max).Ok?
    ensures GoesOn(input, end, o, depth + 1, max)
  {
    match o
    case OpenArray(_, items) => IntoArray(input, pos, items, depth, max, end);
    case OpenObject(_, entries, key) => IntoObject(input, pos, entries, key, depth, max, end);
  }

  /** A container is entered behind its bracket. */
  lemma Entered(input: Text, pos: nat, opening: Byte, body: seq<Token>, depth: nat, max: nat)
    requires opening == OPEN_BRACKET || opening == OPEN_BRACE
    requires LaidEnd(input, pos, [[opening]] + body).Some? && SkipAt(input, pos, depth, max).Ok?
    ensures var inner := SkipSpace(input, pos) + 1;
            && LaidEnd(input, inner, body) == LaidEnd(input, pos, [[opening]] + body)
            && (if opening == OPEN_BRACKET then SkipItems(input, inner, depth + 1, max, true)
                else SkipEntries(input, inner, depth + 1, max, true)).Ok?
  {
    var tokens: seq<Token> := [[opening]] + body;
    LaidStart(input, pos, tokens);
    SkipTwice(input, pos);
    assert tokens[1..] == body;
  }

  lemma IntoArray(input: Text, pos: nat, items: seq<Value>, depth: nat, max: nat, end: nat)
    requires ItemsWritable(items, AnyFloat()) && depth + 1 + ItemsDepth(items) <= max
    requires LaidEnd(input, pos, [[OPEN_BRACKET]] + ItemTokens(items, true)) == Some(end)
    requires EndsNumber(Current(input, end)) && SkipAt(input, pos, depth, max).Ok?
    ensures SkipItems(input, end, depth + 1, max, items == []).Ok?
  {
    hide SkipAt, SkipItems;
    Entered(input, pos, OPEN_BRACKET, ItemTokens(items, true), depth, max);
    LaidNone(input, end);
    ThroughItems(input, SkipSpace(input, pos) + 1, items, true, depth + 1, max, [], end);
  }

  lemma IntoObject(input: Text, pos: nat, entries: seq<Field>, key: Option<Text>, depth: nat, max: nat, end: nat)
    requires EntriesWritable(entries, AnyFloat()) && depth + 1 + EntriesDepth(entries) <= max
    requires key.Some? ==> Utf8.Valid(key.value)
    requires LaidEnd(input, pos, OpenTokens(OpenObject(0, entries, key))) == Some(end)
    requires EndsNumber(Current(input, end)) && SkipAt(input, pos, depth, max).Ok?
    ensures GoesOn(input, end, OpenObject(0, entries, key), depth + 1, max)
  {
    hide SkipAt, SkipEntries, LaidEnd, SkipSpace;
    var keyed := if key.Some? then Comma(entries == []) + KeyTokens(key.value) else [];
    var parts := EntryTokens(entries, true);
    assert [[OPEN_BRACE]] + parts + keyed == [[OPEN_BRACE]] + (parts + keyed);
    Entered(input, pos, OPEN_BRACE, parts + keyed, depth, max);
    var inner := SkipSpace(input, pos) + 1;
    LaidConcat(input, inner, parts, keyed);
    var middle := LaidEnd(input, inner, parts).value;
    EndsBeforeKey(input, middle, entries == [], key, end);
    LaidNone(input, middle);
    ThroughEntries(input, inner, entries, true, depth + 1, max, [], middle);
    if key.Some? {
      OntoKey(input, middle, entries == [], key.value, depth + 1, max, end);
    } else {
      LaidNone(input, middle);
    }
  }

  lemma EndsBeforeKey(input: Text, pos: nat, first: bool, key: Option<Text>, end: nat)
    requires LaidEnd(input, pos, if key.Some? then Comma(first) + KeyTokens(key.value) else []) == Some(end)
    requires EndsNumber(Current(input, end))
    ensures EndsNumber(Current(input, pos))
  {
    if key.Some? {
      KeyStarts(key.value);
      LaidStart(input, pos, Comma(first) + KeyTokens(key.value));
    }
  }

  /** Past the last key, to where its value is due. */
  lemma OntoKey(input: Text, pos: nat, first: bool, key: Text, depth: nat, max: nat, end: nat)
    requires Utf8.Valid(key) && LaidEnd(input, pos, Comma(first) + KeyTokens(key)) == Some(end)
    requires SkipEntries(input, pos, depth, max, first).Ok?
    ensures SkipAt(input, end, depth, max).Ok?
  {
    hide KeyAt, SkipAt, LaidEnd, KeyTokens;
    assert Comma(first) + KeyTokens(key) + [] == Comma(first) + KeyTokens(key);
    var start := KeyOfLaid(input, pos, first, key, []);
    LaidNone(input, start);
  }

  /** Only the last of the open containers is not about to get the next one as its part. */
  ghost predicate IsChain(open: seq<Open<FloatText>>, max: nat) {
    && (forall i :: 0 <= i < |open| ==> OpenWritable(open[i], AnyFloat()) && i + 1 + open[i].PartsDepth() <= max)
    && forall i :: 0 <= i < |open| - 1 ==> open[i].Ready()
  }

  /** All the way in. */
  lemma {:induction false} IntoChain(input: Text, pos: nat, open: seq<Open<FloatText>>, max: nat, end: nat)
    requires open != [] && IsChain(open, max)
    requires LaidEnd(input, pos, AllOpenTokens(open)) == Some(end) && EndsNumber(Current(input, end))
    requires SkipAt(input, pos, 0, max).Ok?
    ensures GoesOn(input, end, open[|open| - 1], |open|, max)
    decreases |open|
  {
    hide SkipAt, GoesOn, LaidEnd, OpenTokens, OpenWritable;
    var outer, top := open[..|open| - 1], open[|open| - 1];
    var lead := Lead(outer) + OpenTokens(top);
    ConcatAssociative(AllOpenTokens(outer), Lead(outer), OpenTokens(top));
    LaidConcat(input, pos, AllOpenTokens(outer), lead);
    if outer == [] {
      LaidNone(input, pos);
      assert [] + OpenTokens(top) == OpenTokens(top);
      IntoOpen(input, pos, top, 0, max, end);
    } else {
      var middle := LaidEnd(input, pos, AllOpenTokens(outer)).value;
      OpenStarts(top);
      EndsBeforeOpen(input, middle, outer, top);
      IntoChain(input, pos, outer, max, middle);
      var start := OntoPart(input, middle, outer, top, max);
      IntoOpen(input, start, top, |outer|, max, end);
    }
  }

  lemma OpenStarts(o: Open<FloatText>)
    ensures OpenTokens(o) != [] && (OpenTokens(o)[0] == [OPEN_BRACKET] || OpenTokens(o)[0] == [OPEN_BRACE])
  {
  }

  lemma EndsBeforeOpen(input: Text, pos: nat, outer: seq<Open<FloatText>>, top: Open<FloatText>)
    requires LaidEnd(input, pos, Lead(outer) + OpenTokens(top)).Some?
    ensures EndsNumber(Current(input, pos))
  {
    hide OpenTokens;
    OpenStarts(top);
    LaidStart(input, pos, Lead(outer) + OpenTokens(top));
  }

  /** From where the outer container goes on to where its open part starts. */
  lemma OntoPart(input: Text, pos: nat, outer: seq<Open<FloatText>>, top: Open<FloatText>, max: nat) returns (start: nat)
    requires outer != [] && outer[|outer| - 1].Ready() && GoesOn(input, pos, outer[|outer| - 1], |outer|, max)
    requires LaidEnd(input, pos, Lead(outer) + OpenTokens(top)).Some?
    ensures SkipAt(input, start, |outer|, max).Ok?
    ensures LaidEnd(input, start, OpenTokens(top)) == LaidEnd(input, pos, Lead(outer) + OpenTokens(top))
  {
    hide SkipAt, LaidEnd, OpenTokens, Advance;
    OpenStarts(top);
    match outer[|outer| - 1]
    case OpenArray(_, items) =>
      start := AdvanceToItem(input, pos, items == [], CLOSE_BRACKET, OpenTokens(top));
    case OpenObject(_, _, _) =>
      start := pos;
      assert [] + OpenTokens(top) == OpenTokens(top);
  }

  // Texts that cannot be read

  /** No reader gets past the value at `pos`, whatever its limit is. */
  ghost predicate IsUnreadable(input: seq<Byte>, pos: nat) {
    |input| < TWO_64 ==> forall max: nat :: SkipAt(input, pos, 0, max).Err?
  }

  /** Unreadable when reading cannot go on where the open containers end. */
  lemma CutOff(input: seq<Byte>, pos: nat, open: seq<Open<FloatText>>, top: Open<FloatText>, depth: nat, max: nat, end: nat)
    requires open != [] && IsChain(open, max) && top == open[|open| - 1] && depth == |open|
    requires LaidEnd(input, pos, AllOpenTokens(open)) == Some(end) && EndsNumber(Current(input, end))
    requires |input| < TWO_64 ==> forall limit: nat :: !GoesOn(input, end, top, depth, limit)
    ensures IsUnreadable(input, pos)
  {
    hide SkipAt, GoesOn, LaidEnd, OpenWritable;
    if |input| < TWO_64 {
      forall limit: nat
        ensures SkipAt(input, pos, 0, limit).Err?
      {
        if SkipAt(input, pos, 0, limit).Ok? {
          var higher := Max(limit, max);
          SkipWithHigherLimit(input, pos, 0, limit, higher);
          IntoChain(input, pos, open, higher, end);
        }
      }
    }
  }

  predicate IsPunctuation(b: Byte) {
    b == COMMA || b == CLOSE_BRACKET || b == CLOSE_BRACE
  }

  /** After spaces, a comma or a closing bracket. */
  predicate EndsPart(more: seq<Byte>) {
    SkipSpace(more, 0) < |more| && IsPunctuation(more[SkipSpace(more, 0)])
  }

  /** Where a part is due, no comma and no closing bracket can be skipped. */
  lemma NoValueAt(input: Text, pos: nat, depth: nat, max: nat)
    requires IsPunctuation(Current(input, SkipSpace(input, pos)))
    ensures SkipAt(input, pos, depth, max).Err?
  {
  }

  lemma NoItemAfterComma(input: Text, pos: nat, depth: nat, max: nat)
    requires Current(input, SkipSpace(input, pos)) == COMMA
    requires IsPunctuation(Current(input, SkipSpace(input, SkipSpace(input, pos) + 1)))
    ensures SkipItems(input, pos, depth, max, false).Err? && SkipEntries(input, pos, depth, max, false).Err?
  {
    hide SkipAt;
    var next := SkipSpace(input, SkipSpace(input, pos) + 1);
    SkipTwice(input, SkipSpace(input, pos) + 1);
    NoValueAt(input, next, depth, max);
  }

  lemma NoFirstItem(input: Text, pos: nat, depth: nat, max: nat)
    requires Current(input, SkipSpace(input, pos)) == COMMA
    ensures SkipItems(input, pos, depth, max, true).Err?
  {
    hide SkipAt;
    SkipTwice(input, pos);
    NoValueAt(input, SkipSpace(input, pos), depth, max);
  }
}
