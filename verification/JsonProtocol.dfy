/**
 Runs of JSON writer calls. Whatever is called in whatever order, with any indentation and any inline
 hints, the text written always lays out the tokens of the value built so far; only a text that is not
 UTF-8 breaks this, because the writer refuses it too late.
 */
module JsonProtocol {
  import opened Bytes
  import opened Serial
  import opened Building
  import opened JsonNumber
  import opened JsonText
  import opened JsonGrammar
  import W = JsonWriter
  import opened JsonLayout
  import Utf8

  type JsonCalls = seq<Call<FloatText>>

  // The tokens of a value under construction

  function OpenTokens(o: Open<FloatText>): seq<Token> {
    match o
    case OpenArray(_, items) => [[OPEN_BRACKET]] + ItemTokens(items, true)
    case OpenObject(_, entries, key) =>
      [[OPEN_BRACE]] + EntryTokens(entries, true)
      + (if key.Some? then Comma(entries == []) + KeyTokens(key.value) else [])
  }

  /** The comma before the next value. */
  function Lead(open: seq<Open<FloatText>>): seq<Token> {
    if open == [] || open[|open| - 1].OpenObject? then [] else Comma(open[|open| - 1].items == [])
  }

  function AllOpenTokens(open: seq<Open<FloatText>>): seq<Token> {
    if open == [] then []
    else AllOpenTokens(open[..|open| - 1]) + Lead(open[..|open| - 1]) + OpenTokens(open[|open| - 1])
  }

  function BuilderTokens(b: Builder<FloatText>): seq<Token> {
    if b.root.Some? then Tokens(b.root.value) else AllOpenTokens(b.open)
  }

  lemma AllOpenTokensAppend(open: seq<Open<FloatText>>, o: Open<FloatText>)
    ensures AllOpenTokens(open + [o]) == AllOpenTokens(open) + Lead(open) + OpenTokens(o)
  {
    assert (open + [o])[..|open|] == open;
  }

  lemma {:induction false} ItemTokensAppend(items: seq<Value>, first: bool, t: Value)
    ensures ItemTokens(items + [t], first) == ItemTokens(items, first) + Comma(first && items == []) + Tokens(t)
    decreases |items|
  {
    if items == [] {
      assert items + [t] == [t];
      assert [t][1..] == [];
    } else {
      assert (items + [t])[1..] == items[1..] + [t];
      ItemTokensAppend(items[1..], false, t);
    }
  }

  lemma {:induction false} EntryTokensAppend(entries: seq<Field>, first: bool, e: Field)
    ensures EntryTokens(entries + [e], first)
         == EntryTokens(entries, first) + (Comma(first && entries == []) + KeyTokens(e.key)) + Tokens(e.value)
    decreases |entries|
  {
    hide KeyTokens, Comma;
    if entries == [] {
      assert entries + [e] == [e];
      assert [e][1..] == [];
      var lead := Comma(first) + KeyTokens(e.key);
      assert lead + Tokens(e.value) + [] == [] + lead + Tokens(e.value);
    } else {
      assert (entries + [e])[1..] == entries[1..] + [e];
      EntryTokensAppend(entries[1..], false, e);
      var head := Comma(first) + KeyTokens(entries[0].key) + Tokens(entries[0].value);
      var rest, keyed := EntryTokens(entries[1..], false), Comma(false) + KeyTokens(e.key);
      assert head + (rest + keyed + Tokens(e.value)) == head + rest + keyed + Tokens(e.value);
    }
  }

  lemma WithTokens(o: Open<FloatText>, t: Value)
    requires o.Ready()
    ensures OpenTokens(o.With(t)) == OpenTokens(o) + (Lead([o]) + Tokens(t))
  {
    match o
    case OpenArray(_, items) =>
      ItemTokensAppend(items, true, t);
      Regroup([[OPEN_BRACKET]], ItemTokens(items, true), Comma(items == []), Tokens(t));
    case OpenObject(_, entries, key) =>
      EntryTokensAppend(entries, true, Entry(key.value, t));
      var keyed := Comma(entries == []) + KeyTokens(key.value);
      Regroup([[OPEN_BRACE]], EntryTokens(entries, true), keyed, Tokens(t));
      ConcatAssociative([[OPEN_BRACE]] + EntryTokens(entries, true), keyed, Tokens(t));
      assert [] + Tokens(t) == Tokens(t);
      assert OpenTokens(o.With(t)) == [[OPEN_BRACE]] + EntryTokens(entries + [Entry(key.value, t)], true) + [];
  }

  lemma Regroup(a: seq<Token>, b: seq<Token>, c: seq<Token>, d: seq<Token>)
    ensures a + (b + c + d) == a + b + (c + d)
  {
  }

  lemma LeadOfTop(open: seq<Open<FloatText>>)
    requires open != []
    ensures Lead(open) == Lead([open[|open| - 1]])
  {
  }

  lemma PlaceTokens(b: Builder<FloatText>, t: Value)
    requires b.Ready() && b.root.None?
    ensures BuilderTokens(b.Place(t)) == BuilderTokens(b) + (Lead(b.open) + Tokens(t))
  {
    hide Tokens;
    if b.open != [] {
      var outer, top := b.open[..|b.open| - 1], b.open[|b.open| - 1];
      WithTokens(top, t);
      LeadOfTop(b.open);
      AllOpenTokensAppend(outer, top.With(t));
      ConcatAssociative(AllOpenTokens(outer) + Lead(outer), OpenTokens(top), Lead(b.open) + Tokens(t));
    }
  }

  function Bracket(isObject: bool): Token {
    if isObject then [OPEN_BRACE] else [OPEN_BRACKET]
  }

  function EndBracket(isObject: bool): Token {
    if isObject then [CLOSE_BRACE] else [CLOSE_BRACKET]
  }

  lemma OpenedTokens(b: Builder<FloatText>, isObject: bool, size: U64)
    requires b.Ready() && b.root.None?
    ensures BuilderTokens(b.Take(if isObject then BeginObject(size) else BeginArray(size)))
         == BuilderTokens(b) + Lead(b.open) + [Bracket(isObject)]
  {
    hide AllOpenTokens, Tokens;
    var o: Open<FloatText> := if isObject then OpenObject(size, [], None) else OpenArray(size, []);
    AllOpenTokensAppend(b.open, o);
    assert OpenTokens(o) == [Bracket(isObject)];
  }

  lemma KeyedTokens(b: Builder<FloatText>, key: Text)
    requires b.CanTake(WriteKey(key)) && b.root.None?
    ensures BuilderTokens(b.Take(WriteKey(key)))
         == BuilderTokens(b) + (Comma(b.open[|b.open| - 1].entries == []) + KeyTokens(key))
  {
    hide KeyTokens, EntryTokens;
    var outer, top := b.open[..|b.open| - 1], b.open[|b.open| - 1];
    AllOpenTokensAppend(outer, top.(key := Some(key)));
    var added := Comma(top.entries == []) + KeyTokens(key);
    assert OpenTokens(top.(key := Some(key))) == OpenTokens(top) + added;
    ConcatAssociative(AllOpenTokens(outer) + Lead(outer), OpenTokens(top), added);
  }

  lemma ClosedTokens(b: Builder<FloatText>, isObject: bool)
    requires b.CanTake(if isObject then EndObject else EndArray) && b.root.None?
    ensures BuilderTokens(b.Take(if isObject then EndObject else EndArray)) == BuilderTokens(b) + [EndBracket(isObject)]
  {
    var outer, top := b.open[..|b.open| - 1], b.open[|b.open| - 1];
    assert Tokens(top.Closed()) == OpenTokens(top) + [EndBracket(isObject)];
    PlaceTokens(Builder(outer, b.root), top.Closed());
    ConcatAssociative(AllOpenTokens(outer) + Lead(outer), OpenTokens(top), [EndBracket(isObject)]);
    ConcatAssociative(AllOpenTokens(outer), Lead(outer), Tokens(top.Closed()));
  }

  // How a writer's stack and a builder correspond

  /** `busy` tells that the container's next part is itself open, above it on the stack. */
  ghost predicate FrameMatches(f: W.Frame, o: Open<FloatText>, busy: bool) {
    match o
    case OpenArray(_, items) => !f.isObject && !f.awaiting && f.hasItems == (items != [] || busy)
    case OpenObject(_, entries, key) =>
      && f.isObject
      && f.hasItems == (entries != [] || key.Some?)
      && (busy ==> key.Some?)
      && f.awaiting == (key.Some? && !busy)
  }

  /** Everything in it can be written and read. */
  ghost predicate OpenWritable(o: Open<FloatText>, inRange: FloatText -> bool) {
    match o
    case OpenArray(_, items) => ItemsWritable(items, inRange)
    case OpenObject(_, entries, key) => EntriesWritable(entries, inRange) && (key.Some? ==> Utf8.Valid(key.value))
  }

  ghost predicate FramesMatch(s: W.State, b: Builder<FloatText>, max: nat) {
    && |s.stack| == |b.open| <= max
    && s.started == (b.root.Some? || b.open != [])
    && (b.root.Some? ==> b.open == [] && Depth(b.root.value) <= max)
    && (forall i :: 0 <= i < |b.open| ==> FrameMatches(s.stack[i], b.open[i], i + 1 < |b.open|))
    && (forall i :: 0 <= i < |b.open| ==> i + 1 + b.open[i].PartsDepth() <= max)
  }

  ghost predicate AllWritable(b: Builder<FloatText>, inRange: FloatText -> bool) {
    && (b.root.Some? ==> Writable(b.root.value, inRange))
    && (forall i :: 0 <= i < |b.open| ==> OpenWritable(b.open[i], inRange))
  }

  // One call

  /** The call carries no text that is not UTF-8, and no number the reader could not read. */
  predicate Clean(call: Call<FloatText>, inRange: FloatText -> bool) {
    match call
    case WriteLeaf(leaf) => Writable(Leaf(leaf), inRange)
    case WriteKey(key) => Utf8.Valid(key)
    case _ => true
  }

  lemma ReadyWhenBegun(s: W.State, b: Builder<FloatText>, indent: nat, max: nat)
    requires FramesMatch(s, b, max) && W.Begun(s, indent).Ok?
    ensures b.Ready() && b.root.None?
    ensures b.open != [] ==> FrameMatches(s.stack[|b.open| - 1], b.open[|b.open| - 1], false)
  {
    if b.open != [] {
      assert FrameMatches(s.stack[|b.open| - 1], b.open[|b.open| - 1], false);
    }
  }

  lemma WithDepth(o: Open<FloatText>, t: Value)
    requires o.Ready()
    ensures o.With(t).PartsDepth() == Max(o.PartsDepth(), Depth(t))
  {
    match o
    case OpenArray(_, items) => ItemsDepthAppend(items, t);
    case OpenObject(_, entries, key) => EntriesDepthAppend(entries, Entry(key.value, t));
  }

  lemma {:induction false} ItemsWritableAppend(items: seq<Value>, t: Value, inRange: FloatText -> bool)
    ensures ItemsWritable(items + [t], inRange) <==> ItemsWritable(items, inRange) && Writable(t, inRange)
    decreases |items|
  {
    if items == [] {
      assert items + [t] == [t];
      assert [t][1..] == [];
    } else {
      assert (items + [t])[1..] == items[1..] + [t];
      ItemsWritableAppend(items[1..], t, inRange);
    }
  }

  lemma {:induction false} EntriesWritableAppend(entries: seq<Field>, e: Field, inRange: FloatText -> bool)
    ensures EntriesWritable(entries + [e], inRange)
       <==> EntriesWritable(entries, inRange) && Utf8.Valid(e.key) && Writable(e.value, inRange)
    decreases |entries|
  {
    if entries == [] {
      assert entries + [e] == [e];
      assert [e][1..] == [];
    } else {
      assert (entries + [e])[1..] == entries[1..] + [e];
      EntriesWritableAppend(entries[1..], e, inRange);
    }
  }

  lemma PlacedWritable(b: Builder<FloatText>, t: Value, inRange: FloatText -> bool)
    requires b.Ready() && AllWritable(b, inRange) && Writable(t, inRange)
    ensures AllWritable(b.Place(t), inRange)
  {
    if b.open != [] {
      var top := b.open[|b.open| - 1];
      assert OpenWritable(top, inRange);
      match top
      case OpenArray(_, items) => ItemsWritableAppend(items, t, inRange);
      case OpenObject(_, entries, key) => EntriesWritableAppend(entries, Entry(key.value, t), inRange);
    }
  }

  lemma TakenWritable(b: Builder<FloatText>, call: Call<FloatText>, inRange: FloatText -> bool)
    requires b.CanTake(call) && AllWritable(b, inRange) && Clean(call, inRange)
    ensures AllWritable(b.Take(call), inRange)
  {
    match call
    case WriteLeaf(leaf) => PlacedWritable(b, Leaf(leaf), inRange);
    case EndArray => EndedWritable(b, inRange);
    case EndObject => EndedWritable(b, inRange);
    case WriteKey(key) => assert OpenWritable(b.open[|b.open| - 1], inRange);
    case _ =>
  }

  lemma EndedWritable(b: Builder<FloatText>, inRange: FloatText -> bool)
    requires b.CanClose() && AllWritable(b, inRange)
    ensures AllWritable(Builder(b.open[..|b.open| - 1], b.root).Place(b.open[|b.open| - 1].Closed()), inRange)
  {
    assert OpenWritable(b.open[|b.open| - 1], inRange);
    PlacedWritable(Builder(b.open[..|b.open| - 1], b.root), b.open[|b.open| - 1].Closed(), inRange);
  }

  lemma FramesMatchPlaced(s: W.State, b: Builder<FloatText>, indent: nat, max: nat, t: Value)
    requires FramesMatch(s, b, max) && W.Begun(s, indent).Ok? && |b.open| + Depth(t) <= max
    ensures b.Ready() && b.root.None?
    ensures FramesMatch(W.Begun(s, indent).value, b.Place(t), max)
  {
    ReadyWhenBegun(s, b, indent, max);
    if b.open != [] {
      WithDepth(b.open[|b.open| - 1], t);
    }
  }

  lemma FramesMatchOpened(s: W.State, b: Builder<FloatText>, indent: nat, max: nat, isObject: bool, size: U64)
    requires FramesMatch(s, b, max) && W.Opened(s, indent, max, isObject).refusal.None?
    ensures b.Ready() && b.root.None?
    ensures FramesMatch(W.Opened(s, indent, max, isObject).state,
                        b.Take(if isObject then BeginObject(size) else BeginArray(size)), max)
  {
    hide W.Separator;
    ReadyWhenBegun(s, b, indent, max);
  }

  lemma FramesMatchKeyed(s: W.State, b: Builder<FloatText>, indent: nat, max: nat, key: Text)
    requires FramesMatch(s, b, max) && W.Keyed(s, indent, key).refusal.None?
    ensures b.CanTake(WriteKey(key)) && b.root.None?
    ensures FramesMatch(W.Keyed(s, indent, key).state, b.Take(WriteKey(key)), max)
    ensures FrameMatches(s.stack[|b.open| - 1], b.open[|b.open| - 1], false)
  {
    assert FrameMatches(s.stack[|b.open| - 1], b.open[|b.open| - 1], false);
  }

  /** The innermost container holds no more parts than a `size_t` can count. */
  predicate CountsFit(b: Builder<FloatText>) {
    b.open != [] ==> b.open[|b.open| - 1].Count() < TWO_64
  }

  lemma CanEnd(s: W.State, b: Builder<FloatText>, indent: nat, max: nat, isObject: bool)
    requires FramesMatch(s, b, max) && CountsFit(b) && W.Closed(s, indent, isObject).refusal.None?
    ensures b.root.None? && b.CanTake(if isObject then EndObject else EndArray)
    ensures |b.open| > 1 ==> FrameMatches(s.stack[|b.open| - 2], b.open[|b.open| - 2], true)
  {
    var n := |b.open| - 1;
    assert FrameMatches(s.stack[n], b.open[n], false);
    if n > 0 {
      assert FrameMatches(s.stack[n - 1], b.open[n - 1], true);
    }
  }

  lemma FramesMatchClosed(s: W.State, b: Builder<FloatText>, indent: nat, max: nat, isObject: bool)
    requires FramesMatch(s, b, max) && CountsFit(b) && W.Closed(s, indent, isObject).refusal.None?
    ensures b.root.None? && b.CanTake(if isObject then EndObject else EndArray)
    ensures FramesMatch(W.Closed(s, indent, isObject).state, b.Take(if isObject then EndObject else EndArray), max)
  {
    CanEnd(s, b, indent, max, isObject);
    var n := |b.open| - 1;
    var t := b.open[n].Closed();
    assert Depth(t) == 1 + b.open[n].PartsDepth();
    if n > 0 {
      WithDepth(b.open[n - 1], t);
    }
  }

  // The text of one call

  lemma GapIsSpaces(f: W.Frame, depth: nat, indent: nat)
    ensures AllSpaces(W.Gap(f, depth, indent))
    ensures AllSpaces(W.Newline(depth, indent))
  {
  }

  lemma SeparatedToken(output: seq<Byte>, pos: nat, tokens: seq<Token>, f: W.Frame, depth: nat, indent: nat, token: Token)
    requires LaidThrough(output, pos, tokens)
    ensures LaidThrough(output + W.Separator(f, depth, indent) + token, pos, tokens + (Comma(!f.hasItems) + [token]))
  {
    hide LaidThrough;
    var gap := W.Gap(f, depth, indent);
    GapIsSpaces(f, depth, indent);
    if f.hasItems {
      LaidMore(output, pos, tokens, [], [COMMA]);
      assert output + [] + [COMMA] == output + [COMMA];
      LaidMore(output + [COMMA], pos, tokens + [[COMMA]], gap, token);
      assert output + ([COMMA] + gap) == output + [COMMA] + gap;
      assert tokens + ([[COMMA]] + [token]) == tokens + [[COMMA]] + [token];
    } else {
      LaidMore(output, pos, tokens, gap, token);
      assert output + ([] + gap) == output + gap;
      assert [] + [token] == [token];
    }
  }

  /** The first token of the next value, after what separates it from the values before. */
  lemma BegunToken(s: W.State, b: Builder<FloatText>, pos: nat, indent: nat, max: nat, token: Token)
    requires FramesMatch(s, b, max) && W.Begun(s, indent).Ok?
    requires LaidThrough(s.output, pos, BuilderTokens(b))
    ensures LaidThrough(W.Begun(s, indent).value.output + token, pos, BuilderTokens(b) + (Lead(b.open) + [token]))
  {
    hide LaidThrough, W.Separator, BuilderTokens;
    ReadyWhenBegun(s, b, indent, max);
    if b.open != [] && b.open[|b.open| - 1].OpenArray? {
      SeparatedToken(s.output, pos, BuilderTokens(b), W.Top(s.stack), |s.stack|, indent, token);
    } else {
      LaidMore(s.output, pos, BuilderTokens(b), [], token);
      assert s.output + [] + token == s.output + token;
      assert [] + [token] == [token];
    }
  }

  lemma LaidLeaf(s: W.State, b: Builder<FloatText>, pos: nat, indent: nat, max: nat, leaf: Leaf<FloatText>)
    requires FramesMatch(s, b, max) && W.Begun(s, indent).Ok?
    requires b.Ready() && b.root.None?
    requires LaidThrough(s.output, pos, BuilderTokens(b))
    ensures LaidThrough(W.Begun(s, indent).value.output + W.LeafText(leaf), pos, BuilderTokens(b.Take(WriteLeaf(leaf))))
  {
    hide LaidThrough, W.Begun, W.LeafText, FramesMatch, BuilderTokens;
    BegunToken(s, b, pos, indent, max, LeafToken(leaf));
    PlaceTokens(b, Leaf(leaf));
  }

  lemma LaidOpening(s: W.State, b: Builder<FloatText>, pos: nat, indent: nat, max: nat, isObject: bool, size: U64)
    requires FramesMatch(s, b, max) && W.Opened(s, indent, max, isObject).refusal.None?
    requires b.Ready() && b.root.None?
    requires LaidThrough(s.output, pos, BuilderTokens(b))
    ensures LaidThrough(W.Opened(s, indent, max, isObject).state.output, pos,
                        BuilderTokens(b.Take(if isObject then BeginObject(size) else BeginArray(size))))
  {
    hide LaidThrough, W.Begun, FramesMatch, BuilderTokens;
    BegunToken(s, b, pos, indent, max, Bracket(isObject));
    OpenedTokens(b, isObject, size);
    ConcatAssociative(BuilderTokens(b), Lead(b.open), [Bracket(isObject)]);
  }

  lemma LaidKey(s: W.State, b: Builder<FloatText>, pos: nat, indent: nat, key: Text)
    requires W.Keyed(s, indent, key).refusal.None?
    requires b.CanTake(WriteKey(key)) && b.root.None?
    requires FrameMatches(W.Top(s.stack), b.open[|b.open| - 1], false)
    requires LaidThrough(s.output, pos, BuilderTokens(b))
    ensures LaidThrough(W.Keyed(s, indent, key).state.output, pos, BuilderTokens(b.Take(WriteKey(key))))
  {
    hide LaidThrough, W.Separator, BuilderTokens, Quoted;
    var top, entries := W.Top(s.stack), b.open[|b.open| - 1].entries;
    var before := s.output + W.Separator(top, |s.stack|, indent) + KeyToken(key);
    var tokens := BuilderTokens(b) + (Comma(entries == []) + [KeyToken(key)]);
    SeparatedToken(s.output, pos, BuilderTokens(b), top, |s.stack|, indent, KeyToken(key));
    LaidMore(before, pos, tokens, [], [COLON]);
    assert before + [] + [COLON] == before + [COLON];
    KeyedTokens(b, key);
    assert tokens + [[COLON]] == BuilderTokens(b) + (Comma(entries == []) + KeyTokens(key));
    if indent > 0 {
      LaidGap(before + [COLON], pos, tokens + [[COLON]], [W.SPACE]);
      assert before + [COLON] + [W.SPACE] == before + [COLON, W.SPACE];
    }
  }

  lemma LaidClosing(s: W.State, b: Builder<FloatText>, pos: nat, indent: nat, isObject: bool)
    requires W.Closed(s, indent, isObject).refusal.None?
    requires b.CanTake(if isObject then EndObject else EndArray) && b.root.None?
    requires LaidThrough(s.output, pos, BuilderTokens(b))
    ensures LaidThrough(W.Closed(s, indent, isObject).state.output, pos,
                        BuilderTokens(b.Take(if isObject then EndObject else EndArray)))
  {
    hide LaidThrough, BuilderTokens;
    var top := W.Top(s.stack);
    var gap := if top.hasItems && !top.isInline then W.Newline(|s.stack| - 1, indent) else [];
    GapIsSpaces(top, |s.stack| - 1, indent);
    LaidMore(s.output, pos, BuilderTokens(b), gap, EndBracket(isObject));
    ClosedTokens(b, isObject);
  }
}
