/**
 The value a run of writer calls has built so far: the containers still open, outermost first, with
 the parts already inside them, or the finished root value.
 */
module Building {
  import opened Bytes
  import opened Serial

  datatype Open<F> =
    | OpenArray(declared: U64, items: seq<Tree<F>>)
    | OpenObject(declared: U64, entries: seq<Entry<F>>, key: Option<Text>)
  {
    function Count(): nat {
      if OpenArray? then |items| else |entries|
    }

    /** A value may come next: an object needs a key first. */
    predicate Ready() {
      OpenArray? || key.Some?
    }

    function With(t: Tree<F>): Open<F>
      requires Ready()
    {
      if OpenArray? then OpenArray(declared, items + [t])
      else OpenObject(declared, entries + [Entry(key.value, t)], None)
    }

    function PartsDepth(): nat {
      if OpenArray? then ItemsDepth(items) else EntriesDepth(entries)
    }

    /** The finished container. */
    function Closed(): Tree<F>
      requires Count() < TWO_64
    {
      if OpenArray? then Array(items) else Object(entries)
    }
  }

  datatype Builder<F> = Builder(open: seq<Open<F>>, root: Option<Tree<F>>) {

    predicate Ready() {
      if open == [] then root.None? else open[|open| - 1].Ready()
    }

    function Place(t: Tree<F>): Builder<F>
      requires Ready()
    {
      if open == [] then Builder([], Some(t))
      else Builder(open[..|open| - 1] + [open[|open| - 1].With(t)], root)
    }

    predicate CanTake(call: Call<F>) {
      match call
      case WriteLeaf(_) => Ready()
      case BeginArray(_) => Ready()
      case BeginObject(_) => Ready()
      case WriteKey(_) => open != [] && open[|open| - 1].OpenObject? && open[|open| - 1].key.None?
      case EndArray => open != [] && open[|open| - 1].OpenArray? && CanClose()
      case EndObject =>
        open != [] && open[|open| - 1].OpenObject? && open[|open| - 1].key.None? && CanClose()
      case PreferInline => true
    }

    predicate CanClose() {
      && open != []
      && open[|open| - 1].Count() < TWO_64
      && Builder(open[..|open| - 1], root).Ready()
    }

    function Take(call: Call<F>): Builder<F>
      requires CanTake(call)
    {
      match call
      case WriteLeaf(leaf) => Place(Leaf(leaf))
      case BeginArray(size) => Builder(open + [OpenArray(size, [])], root)
      case BeginObject(size) => Builder(open + [OpenObject(size, [], None)], root)
      case WriteKey(key) =>
        Builder(open[..|open| - 1] + [open[|open| - 1].(key := Some(key))], root)
      case EndArray => Builder(open[..|open| - 1], root).Place(open[|open| - 1].Closed())
      case EndObject => Builder(open[..|open| - 1], root).Place(open[|open| - 1].Closed())
      case PreferInline => this
    }
  }

  // Depth of parts added one at a time

  lemma {:induction false} ItemsDepthAppend<F>(items: seq<Tree<F>>, t: Tree<F>)
    ensures ItemsDepth(items + [t]) == Max(ItemsDepth(items), Depth(t))
  {
    if items == [] {
      assert items + [t] == [t];
      assert [t][1..] == [];
    } else {
      assert (items + [t])[1..] == items[1..] + [t];
      ItemsDepthAppend(items[1..], t);
    }
  }

  lemma {:induction false} EntriesDepthAppend<F>(entries: seq<Entry<F>>, e: Entry<F>)
    ensures EntriesDepth(entries + [e]) == Max(EntriesDepth(entries), Depth(e.value))
  {
    if entries == [] {
      assert entries + [e] == [e];
      assert [e][1..] == [];
    } else {
      assert (entries + [e])[1..] == entries[1..] + [e];
      EntriesDepthAppend(entries[1..], e);
    }
  }

  // The calls that lead to a builder

  function OpenCalls<F>(o: Open<F>): seq<Call<F>> {
    match o
    case OpenArray(declared, items) => [BeginArray(declared)] + ItemCalls(items)
    case OpenObject(declared, entries, key) =>
      [BeginObject(declared)] + EntryCalls(entries) + (if key.Some? then [WriteKey(key.value)] else [])
  }

  function AllOpenCalls<F>(open: seq<Open<F>>): seq<Call<F>> {
    if open == [] then [] else AllOpenCalls(open[..|open| - 1]) + OpenCalls(open[|open| - 1])
  }

  function BuilderCalls<F>(b: Builder<F>): seq<Call<F>> {
    if b.root.Some? then Calls(b.root.value) else AllOpenCalls(b.open)
  }

  lemma {:induction false} ItemCallsAppend<F>(items: seq<Tree<F>>, t: Tree<F>)
    ensures ItemCalls(items + [t]) == ItemCalls(items) + Calls(t)
  {
    if items == [] {
      assert items + [t] == [t];
      assert [t][1..] == [];
    } else {
      assert (items + [t])[1..] == items[1..] + [t];
      ItemCallsAppend(items[1..], t);
    }
  }

  lemma {:induction false} EntryCallsAppend<F>(entries: seq<Entry<F>>, e: Entry<F>)
    ensures EntryCalls(entries + [e]) == EntryCalls(entries) + [WriteKey(e.key)] + Calls(e.value)
  {
    if entries == [] {
      assert entries + [e] == [e];
      assert [e][1..] == [];
    } else {
      assert (entries + [e])[1..] == entries[1..] + [e];
      EntryCallsAppend(entries[1..], e);
    }
  }

  lemma AllOpenCallsAppend<F>(open: seq<Open<F>>, o: Open<F>)
    ensures AllOpenCalls(open + [o]) == AllOpenCalls(open) + OpenCalls(o)
  {
    assert (open + [o])[..|open|] == open;
  }

  lemma WithCalls<F>(o: Open<F>, t: Tree<F>)
    requires o.Ready()
    ensures OpenCalls(o.With(t)) == OpenCalls(o) + Calls(t)
  {
    match o
    case OpenArray(declared, items) =>
      ItemCallsAppend(items, t);
    case OpenObject(declared, entries, key) =>
      EntryCallsAppend(entries, Entry(key.value, t));
  }

  lemma PlaceCalls<F>(b: Builder<F>, t: Tree<F>)
    requires b.Ready() && b.root.None?
    ensures BuilderCalls(b.Place(t)) == BuilderCalls(b) + Calls(t)
  {
    if b.open != [] {
      var outer, top := b.open[..|b.open| - 1], b.open[|b.open| - 1];
      WithCalls(top, t);
      AllOpenCallsAppend(outer, top.With(t));
      ConcatAssociative(AllOpenCalls(outer), OpenCalls(top), Calls(t));
    }
  }

  /** A builder is the record of the calls it took; a container counts when it holds what it declared. */
  lemma TakeCalls<F>(b: Builder<F>, call: Call<F>)
    requires b.CanTake(call) && b.root.None? && !call.PreferInline?
    requires call.EndArray? || call.EndObject? ==> b.open[|b.open| - 1].Count() == b.open[|b.open| - 1].declared
    ensures BuilderCalls(b.Take(call)) == BuilderCalls(b) + [call]
  {
    match call
    case WriteLeaf(leaf) => PlaceCalls(b, Leaf(leaf));
    case BeginArray(size) => BeginCalls(b, OpenArray(size, []), call);
    case BeginObject(size) => BeginCalls(b, OpenObject(size, [], None), call);
    case WriteKey(key) => KeyCalls(b, key);
    case EndArray => CloseCalls(b, call);
    case EndObject => CloseCalls(b, call);
  }

  lemma BeginCalls<F>(b: Builder<F>, o: Open<F>, call: Call<F>)
    requires b.root.None? && o.Count() == 0 && (o.OpenObject? ==> o.key.None?)
    requires call == if o.OpenArray? then BeginArray(o.declared) else BeginObject(o.declared)
    ensures BuilderCalls(Builder(b.open + [o], b.root)) == BuilderCalls(b) + [call]
  {
    AllOpenCallsAppend(b.open, o);
    assert [call] + [] == [call];
    assert OpenCalls(o) == [call];
  }

  lemma KeyCalls<F>(b: Builder<F>, key: Text)
    requires b.CanTake(WriteKey(key)) && b.root.None?
    ensures BuilderCalls(b.Take(WriteKey(key))) == BuilderCalls(b) + [WriteKey(key)]
  {
    var outer, top := b.open[..|b.open| - 1], b.open[|b.open| - 1];
    AllOpenCallsAppend(outer, top.(key := Some(key)));
    assert OpenCalls(top.(key := Some(key))) == OpenCalls(top) + [WriteKey(key)];
    ConcatAssociative(AllOpenCalls(outer), OpenCalls(top), [WriteKey(key)]);
  }

  lemma CloseCalls<F>(b: Builder<F>, call: Call<F>)
    requires b.CanTake(call) && b.root.None? && (call.EndArray? || call.EndObject?)
    requires b.open[|b.open| - 1].Count() == b.open[|b.open| - 1].declared
    ensures BuilderCalls(b.Take(call)) == BuilderCalls(b) + [call]
  {
    var outer, top := b.open[..|b.open| - 1], b.open[|b.open| - 1];
    assert BuilderCalls(b.Take(call)) == BuilderCalls(Builder(outer, b.root)) + Calls(top.Closed()) by {
      PlaceCalls(Builder(outer, b.root), top.Closed());
    }
    assert Calls(top.Closed()) == OpenCalls(top) + [call] by {
      ClosedCalls(top);
    }
    ConcatAssociative(AllOpenCalls(outer), OpenCalls(top), [call]);
  }

  lemma ClosedCalls<F>(o: Open<F>)
    requires o.Count() == o.declared && (o.OpenObject? ==> o.key.None?)
    ensures Calls(o.Closed()) == OpenCalls(o) + [if o.OpenArray? then EndArray else EndObject]
  {
    match o
    case OpenArray(declared, items) =>
    case OpenObject(declared, entries, _) =>
      var begun := [BeginObject(declared)] + EntryCalls(entries);
      assert begun + [] == begun;
  }

  // Building a value from its calls

  predicate Begins<F>(call: Call<F>) {
    call.BeginArray? || call.BeginObject?
  }

  /** The builder after the calls, if it can take them all and never opens more than `max` containers. */
  function TakeWithin<F>(b: Builder<F>, calls: seq<Call<F>>, max: nat): Option<Builder<F>>
    decreases |calls|
  {
    if calls == [] then Some(b)
    else if !b.CanTake(calls[0]) || (Begins(calls[0]) && |b.open| >= max) then None
    else TakeWithin(b.Take(calls[0]), calls[1..], max)
  }

  lemma {:induction false} TakeWithinConcat<F>(b: Builder<F>, x: seq<Call<F>>, y: seq<Call<F>>, max: nat)
    ensures TakeWithin(b, x + y, max)
         == match TakeWithin(b, x, max)
            case None => None
            case Some(middle) => TakeWithin(middle, y, max)
    decreases |x|
  {
    if x == [] {
      assert x + y == y;
    } else {
      assert (x + y)[1..] == x[1..] + y;
      if b.CanTake(x[0]) {
        TakeWithinConcat(b.Take(x[0]), x[1..], y, max);
      }
    }
  }

  lemma TakeWithinOne<F>(b: Builder<F>, call: Call<F>, max: nat)
    ensures TakeWithin(b, [call], max)
         == if !b.CanTake(call) || (Begins(call) && |b.open| >= max) then None else Some(b.Take(call))
  {
  }

  /** The calls that write a value build it. */
  lemma {:induction false} TakeWithinTree<F>(b: Builder<F>, t: Tree<F>, max: nat)
    requires b.Ready() && |b.open| + Depth(t) <= max
    ensures TakeWithin(b, Calls(t), max) == Some(b.Place(t))
    decreases t, 1
  {
    match t
    case Leaf(leaf) => TakeWithinOne(b, WriteLeaf(leaf), max);
    case Array(items) =>
      var begun := b.Take(BeginArray(|items|));
      TakeWithinItems(begun, items, max);
      TakeWithinContainer(b, BeginArray(|items|), ItemCalls(items), EndArray, max,
                          WithItems(begun, items));
      Restored(b, OpenArray(|items|, items));
      assert [] + items == items;
    case Object(entries) =>
      var begun := b.Take(BeginObject(|entries|));
      TakeWithinEntries(begun, entries, max);
      TakeWithinContainer(b, BeginObject(|entries|), EntryCalls(entries), EndObject, max,
                          WithEntries(begun, entries));
      Restored(b, OpenObject(|entries|, entries, None));
      assert [] + entries == entries;
  }

  lemma TakeWithinContainer<F>(b: Builder<F>, begin: Call<F>, body: seq<Call<F>>, end: Call<F>, max: nat,
                               full: Builder<F>)
    requires Begins(begin) && b.CanTake(begin) && |b.open| < max
    requires TakeWithin(b.Take(begin), body, max) == Some(full)
    requires !Begins(end) && full.CanTake(end)
    ensures TakeWithin(b, [begin] + body + [end], max) == Some(full.Take(end))
  {
    TakeWithinConcat(b, [begin] + body, [end], max);
    TakeWithinConcat(b, [begin], body, max);
    TakeWithinOne(b, begin, max);
    TakeWithinOne(full, end, max);
  }

  lemma Restored<F>(b: Builder<F>, o: Open<F>)
    ensures (b.open + [o])[..|b.open|] == b.open
  {
  }

  function WithItems<F>(b: Builder<F>, items: seq<Tree<F>>): Builder<F>
    requires b.open != [] && b.open[|b.open| - 1].OpenArray?
  {
    var top := b.open[|b.open| - 1];
    Builder(b.open[..|b.open| - 1] + [top.(items := top.items + items)], b.root)
  }

  function WithEntries<F>(b: Builder<F>, entries: seq<Entry<F>>): Builder<F>
    requires b.open != [] && b.open[|b.open| - 1].OpenObject?
  {
    var top := b.open[|b.open| - 1];
    Builder(b.open[..|b.open| - 1] + [top.(entries := top.entries + entries)], b.root)
  }

  lemma {:induction false} TakeWithinItems<F>(b: Builder<F>, items: seq<Tree<F>>, max: nat)
    requires b.open != [] && b.open[|b.open| - 1].OpenArray?
    requires |b.open| + ItemsDepth(items) <= max
    ensures TakeWithin(b, ItemCalls(items), max) == Some(WithItems(b, items))
    decreases items, 0
  {
    var top := b.open[|b.open| - 1];
    if items == [] {
      assert top.items + [] == top.items;
      assert b.open[..|b.open| - 1] + [top] == b.open;
    } else {
      TakeWithinConcat(b, Calls(items[0]), ItemCalls(items[1..]), max);
      TakeWithinTree(b, items[0], max);
      TakeWithinItems(b.Place(items[0]), items[1..], max);
      assert top.items + [items[0]] + items[1..] == top.items + items;
    }
  }

  lemma {:induction false} TakeWithinEntries<F>(b: Builder<F>, entries: seq<Entry<F>>, max: nat)
    requires b.open != [] && b.open[|b.open| - 1].OpenObject? && b.open[|b.open| - 1].key.None?
    requires |b.open| + EntriesDepth(entries) <= max
    ensures TakeWithin(b, EntryCalls(entries), max) == Some(WithEntries(b, entries))
    decreases entries, 0
  {
    var top := b.open[|b.open| - 1];
    if entries == [] {
      assert top.entries + [] == top.entries;
      assert b.open[..|b.open| - 1] + [top] == b.open;
    } else {
      var e := entries[0];
      TakeWithinConcat(b, [WriteKey(e.key)] + Calls(e.value), EntryCalls(entries[1..]), max);
      TakeWithinConcat(b, [WriteKey(e.key)], Calls(e.value), max);
      TakeWithinOne(b, WriteKey(e.key), max);
      TakeWithinTree(b.Take(WriteKey(e.key)), e.value, max);
      var next := b.Take(WriteKey(e.key)).Place(e.value);
      assert next == WithEntries(b, [e]);
      TakeWithinEntries(next, entries[1..], max);
      assert top.entries + [e] + entries[1..] == top.entries + entries;
    }
  }

  function WithoutHints<F>(calls: seq<Call<F>>): seq<Call<F>>
    decreases |calls|
  {
    if calls == [] then []
    else (if calls[0].PreferInline? then [] else [calls[0]]) + WithoutHints(calls[1..])
  }

  /** Hints build nothing. */
  lemma {:induction false} HintsBuildNothing<F>(b: Builder<F>, calls: seq<Call<F>>, max: nat)
    ensures TakeWithin(b, calls, max) == TakeWithin(b, WithoutHints(calls), max)
    decreases |calls|
  {
    if calls != [] {
      var rest := WithoutHints(calls[1..]);
      if calls[0].PreferInline? {
        assert [] + rest == rest;
        HintsBuildNothing(b, calls[1..], max);
      } else {
        assert ([calls[0]] + rest)[1..] == rest;
        if b.CanTake(calls[0]) {
          HintsBuildNothing(b.Take(calls[0]), calls[1..], max);
        }
      }
    }
  }
}
