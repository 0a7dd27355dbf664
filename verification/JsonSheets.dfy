/**
 The text of any run of writer calls that spoils nothing: which calls are carried out is told from the parts
 collected so far, and the text is those parts as they are printed.
 */
module JsonSheets {
  import opened Bytes
  import opened Serial
  import opened Building
  import opened JsonNumber
  import opened JsonText
  import opened JsonGrammar
  import W = JsonWriter
  import opened JsonLayout
  import opened JsonProtocol
  import opened JsonRuns
  import opened JsonTheorems
  import opened JsonPrinting
  import Utf8

  /** A container that is still open, with the parts already in it. */
  datatype Page =
    | OpenList(flat: bool, items: seq<Doc>)
    | OpenRecord(flat: bool, parts: seq<Part>, key: Option<Text>)
  {
    predicate IsReady() {
      OpenList? || key.Some?
    }

    function With(d: Doc): Page
      requires IsReady()
    {
      if OpenList? then OpenList(flat, items + [d]) else OpenRecord(flat, parts + [Part(key.value, d)], None)
    }

    function Finished(): Doc {
      if OpenList? then List(flat, items) else Record(flat, parts)
    }
  }

  /** What a run of calls has collected; a hint marks the container that is begun next. */
  datatype Sheet = Sheet(open: seq<Page>, root: Option<Doc>, hinted: bool) {

    predicate IsReady() {
      if open == [] then root.None? else open[|open| - 1].IsReady()
    }

    function Place(d: Doc): Sheet
      requires IsReady()
    {
      if open == [] then this.(root := Some(d)) else this.(open := open[..|open| - 1] + [open[|open| - 1].With(d)])
    }

    /** The containers inside a flat one are flat too. */
    function IsNextFlat(): bool {
      hinted || (open != [] && open[|open| - 1].flat)
    }

    predicate Accepts(call: Call<FloatText>, max: nat) {
      match call
      case WriteLeaf(leaf) => IsReady() && (leaf.Str? ==> Utf8.Valid(leaf.text))
      case BeginArray(_) => IsReady() && |open| < max
      case BeginObject(_) => IsReady() && |open| < max
      case WriteKey(key) => open != [] && open[|open| - 1].OpenRecord? && open[|open| - 1].key.None? && Utf8.Valid(key)
      case EndArray => open != [] && open[|open| - 1].OpenList? && IsRest()
      case EndObject => open != [] && open[|open| - 1].OpenRecord? && open[|open| - 1].key.None? && IsRest()
      case PreferInline => true
    }

    /** The open containers around the innermost one wait for it. */
    predicate IsRest() {
      open != [] && Sheet(open[..|open| - 1], root, hinted).IsReady()
    }

    function Take(call: Call<FloatText>, max: nat): Sheet
      requires Accepts(call, max)
    {
      match call
      case WriteLeaf(leaf) => Place(Scalar(leaf))
      case BeginArray(_) => Sheet(open + [OpenList(IsNextFlat(), [])], root, false)
      case BeginObject(_) => Sheet(open + [OpenRecord(IsNextFlat(), [], None)], root, false)
      case WriteKey(key) => this.(open := open[..|open| - 1] + [open[|open| - 1].(key := Some(key))])
      case EndArray => this.(open := open[..|open| - 1]).Place(open[|open| - 1].Finished())
      case EndObject => this.(open := open[..|open| - 1]).Place(open[|open| - 1].Finished())
      case PreferInline => this.(hinted := true)
    }
  }

  /** What all calls of a run collect; those that are not accepted collect nothing. */
  function Collected(calls: JsonCalls, max: nat): Sheet
    decreases |calls|
  {
    if calls == [] then Sheet([], None, false)
    else
      var earlier, last := Collected(calls[..|calls| - 1], max), calls[|calls| - 1];
      if earlier.Accepts(last, max) then earlier.Take(last, max) else earlier
  }

  // The text of a sheet

  function PageText(o: Page, indent: nat, depth: nat): seq<Byte> {
    match o
    case OpenList(flat, items) => [0x5B] + PrintedItems(items, flat, indent, depth)
    case OpenRecord(flat, parts, key) =>
      [0x7B] + PrintedParts(parts, flat, indent, depth)
      + if key.Some? then Before(flat, parts == [], indent, depth) + KeyText(key.value, indent) else []
  }

  /** What stands before the value that is placed next. */
  function LeadText(open: seq<Page>, indent: nat): seq<Byte> {
    if open == [] || open[|open| - 1].OpenRecord? then []
    else Before(open[|open| - 1].flat, open[|open| - 1].items == [], indent, |open|)
  }

  function OpenText(open: seq<Page>, indent: nat): seq<Byte> {
    if open == [] then []
    else
      OpenText(open[..|open| - 1], indent) + LeadText(open[..|open| - 1], indent)
      + PageText(open[|open| - 1], indent, |open|)
  }

  function SheetText(s: Sheet, indent: nat): seq<Byte> {
    if s.root.Some? then Printed(s.root.value, indent, 0) else OpenText(s.open, indent)
  }

  // The writer's frames and the open containers

  /** `busy` tells that the container's next part is itself open. */
  ghost predicate FrameFits(f: W.Frame, o: Page, busy: bool) {
    && f.isInline == o.flat
    && match o
       case OpenList(_, items) => !f.isObject && !f.awaiting && f.hasItems == (items != [] || busy)
       case OpenRecord(_, parts, key) =>
         && f.isObject && f.hasItems == (parts != [] || key.Some?)
         && (busy ==> key.Some?) && f.awaiting == (key.Some? && !busy)
  }

  ghost predicate Fits(s: W.State, sheet: Sheet, prefix: seq<Byte>, indent: nat) {
    && |s.stack| == |sheet.open|
    && s.started == (sheet.root.Some? || sheet.open != [])
    && (sheet.root.Some? ==> sheet.open == [])
    && s.inlineNext == sheet.hinted
    && (forall i :: 0 <= i < |sheet.open| ==> FrameFits(s.stack[i], sheet.open[i], i + 1 < |sheet.open|))
    && s.output == prefix + SheetText(sheet, indent)
  }

  // One call

  lemma OpenTextAppend(open: seq<Page>, o: Page, indent: nat)
    ensures OpenText(open + [o], indent) == OpenText(open, indent) + LeadText(open, indent) + PageText(o, indent, |open| + 1)
  {
    hide LeadText, PageText;
    assert (open + [o])[..|open|] == open;
  }

  lemma ItemsText(items: seq<Doc>, d: Doc, flat: bool, indent: nat, depth: nat)
    ensures PrintedItems(items + [d], flat, indent, depth)
         == PrintedItems(items, flat, indent, depth) + Before(flat, items == [], indent, depth) + Printed(d, indent, depth)
  {
    hide Printed, Before;
    assert (items + [d])[..|items|] == items;
  }

  lemma PartsText(parts: seq<Part>, key: Text, d: Doc, flat: bool, indent: nat, depth: nat)
    ensures PrintedParts(parts + [Part(key, d)], flat, indent, depth)
         == PrintedParts(parts, flat, indent, depth) + Before(flat, parts == [], indent, depth) + KeyText(key, indent)
            + Printed(d, indent, depth)
  {
    hide Printed, Before, KeyText;
    assert (parts + [Part(key, d)])[..|parts|] == parts;
  }

  lemma WithText(o: Page, d: Doc, indent: nat, depth: nat)
    requires o.IsReady()
    ensures PageText(o.With(d), indent, depth)
         == PageText(o, indent, depth)
            + (if o.OpenList? then Before(o.flat, o.items == [], indent, depth) else []) + Printed(d, indent, depth)
  {
    hide Printed, Before, KeyText, PrintedItems, PrintedParts;
    var text := Printed(d, indent, depth);
    match o
    case OpenList(flat, items) =>
      ItemsText(items, d, flat, indent, depth);
      Regroup4([0x5B], PrintedItems(items, flat, indent, depth), Before(flat, items == [], indent, depth), text);
    case OpenRecord(flat, parts, key) =>
      PartsText(parts, key.value, d, flat, indent, depth);
      var before, name := Before(flat, parts == [], indent, depth), KeyText(key.value, indent);
      Regroup5([0x7B], PrintedParts(parts, flat, indent, depth), before, name, text);
  }

  lemma Regroup4(a: seq<Byte>, b: seq<Byte>, c: seq<Byte>, d: seq<Byte>)
    ensures a + (b + c + d) == a + b + c + d
  {
  }

  lemma Regroup5(a: seq<Byte>, b: seq<Byte>, c: seq<Byte>, d: seq<Byte>, e: seq<Byte>)
    ensures a + (b + c + d + e) + [] == a + b + (c + d) + [] + e
  {
  }

  lemma PlaceText(s: Sheet, d: Doc, indent: nat)
    requires s.IsReady() && s.root.None?
    ensures SheetText(s.Place(d), indent)
         == SheetText(s, indent) + LeadText(s.open, indent) + Printed(d, indent, |s.open|)
  {
    hide Printed, Before, PageText;
    if s.open == [] {
      assert [] + [] + Printed(d, indent, 0) == Printed(d, indent, 0);
    } else {
      var outer, top := s.open[..|s.open| - 1], s.open[|s.open| - 1];
      assert s.open == outer + [top];
      WithText(top, d, indent, |s.open|);
      OpenTextAppend(outer, top.With(d), indent);
      var lead: seq<Byte> := if top.OpenList? then Before(top.flat, top.items == [], indent, |s.open|) else [];
      Regroup4(OpenText(outer, indent) + LeadText(outer, indent), PageText(top, indent, |s.open|), lead,
               Printed(d, indent, |s.open|));
    }
  }

  lemma GapIsBefore(f: W.Frame, o: Page, indent: nat, depth: nat)
    requires FrameFits(f, o, false)
    ensures W.Separator(f, depth, indent)
         == Before(o.flat, if o.OpenList? then o.items == [] else o.parts == [] && o.key.None?, indent, depth)
  {
    NewlineIsLineStart(indent, depth);
    if f.isInline && f.hasItems && indent > 0 {
      assert [0x2C] + [0x20] == [0x2C, 0x20];
    }
    if f.isInline && f.hasItems && indent == 0 {
      assert [0x2C] + [] == [0x2C];
    }
  }

  lemma NewlineIsLineStart(indent: nat, depth: nat)
    ensures W.Newline(depth, indent) == LineStart(indent, depth)
  {
    if indent > 0 {
      var text := LineStart(indent, depth);
      assert text[1..] == W.Spaces(depth * indent);
      assert text == [text[0]] + text[1..];
    }
  }

  lemma FramePlaced(f: W.Frame, o: Page, d: Doc)
    requires FrameFits(f, o, true)
    ensures o.IsReady() && FrameFits(f, o.With(d), false)
  {
  }

  /** A value may be written where the sheet waits for one; what separates it from the last one is written first. */
  lemma BegunFits(s: W.State, sheet: Sheet, prefix: seq<Byte>, indent: nat)
    requires Fits(s, sheet, prefix, indent)
    ensures W.Begun(s, indent).Ok? <==> sheet.IsReady()
    ensures sheet.IsReady() ==>
              var begun := W.Begun(s, indent).value;
              && sheet.root.None? && begun.started && begun.inlineNext == s.inlineNext
              && begun.output == prefix + (SheetText(sheet, indent) + LeadText(sheet.open, indent))
              && |begun.stack| == |sheet.open|
              && forall i :: 0 <= i < |sheet.open| ==> FrameFits(begun.stack[i], sheet.open[i], true)
  {
    hide W.Separator, Before, SheetText;
    if sheet.open == [] {
      assert SheetText(sheet, indent) + [] == SheetText(sheet, indent);
    } else {
      var n := |sheet.open| - 1;
      var f, o := s.stack[n], sheet.open[n];
      assert FrameFits(f, o, false);
      GapIsBefore(f, o, indent, |s.stack|);
      if W.Begun(s, indent).Ok? {
        var lead := LeadText(sheet.open, indent);
        assert prefix + SheetText(sheet, indent) + lead == prefix + (SheetText(sheet, indent) + lead);
        assert SheetText(sheet, indent) + [] == SheetText(sheet, indent);
      }
    }
  }

  /** A part is placed where it was begun. */
  lemma PlacedFits(begun: W.State, sheet: Sheet, prefix: seq<Byte>, indent: nat, d: Doc)
    requires sheet.IsReady() && sheet.root.None? && begun.started && begun.inlineNext == sheet.hinted
    requires |begun.stack| == |sheet.open|
    requires forall i :: 0 <= i < |sheet.open| ==> FrameFits(begun.stack[i], sheet.open[i], true)
    requires begun.output
          == prefix + (SheetText(sheet, indent) + LeadText(sheet.open, indent) + Printed(d, indent, |sheet.open|))
    ensures Fits(begun, sheet.Place(d), prefix, indent)
  {
    hide Printed, LeadText, SheetText, FrameFits;
    PlaceText(sheet, d, indent);
    if sheet.open != [] {
      FramePlaced(begun.stack[|sheet.open| - 1], sheet.open[|sheet.open| - 1], d);
    }
  }

  lemma LeafFits(s: W.State, sheet: Sheet, prefix: seq<Byte>, indent: nat, max: nat, leaf: Leaf<FloatText>)
    requires Fits(s, sheet, prefix, indent)
    ensures W.Written(s, indent, leaf).refusal.None? <==> sheet.Accepts(WriteLeaf(leaf), max)
    ensures sheet.Accepts(WriteLeaf(leaf), max) ==>
              Fits(W.Written(s, indent, leaf).state, sheet.Take(WriteLeaf(leaf), max), prefix, indent)
  {
    hide W.Begun, W.LeafText, SheetText, LeadText, Sheet.Place;
    BegunFits(s, sheet, prefix, indent);
    if sheet.Accepts(WriteLeaf(leaf), max) {
      var after := W.Written(s, indent, leaf).state;
      var text := SheetText(sheet, indent) + LeadText(sheet.open, indent);
      ConcatAssociative(prefix, text, W.LeafText(leaf));
      PlacedFits(after, sheet, prefix, indent, Scalar(leaf));
    }
  }

  lemma OpenedText(sheet: Sheet, isObject: bool, flat: bool, prefix: seq<Byte>, indent: nat)
    ensures var o := if isObject then OpenRecord(flat, [], None) else OpenList(flat, []);
            prefix + (OpenText(sheet.open, indent) + LeadText(sheet.open, indent)) + [if isObject then 0x7B else 0x5B]
            == prefix + OpenText(sheet.open + [o], indent)
  {
    hide LeadText, OpenText;
    var o := if isObject then OpenRecord(flat, [], None) else OpenList(flat, []);
    var bracket: seq<Byte> := if isObject then [0x7B] else [0x5B];
    OpenTextAppend(sheet.open, o, indent);
    assert PageText(o, indent, |sheet.open| + 1) == bracket;
    ConcatAssociative(prefix, OpenText(sheet.open, indent) + LeadText(sheet.open, indent), bracket);
  }

  lemma OpeningFits(s: W.State, sheet: Sheet, prefix: seq<Byte>, indent: nat, max: nat, call: Call<FloatText>)
    requires Fits(s, sheet, prefix, indent) && Begins(call)
    ensures W.Opened(s, indent, max, call.BeginObject?).refusal.None? <==> sheet.Accepts(call, max)
    ensures sheet.Accepts(call, max) ==>
              Fits(W.Opened(s, indent, max, call.BeginObject?).state, sheet.Take(call, max), prefix, indent)
  {
    hide W.Begun, LeadText, OpenText, PageText, Printed;
    BegunFits(s, sheet, prefix, indent);
    if |s.stack| < max && sheet.IsReady() {
      if s.stack != [] {
        assert FrameFits(s.stack[|s.stack| - 1], sheet.open[|s.stack| - 1], false);
      }
      OpenedText(sheet, call.BeginObject?, sheet.IsNextFlat(), prefix, indent);
    }
  }

  lemma KeyedText(sheet: Sheet, key: Text, prefix: seq<Byte>, indent: nat)
    requires sheet.open != [] && sheet.open[|sheet.open| - 1].OpenRecord? && sheet.open[|sheet.open| - 1].key.None?
    ensures var n := |sheet.open| - 1;
            var top := sheet.open[n];
            prefix + OpenText(sheet.open, indent) + Before(top.flat, top.parts == [], indent, n + 1) + Quoted(key)
              + W.Colon(indent)
            == prefix + OpenText(sheet.open[..n] + [top.(key := Some(key))], indent)
  {
    hide LeadText, Before, Quoted, PrintedParts;
    var n := |sheet.open| - 1;
    var outer, top := sheet.open[..n], sheet.open[n];
    assert sheet.open == outer + [top];
    OpenTextAppend(outer, top, indent);
    OpenTextAppend(outer, top.(key := Some(key)), indent);
    hide OpenText;
    KeyAppended(prefix, OpenText(outer, indent) + LeadText(outer, indent),
                [0x7B] + PrintedParts(top.parts, top.flat, indent, n + 1),
                Before(top.flat, top.parts == [], indent, n + 1), Quoted(key), W.Colon(indent));
  }

  lemma KeyFits(s: W.State, sheet: Sheet, prefix: seq<Byte>, indent: nat, max: nat, key: Text)
    requires Fits(s, sheet, prefix, indent)
    ensures W.Keyed(s, indent, key).refusal.None? <==> sheet.Accepts(WriteKey(key), max)
    ensures sheet.Accepts(WriteKey(key), max) ==>
              Fits(W.Keyed(s, indent, key).state, sheet.Take(WriteKey(key), max), prefix, indent)
  {
    hide W.Separator, Before, OpenText, Quoted, Printed, W.Colon;
    if sheet.open != [] {
      var n := |sheet.open| - 1;
      assert FrameFits(s.stack[n], sheet.open[n], false);
      if sheet.Accepts(WriteKey(key), max) {
        GapIsBefore(s.stack[n], sheet.open[n], indent, |s.stack|);
        KeyedText(sheet, key, prefix, indent);
        KeyedOutput(prefix + OpenText(sheet.open, indent),
                    Before(sheet.open[n].flat, sheet.open[n].parts == [], indent, n + 1), Quoted(key), W.Colon(indent));
      }
    }
  }

  lemma KeyedOutput(output: seq<Byte>, before: seq<Byte>, key: seq<Byte>, colon: seq<Byte>)
    ensures output + before + (key + colon) == output + before + key + colon
  {
  }

  lemma KeyAppended(prefix: seq<Byte>, outer: seq<Byte>, page: seq<Byte>, before: seq<Byte>, key: seq<Byte>,
                    colon: seq<Byte>)
    ensures prefix + (outer + (page + [])) + before + key + colon == prefix + (outer + (page + (before + (key + colon))))
  {
  }

  lemma ClosingFits(s: W.State, sheet: Sheet, prefix: seq<Byte>, indent: nat, max: nat, call: Call<FloatText>)
    requires Fits(s, sheet, prefix, indent) && (call.EndArray? || call.EndObject?)
    ensures W.Closed(s, indent, call.EndObject?).refusal.None? <==> sheet.Accepts(call, max)
    ensures sheet.Accepts(call, max) ==>
              Fits(W.Closed(s, indent, call.EndObject?).state, sheet.Take(call, max), prefix, indent)
  {
    hide LeadText, W.Newline, SheetText;
    if sheet.open != [] {
      var n := |sheet.open| - 1;
      assert FrameFits(s.stack[n], sheet.open[n], false);
      assert n > 0 ==> FrameFits(s.stack[n - 1], sheet.open[n - 1], true);
      if sheet.Accepts(call, max) {
        var rest := sheet.(open := sheet.open[..n]);
        var after := W.Closed(s, indent, call.EndObject?).state;
        ClosedText(s, sheet, prefix, indent, call.EndObject?);
        PlacedFits(after, rest, prefix, indent, sheet.open[n].Finished());
      }
    }
  }

  lemma GapIsBeforeEnd(f: W.Frame, o: Page, indent: nat, depth: nat)
    requires FrameFits(f, o, false) && (o.OpenRecord? ==> o.key.None?)
    ensures (if f.hasItems && !f.isInline then W.Newline(depth, indent) else [])
         == BeforeEnd(o.flat, if o.OpenList? then o.items == [] else o.parts == [], indent, depth)
  {
    NewlineIsLineStart(indent, depth);
  }

  lemma ClosedText(s: W.State, sheet: Sheet, prefix: seq<Byte>, indent: nat, isObject: bool)
    requires Fits(s, sheet, prefix, indent) && sheet.open != []
    requires W.Closed(s, indent, isObject).refusal.None?
    ensures var n := |sheet.open| - 1;
            var rest := sheet.(open := sheet.open[..n]);
            W.Closed(s, indent, isObject).state.output
              == prefix + (SheetText(rest, indent) + LeadText(rest.open, indent)
                           + Printed(sheet.open[n].Finished(), indent, n))
  {
    hide LeadText, Before, BeforeEnd, W.Newline, OpenText, Printed;
    var n := |sheet.open| - 1;
    var o := sheet.open[n];
    assert FrameFits(s.stack[n], o, false);
    GapIsBeforeEnd(s.stack[n], o, indent, n);
    PageFinished(sheet.open, prefix, indent);
  }

  /** The innermost container with its closing bracket, behind what is outside it. */
  lemma PageFinished(open: seq<Page>, prefix: seq<Byte>, indent: nat)
    requires open != [] && (open[|open| - 1].OpenRecord? ==> open[|open| - 1].key.None?)
    ensures var n := |open| - 1;
            var o := open[n];
            prefix + OpenText(open, indent)
              + BeforeEnd(o.flat, if o.OpenList? then o.items == [] else o.parts == [], indent, n)
              + [if o.OpenList? then 0x5D else 0x7D]
            == prefix + (OpenText(open[..n], indent) + LeadText(open[..n], indent) + Printed(o.Finished(), indent, n))
  {
    hide LeadText, BeforeEnd, Printed, PageText;
    var n := |open| - 1;
    var o := open[n];
    FinishedText(o, indent, n);
    RegroupEnd(prefix, OpenText(open[..n], indent) + LeadText(open[..n], indent), PageText(o, indent, n + 1),
               BeforeEnd(o.flat, if o.OpenList? then o.items == [] else o.parts == [], indent, n),
               [if o.OpenList? then 0x5D else 0x7D]);
  }

  lemma FinishedText(o: Page, indent: nat, depth: nat)
    requires o.OpenRecord? ==> o.key.None?
    ensures Printed(o.Finished(), indent, depth)
         == PageText(o, indent, depth + 1)
            + BeforeEnd(o.flat, if o.OpenList? then o.items == [] else o.parts == [], indent, depth)
            + [if o.OpenList? then 0x5D else 0x7D]
  {
    hide PrintedItems, PrintedParts, BeforeEnd, Before;
    if o.OpenRecord? {
      var text := [0x7B] + PrintedParts(o.parts, o.flat, indent, depth + 1);
      assert text + [] == text;
    }
  }

  lemma RegroupEnd(prefix: seq<Byte>, outer: seq<Byte>, page: seq<Byte>, gap: seq<Byte>, bracket: seq<Byte>)
    ensures prefix + (outer + page) + gap + bracket == prefix + (outer + (page + gap + bracket))
  {
  }

  lemma HintFits(s: W.State, sheet: Sheet, prefix: seq<Byte>, indent: nat)
    requires Fits(s, sheet, prefix, indent)
    ensures Fits(s.(inlineNext := true), sheet.(hinted := true), prefix, indent)
  {
    hide Printed, OpenText;
  }

  // Runs

  /** A call that spoils nothing is carried out exactly when the sheet accepts it, and the text is that of the sheet. */
  lemma StepFits(s: W.State, sheet: Sheet, prefix: seq<Byte>, indent: nat, max: nat, call: Call<FloatText>)
    requires Fits(s, sheet, prefix, indent) && !Spoils(s, indent, call)
    ensures W.Step(s, indent, max, call).refusal.None? <==> sheet.Accepts(call, max)
    ensures Fits(W.Step(s, indent, max, call).state, if sheet.Accepts(call, max) then sheet.Take(call, max) else sheet,
                 prefix, indent)
  {
    hide W.Step, Spoils, Fits, Sheet.Accepts, Sheet.Take;
    if W.Step(s, indent, max, call).refusal.Some? {
      RefusalChangesNothingExactlyWhen(s, indent, max, call);
    }
    AcceptedFits(s, sheet, prefix, indent, max, call);
  }

  lemma AcceptedFits(s: W.State, sheet: Sheet, prefix: seq<Byte>, indent: nat, max: nat, call: Call<FloatText>)
    requires Fits(s, sheet, prefix, indent)
    ensures W.Step(s, indent, max, call).refusal.None? <==> sheet.Accepts(call, max)
    ensures sheet.Accepts(call, max) ==> Fits(W.Step(s, indent, max, call).state, sheet.Take(call, max), prefix, indent)
  {
    hide W.Written, W.Opened, W.Keyed, W.Closed, Fits, Sheet.Place;
    match call
    case WriteLeaf(leaf) => LeafFits(s, sheet, prefix, indent, max, leaf);
    case BeginArray(_) => OpeningFits(s, sheet, prefix, indent, max, call);
    case BeginObject(_) => OpeningFits(s, sheet, prefix, indent, max, call);
    case WriteKey(key) => KeyFits(s, sheet, prefix, indent, max, key);
    case EndArray => ClosingFits(s, sheet, prefix, indent, max, call);
    case EndObject => ClosingFits(s, sheet, prefix, indent, max, call);
    case PreferInline => HintFits(s, sheet, prefix, indent);
  }

  /** No call of the run leaves anything behind when it is refused. */
  predicate NothingSpoils(prefix: seq<Byte>, indent: nat, max: nat, calls: JsonCalls)
    decreases |calls|
  {
    calls == []
    || (var earlier, last := calls[..|calls| - 1], calls[|calls| - 1];
        NothingSpoils(prefix, indent, max, earlier) && !Spoils(Run(Fresh(prefix), indent, max, earlier), indent, last))
  }

  /**
   After any calls whatever of which none spoils anything: the writer is complete exactly when they have
   collected a whole value, and then its text is that value as it is printed.
   */
  lemma {:induction false} RunPrints(prefix: seq<Byte>, indent: nat, max: nat, calls: JsonCalls)
    requires NothingSpoils(prefix, indent, max, calls)
    ensures Fits(Run(Fresh(prefix), indent, max, calls), Collected(calls, max), prefix, indent)
    ensures W.Complete(Run(Fresh(prefix), indent, max, calls)) <==> Collected(calls, max).root.Some?
    ensures Collected(calls, max).root.Some? ==>
              Run(Fresh(prefix), indent, max, calls).output
              == prefix + Printed(Collected(calls, max).root.value, indent, 0)
    decreases |calls|
  {
    hide W.Step, Printed, Spoils;
    if calls == [] {
      assert prefix + [] == prefix;
    } else {
      var earlier, last := calls[..|calls| - 1], calls[|calls| - 1];
      RunPrints(prefix, indent, max, earlier);
      StepFits(Run(Fresh(prefix), indent, max, earlier), Collected(earlier, max), prefix, indent, max, last);
    }
  }

  /**
   At any indentation but none, every line break of such a text stands outside strings, and behind it come
   exactly as many spaces as the containers that are open there ask for.
   */
  lemma LinesAreIndented(prefix: seq<Byte>, indent: nat, max: nat, calls: JsonCalls)
    requires indent > 0 && NothingSpoils(prefix, indent, max, calls)
    requires W.Complete(Run(Fresh(prefix), indent, max, calls))
    ensures |prefix| <= |Run(Fresh(prefix), indent, max, calls).output|
    ensures LinesFit(Scan(0, false, false), Run(Fresh(prefix), indent, max, calls).output[|prefix|..], indent)
  {
    hide Printed, LinesFit, NothingSpoils;
    RunPrints(prefix, indent, max, calls);
    var text := Printed(Collected(calls, max).root.value, indent, 0);
    PrintedLines(Collected(calls, max).root.value, indent, 0);
    assert (prefix + text)[|prefix|..] == text;
  }

  // What the calls of a value collect

  ghost predicate IsPageOf(o: Page, b: Open<FloatText>) {
    match b
    case OpenArray(_, items) => o.OpenList? && AreDocsOf(o.items, items)
    case OpenObject(_, entries, key) => o.OpenRecord? && ArePartsOf(o.parts, entries) && o.key == key
  }

  ghost predicate Follows(sheet: Sheet, b: Builder<FloatText>) {
    && |sheet.open| == |b.open|
    && (forall i :: 0 <= i < |b.open| ==> IsPageOf(sheet.open[i], b.open[i]))
    && (sheet.root.Some? <==> b.root.Some?)
    && (b.root.Some? ==> IsDocOf(sheet.root.value, b.root.value))
  }

  lemma PageReady(o: Page, b: Open<FloatText>)
    requires IsPageOf(o, b)
    ensures o.IsReady() <==> b.Ready()
  {
  }

  lemma PageWith(o: Page, b: Open<FloatText>, d: Doc, t: Value)
    requires IsPageOf(o, b) && b.Ready() && IsDocOf(d, t)
    ensures o.IsReady() && IsPageOf(o.With(d), b.With(t))
  {
    hide IsDocOf;
    match b
    case OpenArray(_, items) =>
      assert (o.items + [d])[..|items|] == o.items && (items + [t])[..|items|] == items;
    case OpenObject(_, entries, key) =>
      assert (o.parts + [Part(key.value, d)])[..|entries|] == o.parts;
      assert (entries + [Entry(key.value, t)])[..|entries|] == entries;
  }

  lemma PlaceFollows(sheet: Sheet, b: Builder<FloatText>, d: Doc, t: Value)
    requires Follows(sheet, b) && b.Ready() && IsDocOf(d, t)
    ensures sheet.IsReady() && Follows(sheet.Place(d), b.Place(t))
  {
    hide IsPageOf, IsDocOf;
    if b.open != [] {
      assert IsPageOf(sheet.open[|b.open| - 1], b.open[|b.open| - 1]);
      PageWith(sheet.open[|b.open| - 1], b.open[|b.open| - 1], d, t);
    }
  }

  lemma CloseFollows(sheet: Sheet, b: Builder<FloatText>)
    requires Follows(sheet, b) && b.CanClose()
    ensures var n := |b.open| - 1;
            var rest := sheet.(open := sheet.open[..n]);
            && rest.IsReady()
            && Follows(rest.Place(sheet.open[n].Finished()), Builder(b.open[..n], b.root).Place(b.open[n].Closed()))
  {
    var n := |b.open| - 1;
    assert IsPageOf(sheet.open[n], b.open[n]);
    assert IsDocOf(sheet.open[n].Finished(), b.open[n].Closed());
    hide IsPageOf, IsDocOf;
    PlaceFollows(sheet.(open := sheet.open[..n]), Builder(b.open[..n], b.root), sheet.open[n].Finished(), b.open[n].Closed());
  }

  lemma TakeFollows(sheet: Sheet, b: Builder<FloatText>, call: Call<FloatText>, max: nat)
    requires Follows(sheet, b) && b.CanTake(call) && (Begins(call) ==> |b.open| < max) && Clean(call, AnyFloat())
    ensures sheet.Accepts(call, max) && Follows(sheet.Take(call, max), b.Take(call))
  {
    hide IsPageOf, IsDocOf, AreDocsOf, ArePartsOf;
    if b.open != [] {
      assert IsPageOf(sheet.open[|b.open| - 1], b.open[|b.open| - 1]);
      PageReady(sheet.open[|b.open| - 1], b.open[|b.open| - 1]);
      PageIsOfKind(sheet.open[|b.open| - 1], b.open[|b.open| - 1]);
    }
    match call
    case WriteLeaf(leaf) =>
      ScalarIsDoc(leaf);
      PlaceFollows(sheet, b, Scalar(leaf), Leaf(leaf));
    case BeginArray(size) => EmptyPages(sheet.IsNextFlat(), size);
    case BeginObject(size) => EmptyPages(sheet.IsNextFlat(), size);
    case WriteKey(key) => PageKeyed(sheet.open[|b.open| - 1], b.open[|b.open| - 1], key);
    case EndArray => CloseFollows(sheet, b);
    case EndObject => CloseFollows(sheet, b);
    case PreferInline =>
  }

  lemma ScalarIsDoc(leaf: Leaf<FloatText>)
    ensures IsDocOf(Scalar(leaf), Leaf(leaf))
  {
  }

  lemma PageIsOfKind(o: Page, b: Open<FloatText>)
    requires IsPageOf(o, b)
    ensures (o.OpenList? <==> b.OpenArray?) && (o.OpenRecord? ==> o.key == b.key)
  {
  }

  lemma EmptyPages(flat: bool, size: U64)
    ensures IsPageOf(OpenList(flat, []), OpenArray(size, []))
    ensures IsPageOf(OpenRecord(flat, [], None), OpenObject(size, [], None))
  {
  }

  lemma PageKeyed(o: Page, b: Open<FloatText>, key: Text)
    requires IsPageOf(o, b) && b.OpenObject?
    ensures IsPageOf(o.(key := Some(key)), b.(key := Some(key)))
  {
  }

  /** Calls that build something collect it, whatever marks it gets. */
  lemma {:induction false} CollectedFollows(calls: JsonCalls, max: nat) returns (b: Builder<FloatText>)
    requires AllClean(calls, AnyFloat()) && TakeWithin(Builder([], None), calls, max).Some?
    ensures TakeWithin(Builder([], None), calls, max) == Some(b) && Follows(Collected(calls, max), b)
    decreases |calls|
  {
    hide Follows, Clean;
    if calls == [] {
      b := Builder([], None);
      NothingFollows();
    } else {
      var earlier, last := calls[..|calls| - 1], calls[|calls| - 1];
      assert AllClean(earlier, AnyFloat()) && Clean(last, AnyFloat());
      assert earlier + [last] == calls;
      TakeWithinConcat(Builder([], None), earlier, [last], max);
      b := CollectedFollows(earlier, max);
      TakeWithinOne(b, last, max);
      TakeFollows(Collected(earlier, max), b, last, max);
      b := b.Take(last);
    }
  }

  lemma NothingFollows()
    ensures Follows(Sheet([], None, false), Builder([], None))
  {
  }

  /** Clean calls spoil nothing. */
  lemma {:induction false} CleanSpoilsNothing(prefix: seq<Byte>, indent: nat, max: nat, calls: JsonCalls)
    requires AllClean(calls, AnyFloat())
    ensures NothingSpoils(prefix, indent, max, calls)
    decreases |calls|
  {
    hide Run;
    if calls != [] {
      var earlier, last := calls[..|calls| - 1], calls[|calls| - 1];
      assert Clean(last, AnyFloat());
      CleanSpoilsNothing(prefix, indent, max, earlier);
    }
  }

  // Marks

  /** Hints mark containers, and a mark reaches everything inside. */
  predicate PageMarked(o: Page) {
    match o
    case OpenList(flat, items) => AreMarked(items, flat)
    case OpenRecord(flat, parts, _) => PartsAreMarked(parts, flat)
  }

  predicate SheetMarked(s: Sheet) {
    && (forall i :: 0 <= i < |s.open| ==> PageMarked(s.open[i]))
    && (forall i :: 0 <= i < |s.open| - 1 ==> s.open[i].flat ==> s.open[i + 1].flat)
    && (s.root.Some? ==> IsMarked(s.root.value, false))
  }

  lemma PlaceMarked(s: Sheet, d: Doc)
    requires SheetMarked(s) && s.IsReady() && IsMarked(d, s.open != [] && s.open[|s.open| - 1].flat)
    ensures SheetMarked(s.Place(d))
  {
    hide IsMarked;
    if s.open != [] {
      var top := s.open[|s.open| - 1];
      assert PageMarked(top);
      match top
      case OpenList(flat, items) => assert (items + [d])[..|items|] == items;
      case OpenRecord(flat, parts, key) => assert (parts + [Part(key.value, d)])[..|parts|] == parts;
    }
  }

  lemma TakeMarked(s: Sheet, call: Call<FloatText>, max: nat)
    requires SheetMarked(s) && s.Accepts(call, max)
    ensures SheetMarked(s.Take(call, max))
  {
    match call
    case WriteLeaf(leaf) => PlaceMarked(s, Scalar(leaf));
    case EndArray => CloseMarked(s);
    case EndObject => CloseMarked(s);
    case WriteKey(key) => assert PageMarked(s.open[|s.open| - 1]);
    case _ =>
  }

  lemma CloseMarked(s: Sheet)
    requires SheetMarked(s) && s.IsRest()
    ensures SheetMarked(s.(open := s.open[..|s.open| - 1]).Place(s.open[|s.open| - 1].Finished()))
  {
    var n := |s.open| - 1;
    assert PageMarked(s.open[n]);
    PlaceMarked(s.(open := s.open[..n]), s.open[n].Finished());
  }

  /** Whatever is collected, every container inside a flat one is flat. */
  lemma {:induction false} CollectedIsMarked(calls: JsonCalls, max: nat)
    ensures SheetMarked(Collected(calls, max))
    decreases |calls|
  {
    hide SheetMarked, Sheet.Take, Sheet.Accepts;
    if calls == [] {
      NothingMarked();
    } else {
      var earlier, last := calls[..|calls| - 1], calls[|calls| - 1];
      CollectedIsMarked(earlier, max);
      if Collected(earlier, max).Accepts(last, max) {
        TakeMarked(Collected(earlier, max), last, max);
      }
    }
  }

  lemma NothingMarked()
    ensures SheetMarked(Sheet([], None, false))
  {
  }

  // Without hints nothing is flat

  predicate IsPlain(d: Doc)
    decreases d, 1
  {
    match d
    case Scalar(_) => true
    case List(flat, items) => !flat && ArePlain(items)
    case Record(flat, parts) => !flat && PartsArePlain(parts)
  }

  predicate ArePlain(items: seq<Doc>)
    decreases items, 0
  {
    items == [] || (ArePlain(items[..|items| - 1]) && IsPlain(items[|items| - 1]))
  }

  predicate PartsArePlain(parts: seq<Part>)
    decreases parts, 0
  {
    parts == [] || (PartsArePlain(parts[..|parts| - 1]) && IsPlain(parts[|parts| - 1].value))
  }

  predicate PagePlain(o: Page) {
    !o.flat && if o.OpenList? then ArePlain(o.items) else PartsArePlain(o.parts)
  }

  predicate SheetPlain(s: Sheet) {
    !s.hinted && (forall i :: 0 <= i < |s.open| ==> PagePlain(s.open[i])) && (s.root.Some? ==> IsPlain(s.root.value))
  }

  lemma PlacePlain(s: Sheet, d: Doc)
    requires SheetPlain(s) && s.IsReady() && IsPlain(d)
    ensures SheetPlain(s.Place(d))
  {
    hide IsPlain;
    if s.open != [] {
      var top := s.open[|s.open| - 1];
      assert PagePlain(top);
      match top
      case OpenList(flat, items) => assert (items + [d])[..|items|] == items;
      case OpenRecord(flat, parts, key) => assert (parts + [Part(key.value, d)])[..|parts|] == parts;
    }
  }

  lemma TakePlain(s: Sheet, call: Call<FloatText>, max: nat)
    requires SheetPlain(s) && s.Accepts(call, max) && !call.PreferInline?
    ensures SheetPlain(s.Take(call, max))
  {
    match call
    case WriteLeaf(leaf) => PlacePlain(s, Scalar(leaf));
    case EndArray => ClosePlain(s);
    case EndObject => ClosePlain(s);
    case WriteKey(key) => assert PagePlain(s.open[|s.open| - 1]);
    case BeginArray(_) => assert s.open != [] ==> PagePlain(s.open[|s.open| - 1]);
    case BeginObject(_) => assert s.open != [] ==> PagePlain(s.open[|s.open| - 1]);
  }

  lemma ClosePlain(s: Sheet)
    requires SheetPlain(s) && s.IsRest()
    ensures SheetPlain(s.(open := s.open[..|s.open| - 1]).Place(s.open[|s.open| - 1].Finished()))
  {
    var n := |s.open| - 1;
    assert PagePlain(s.open[n]);
    PlacePlain(s.(open := s.open[..n]), s.open[n].Finished());
  }

  lemma {:induction false} CollectedIsPlain(calls: JsonCalls, max: nat)
    requires forall i :: 0 <= i < |calls| ==> !calls[i].PreferInline?
    ensures SheetPlain(Collected(calls, max))
    decreases |calls|
  {
    hide SheetPlain, Sheet.Take, Sheet.Accepts;
    if calls == [] {
      NothingPlain();
    } else {
      var earlier, last := calls[..|calls| - 1], calls[|calls| - 1];
      CollectedIsPlain(earlier, max);
      if Collected(earlier, max).Accepts(last, max) {
        TakePlain(Collected(earlier, max), last, max);
      }
    }
  }

  lemma NothingPlain()
    ensures SheetPlain(Sheet([], None, false))
  {
  }

  lemma {:induction false} PlainIsPlain(d: Doc, t: Value)
    requires IsDocOf(d, t) && IsPlain(d)
    ensures d == Plain(t)
    decreases t, 1
  {
    match t
    case Leaf(_) =>
    case Array(items) => ItemsArePlain(d.items, items);
    case Object(entries) => PartsArePlainOf(d.parts, entries);
  }

  lemma {:induction false} ItemsArePlain(docs: seq<Doc>, items: seq<Value>)
    requires AreDocsOf(docs, items) && ArePlain(docs)
    ensures docs == PlainItems(items)
    decreases items, 0
  {
    if items != [] {
      var n := |items| - 1;
      ItemsArePlain(docs[..n], items[..n]);
      PlainIsPlain(docs[n], items[n]);
      assert docs == docs[..n] + [docs[n]];
    }
  }

  lemma {:induction false} PartsArePlainOf(parts: seq<Part>, entries: seq<Field>)
    requires ArePartsOf(parts, entries) && PartsArePlain(parts)
    ensures parts == PlainParts(entries)
    decreases entries, 0
  {
    if entries != [] {
      var n := |entries| - 1;
      PartsArePlainOf(parts[..n], entries[..n]);
      PlainIsPlain(parts[n].value, entries[n].value);
      assert parts == parts[..n] + [parts[n]];
    }
  }

  lemma {:induction false} NoneIsHint(calls: JsonCalls)
    requires WithoutHints(calls) == calls
    ensures forall i :: 0 <= i < |calls| ==> !calls[i].PreferInline?
    decreases |calls|
  {
    if calls != [] {
      HintsOnlyShorten(calls[1..]);
      assert calls == [calls[0]] + calls[1..];
      NoneIsHint(calls[1..]);
      forall i | 0 <= i < |calls|
        ensures !calls[i].PreferInline?
      {
        assert i > 0 ==> calls[i] == calls[1..][i - 1];
      }
    }
  }

  lemma {:induction false} HintsOnlyShorten(calls: JsonCalls)
    ensures |WithoutHints(calls)| <= |calls|
    decreases |calls|
  {
    if calls != [] {
      HintsOnlyShorten(calls[1..]);
    }
  }

  // The text of a value

  /**
   Every writable value within the depth limit, at every indentation and with hints put anywhere between the
   calls that write it: the text is the value as it is printed, with the marks that the hints put on it; and
   without hints no container is marked.
   */
  lemma EveryTextIsPrinted(prefix: seq<Byte>, indent: nat, max: nat, t: Value, calls: JsonCalls) returns (d: Doc)
    requires Writable(t, AnyFloat()) && Depth(t) <= max && WithoutHints(calls) == Calls(t)
    ensures Collected(calls, max).root == Some(d) && IsDocOf(d, t) && IsMarked(d, false)
    ensures Run(Fresh(prefix), indent, max, calls).output == prefix + Printed(d, indent, 0)
    ensures calls == Calls(t) ==> d == Plain(t)
  {
    hide Printed, SheetPlain, SheetMarked;
    var empty: Builder<FloatText> := Builder([], None);
    TakeWithinTree(empty, t, max);
    HintsBuildNothing(empty, calls, max);
    WritableCalls(t, AnyFloat());
    HintsAreClean(calls, AnyFloat());
    var b := CollectedFollows(calls, max);
    CleanSpoilsNothing(prefix, indent, max, calls);
    RunPrints(prefix, indent, max, calls);
    CollectedIsMarked(calls, max);
    d := Collected(calls, max).root.value;
    RootIsMarked(Collected(calls, max));
    if calls == Calls(t) {
      NoneIsHint(calls);
      CollectedIsPlain(calls, max);
      RootIsPlain(Collected(calls, max));
      PlainIsPlain(d, t);
    }
  }

  lemma RootIsMarked(s: Sheet)
    requires SheetMarked(s) && s.root.Some?
    ensures IsMarked(s.root.value, false)
  {
  }

  lemma RootIsPlain(s: Sheet)
    requires SheetPlain(s) && s.root.Some?
    ensures IsPlain(s.root.value)
  {
  }

  // Without indentation

  /** At no indentation the text of a value is its tokens one behind the other, whatever its marks. */
  lemma {:induction false} CompactIsJoined(d: Doc, t: Value, depth: nat)
    requires IsDocOf(d, t)
    ensures Printed(d, 0, depth) == Joined(Tokens(t))
    decreases t, 1
  {
    match t
    case Leaf(leaf) => JoinedOne(LeafToken(leaf));
    case Array(items) =>
      CompactItems(d.items, items, d.flat, depth + 1);
      JoinedContainer([OPEN_BRACKET], ItemTokens(items, true), [CLOSE_BRACKET]);
      assert [0x5B] + Joined(ItemTokens(items, true)) + [] == [0x5B] + Joined(ItemTokens(items, true));
    case Object(entries) =>
      CompactParts(d.parts, entries, d.flat, depth + 1);
      JoinedContainer([OPEN_BRACE], EntryTokens(entries, true), [CLOSE_BRACE]);
      assert [0x7B] + Joined(EntryTokens(entries, true)) + [] == [0x7B] + Joined(EntryTokens(entries, true));
  }

  lemma JoinedContainer(opening: Token, body: seq<Token>, closing: Token)
    ensures Joined([opening] + body + [closing]) == opening + Joined(body) + closing
  {
    JoinedConcat([opening] + body, [closing]);
    JoinedConcat([opening], body);
    JoinedOne(opening);
    JoinedOne(closing);
  }

  lemma CompactBefore(flat: bool, isFirst: bool, depth: nat)
    ensures Before(flat, isFirst, 0, depth) == Joined(Comma(isFirst))
  {
    JoinedOne([COMMA]);
  }

  lemma {:induction false} CompactItems(docs: seq<Doc>, items: seq<Value>, flat: bool, depth: nat)
    requires AreDocsOf(docs, items)
    ensures PrintedItems(docs, flat, 0, depth) == Joined(ItemTokens(items, true))
    decreases items, 0
  {
    hide Before, Printed, Tokens;
    if items != [] {
      var n := |items| - 1;
      CompactItems(docs[..n], items[..n], flat, depth);
      CompactIsJoined(docs[n], items[n], depth);
      CompactBefore(flat, n == 0, depth);
      assert items == items[..n] + [items[n]];
      ItemTokensAppend(items[..n], true, items[n]);
      JoinedConcat(ItemTokens(items[..n], true) + Comma(n == 0), Tokens(items[n]));
      JoinedConcat(ItemTokens(items[..n], true), Comma(n == 0));
    }
  }

  lemma {:induction false} CompactParts(parts: seq<Part>, entries: seq<Field>, flat: bool, depth: nat)
    requires ArePartsOf(parts, entries)
    ensures PrintedParts(parts, flat, 0, depth) == Joined(EntryTokens(entries, true))
    decreases entries, 0
  {
    hide Before, Printed, Tokens, KeyText, KeyTokens;
    if entries != [] {
      var n := |entries| - 1;
      var e := entries[n];
      CompactParts(parts[..n], entries[..n], flat, depth);
      CompactIsJoined(parts[n].value, e.value, depth);
      CompactBefore(flat, n == 0, depth);
      CompactKey(e.key);
      assert entries == entries[..n] + [e];
      EntryTokensAppend(entries[..n], true, e);
      JoinedConcat(EntryTokens(entries[..n], true) + (Comma(n == 0) + KeyTokens(e.key)), Tokens(e.value));
      JoinedConcat(EntryTokens(entries[..n], true), Comma(n == 0) + KeyTokens(e.key));
      JoinedConcat(Comma(n == 0), KeyTokens(e.key));
      ConcatAssociative(Joined(EntryTokens(entries[..n], true)), Joined(Comma(n == 0)), Joined(KeyTokens(e.key)));
    }
  }

  lemma CompactKey(key: Text)
    ensures KeyText(key, 0) == Joined(KeyTokens(key))
  {
    JoinedConcat([KeyToken(key)], [[COLON]]);
    JoinedOne(KeyToken(key));
    JoinedOne([COLON]);
    assert [KeyToken(key)] + [[COLON]] == KeyTokens(key);
  }
}
