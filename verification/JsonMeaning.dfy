/**
 What a text of the JSON grammar denotes for a consumer that knows the types it wants. A pull parser gives a
 value exactly where a syntax tree that denotes it is laid out.
 */
module JsonMeaning {
  import opened Bytes
  import opened Serial
  import opened JsonNumber
  import opened JsonText
  import opened JsonGrammar
  import opened JsonLayout
  import opened JsonRuns
  import opened JsonTheorems
  import opened JsonSyntax
  import opened JsonProtocol
  import opened JsonRuins
  import opened JsonReadability
  import W = JsonWriter
  import Base64

  /** A number without fraction and exponent is an integer; every number can be had as a floating-point number. */
  predicate DenotesLeaf(s: Syntax, leaf: Leaf<FloatText>, inRange: FloatText -> bool) {
    match leaf
    case Null => s.Nothing?
    case Bool(flag) => s == Truth(flag)
    case Signed(v) => s.Numeral? && s.number.IsInteger() && s.number.IntegerValue() == v
    case Unsigned(v) => s.Numeral? && s.number.IsInteger() && !s.number.minus && s.number.IntegerValue() == v
    case Float(f) => s.Numeral? && s.number.WithPoint() == f && inRange(f)
    case Str(text) => s.String? && Meaning(s.characters) == text
    case Blob(bytes) => s.String? && Base64.Decode(Meaning(s.characters)) == Ok(bytes)
  }

  predicate Denotes(s: Syntax, t: Value, inRange: FloatText -> bool)
    decreases t, 1
  {
    match t
    case Leaf(leaf) => DenotesLeaf(s, leaf, inRange)
    case Array(items) => s.List? && ItemsDenote(s.items, items, inRange)
    case Object(entries) => s.Record? && MembersDenote(s.members, entries, inRange)
  }

  predicate ItemsDenote(items: seq<Syntax>, values: seq<Value>, inRange: FloatText -> bool)
    decreases values, 0
  {
    if values == [] then items == []
    else items != [] && Denotes(items[0], values[0], inRange) && ItemsDenote(items[1..], values[1..], inRange)
  }

  /** Entries in the order of the members, repeated names included. */
  predicate MembersDenote(members: seq<Member>, entries: seq<Field>, inRange: FloatText -> bool)
    decreases entries, 0
  {
    if entries == [] then members == []
    else
      && members != []
      && Meaning(members[0].name) == entries[0].key
      && Denotes(members[0].value, entries[0].value, inRange)
      && MembersDenote(members[1..], entries[1..], inRange)
  }

  // What is denoted is read

  lemma PullOfNumeral(input: Text, pos: nat, n: ValidNumber, leaf: Leaf<FloatText>, inRange: FloatText -> bool, end: nat)
    requires leaf.Signed? || leaf.Unsigned? || leaf.Float?
    requires DenotesLeaf(Numeral(n), leaf, inRange)
    requires NumberAt(input, SkipSpace(input, pos)) == Ok((n, end))
    ensures PullLeaf(input, pos, KindOf(leaf), inRange) == Ok((leaf, end))
  {
    hide SkipSpace, ScanNumber, Number.Text, Number.IntegerValue;
  }

  lemma PullOfString(input: Text, pos: nat, characters: seq<Character>, leaf: Leaf<FloatText>,
                     inRange: FloatText -> bool)
    requires leaf.Str? || leaf.Blob?
    requires DenotesLeaf(String(characters), leaf, inRange)
    requires At(input, SkipSpace(input, pos), StringText(characters))
    ensures PullLeaf(input, pos, KindOf(leaf), inRange)
         == Ok((leaf, SkipSpace(input, pos) + |StringText(characters)|))
  {
    hide SkipSpace, Base64.Decode;
    assert input[SkipSpace(input, pos) + 0] == StringText(characters)[0];
    ParseOfStringText(input, SkipSpace(input, pos), characters);
  }

  lemma PullOfScalar(input: Text, pos: nat, s: Syntax, leaf: Leaf<FloatText>, inRange: FloatText -> bool, end: nat)
    requires DenotesLeaf(s, leaf, inRange)
    requires LaidEnd(input, pos, SyntaxTokens(s)) == Some(end) && EndsNumber(Current(input, end))
    ensures PullLeaf(input, pos, KindOf(leaf), inRange) == Ok((leaf, end))
  {
    hide SkipSpace, StringText, Number.Text, ScanNumber, PullLeaf, LaidEnd, At;
    LaidOne(input, pos, SyntaxTokens(s)[0]);
    match s
    case Numeral(n) =>
      ScanOfText(input, SkipSpace(input, pos), n);
      PullOfNumeral(input, pos, n, leaf, inRange, end);
    case String(characters) => PullOfString(input, pos, characters, leaf, inRange);
    case _ => LiteralOfText(input, pos, leaf, inRange);
  }

  /** Wherever a syntax tree that denotes a value is laid out, the value is read. */
  lemma {:induction false} PullOfSyntax(input: Text, pos: nat, s: Syntax, t: Value, depth: nat, max: nat,
                                        inRange: FloatText -> bool, end: nat)
    requires Denotes(s, t, inRange) && depth + Nesting(s) <= max
    requires LaidEnd(input, pos, SyntaxTokens(s)) == Some(end) && EndsNumber(Current(input, end))
    ensures PullAt(input, pos, depth, max, ShapeOf(t), inRange) == Ok((t, end))
    decreases t, 1
  {
    hide EnterAt, PullLeaf, At, SkipSpace, DenotesLeaf, LaidEnd;
    match t
    case Leaf(leaf) => PullOfScalar(input, pos, s, leaf, inRange, end);
    case Array(items) =>
      var start := InnerOfLaid(input, pos, [OPEN_BRACKET], ListTokens(s.items, true), [CLOSE_BRACKET], depth, max);
      ItemsAreShaped(items, 0);
      PullOfList(input, start, s.items, items, true, depth + 1, max, inRange, ItemShapes(items), 0, end);
    case Object(entries) =>
      var start := InnerOfLaid(input, pos, [OPEN_BRACE], MemberTokens(s.members, true), [CLOSE_BRACE], depth, max);
      EntriesAreShaped(entries, 0);
      PullOfMembers(input, start, s.members, entries, true, depth + 1, max, inRange, EntryShapes(entries), 0, end);
  }

  lemma {:induction false} PullOfList(input: Text, pos: nat, items: seq<Syntax>, values: seq<Value>, first: bool,
                                      depth: nat, max: nat, inRange: FloatText -> bool, shapes: seq<Shape>, k: nat,
                                      end: nat)
    requires ItemsDenote(items, values, inRange) && depth + ListNesting(items) <= max
    requires LaidEnd(input, pos, ListTokens(items, first) + [[CLOSE_BRACKET]]) == Some(end)
    requires ItemsShaped(shapes, k, values)
    ensures PullItems(input, pos, depth, max, first, shapes, k, inRange) == Ok((values, end))
    decreases values, 0
  {
    hide Advance, EndAt, LaidEnd, SkipSpace, SyntaxTokens;
    if values == [] {
      assert ListTokens(items, first) + [[CLOSE_BRACKET]] == [[CLOSE_BRACKET]];
      AdvanceToClose(input, pos, first, CLOSE_BRACKET, end);
    } else {
      var start, middle := FirstOfList(input, pos, items, first, end);
      PullOfSyntax(input, start, items[0], values[0], depth, max, inRange, middle);
      PullOfList(input, middle, items[1..], values[1..], false, depth, max, inRange, shapes, k + 1, end);
      assert [values[0]] + values[1..] == values;
    }
  }

  lemma {:induction false} PullOfMembers(input: Text, pos: nat, members: seq<Member>, entries: seq<Field>, first: bool,
                                         depth: nat, max: nat, inRange: FloatText -> bool, shapes: seq<Shape>, k: nat,
                                         end: nat)
    requires MembersDenote(members, entries, inRange) && depth + MemberNesting(members) <= max
    requires LaidEnd(input, pos, MemberTokens(members, first) + [[CLOSE_BRACE]]) == Some(end)
    requires EntriesShaped(shapes, k, entries)
    ensures PullEntries(input, pos, depth, max, first, shapes, k, inRange) == Ok((entries, end))
    decreases entries, 0
  {
    hide KeyAt, EndAt, LaidEnd, SkipSpace, SyntaxTokens, Meaning;
    if entries == [] {
      assert MemberTokens(members, first) + [[CLOSE_BRACE]] == [[CLOSE_BRACE]];
      NoMoreKeys(input, pos, first, end);
    } else {
      var start, middle := FirstOfMembers(input, pos, members, first, end);
      PullOfSyntax(input, start, members[0].value, entries[0].value, depth, max, inRange, middle);
      PullOfMembers(input, middle, members[1..], entries[1..], false, depth, max, inRange, shapes, k + 1, end);
      assert [entries[0]] + entries[1..] == entries;
    }
  }

  // What is read is denoted

  lemma SyntaxOfNumber(input: Text, pos: nat) returns (s: Syntax)
    requires NumberAt(input, SkipSpace(input, pos)).Ok?
    ensures var (n, end) := NumberAt(input, SkipSpace(input, pos)).value;
            s == Numeral(n) && LaidEnd(input, pos, SyntaxTokens(s)) == Some(end)
  {
    hide SkipSpace, ScanNumber, Number.Text, LaidEnd, At;
    var n := NumberAt(input, SkipSpace(input, pos)).value.0;
    TextOfScan(input, SkipSpace(input, pos));
    s := Numeral(n);
    LaidOne(input, pos, NumeralToken(n));
  }

  lemma SyntaxOfString(input: Text, pos: nat) returns (s: Syntax)
    requires StrAt(input, pos).Ok?
    ensures s.String? && Meaning(s.characters) == StrAt(input, pos).value.0
    ensures LaidEnd(input, pos, SyntaxTokens(s)) == Some(StrAt(input, pos).value.1)
  {
    hide SkipSpace, ParseString, StringText, LaidEnd, At, Meaning;
    var start := SkipSpace(input, pos);
    var (text, end) := ParseString(input, start).value;
    ParsedExactlySpelled(input, start, text, end);
    var characters :| At(input, start, StringText(characters)) && Meaning(characters) == text
                      && end == start + |StringText(characters)|;
    s := String(characters);
    LaidOne(input, pos, StringToken(characters));
  }

  lemma SyntaxOfLiteral(input: Text, pos: nat, kind: Kind, inRange: FloatText -> bool) returns (s: Syntax)
    requires (kind.NullKind? || kind.BoolKind?) && PullLeaf(input, pos, kind, inRange).Ok?
    ensures DenotesLeaf(s, PullLeaf(input, pos, kind, inRange).value.0, inRange)
    ensures LaidEnd(input, pos, SyntaxTokens(s)) == Some(PullLeaf(input, pos, kind, inRange).value.1)
  {
    hide SkipSpace, LaidEnd, At;
    if kind.NullKind? {
      s := Nothing;
      LaidOne(input, pos, NULL_TEXT);
    } else {
      s := Truth(PullLeaf(input, pos, kind, inRange).value.0.flag);
      LaidOne(input, pos, SyntaxTokens(s)[0]);
    }
  }

  lemma SyntaxOfLeaf(input: Text, pos: nat, kind: Kind, inRange: FloatText -> bool) returns (s: Syntax)
    requires PullLeaf(input, pos, kind, inRange).Ok?
    ensures Nesting(s) == 0
    ensures DenotesLeaf(s, PullLeaf(input, pos, kind, inRange).value.0, inRange)
    ensures LaidEnd(input, pos, SyntaxTokens(s)) == Some(PullLeaf(input, pos, kind, inRange).value.1)
  {
    hide SkipSpace, NumberAt, StrAt, LaidEnd, At, Meaning, Base64.Decode, SyntaxTokens;
    match kind
    case NullKind => s := SyntaxOfLiteral(input, pos, kind, inRange);
    case BoolKind => s := SyntaxOfLiteral(input, pos, kind, inRange);
    case StrKind => s := SyntaxOfString(input, pos);
    case BlobKind => s := SyntaxOfString(input, pos);
    case _ => s := SyntaxOfNumber(input, pos);
  }

  /** Whatever is read is denoted by a syntax tree that is laid out there. */
  lemma {:induction false} SyntaxOfPull(input: Text, pos: nat, depth: nat, max: nat, shape: Shape,
                                        inRange: FloatText -> bool) returns (s: Syntax)
    requires PullAt(input, pos, depth, max, shape, inRange).Ok? && depth <= max
    ensures depth + Nesting(s) <= max
    ensures var (t, end) := PullAt(input, pos, depth, max, shape, inRange).value;
            Denotes(s, t, inRange) && LaidEnd(input, pos, SyntaxTokens(s)) == Some(end)
    decreases shape, 0
  {
    hide PullLeaf, EnterAt, SkipSpace, LaidEnd, At, DenotesLeaf;
    match shape
    case LeafShape(kind) =>
      s := SyntaxOfLeaf(input, pos, kind, inRange);
    case ArrayShape(shapes) =>
      var start := EnterAt(input, pos, OPEN_BRACKET, depth, max).value;
      EnteredBelowLimit(input, pos, OPEN_BRACKET, depth, max);
      var items := ListOfPull(input, start, depth + 1, max, true, shapes, 0, inRange);
      s := List(items);
      BracketsAreLaid(input, pos, OPEN_BRACKET, depth, max, ListTokens(items, true), [CLOSE_BRACKET]);
    case ObjectShape(shapes) =>
      var start := EnterAt(input, pos, OPEN_BRACE, depth, max).value;
      EnteredBelowLimit(input, pos, OPEN_BRACE, depth, max);
      var members := MembersOfPull(input, start, depth + 1, max, true, shapes, 0, inRange);
      s := Record(members);
      BracketsAreLaid(input, pos, OPEN_BRACE, depth, max, MemberTokens(members, true), [CLOSE_BRACE]);
  }

  lemma {:induction false} ListOfPull(input: Text, pos: nat, depth: nat, max: nat, first: bool, shapes: seq<Shape>,
                                      k: nat, inRange: FloatText -> bool) returns (items: seq<Syntax>)
    requires k <= |shapes| && depth <= max
    requires PullItems(input, pos, depth, max, first, shapes, k, inRange).Ok?
    ensures depth + ListNesting(items) <= max
    ensures var (values, end) := PullItems(input, pos, depth, max, first, shapes, k, inRange).value;
            && ItemsDenote(items, values, inRange)
            && LaidEnd(input, pos, ListTokens(items, first) + [[CLOSE_BRACKET]]) == Some(end)
    decreases shapes, |shapes| - k
  {
    hide PullAt, SkipSpace, LaidEnd, EndAt, Denotes, SyntaxTokens;
    var (more, start) := Advance(input, pos, first, CLOSE_BRACKET).value;
    if !more {
      items := [];
      LaidClose(input, pos, CLOSE_BRACKET, EndAt(input, start, CLOSE_BRACKET).value);
      assert ListTokens([], first) + [[CLOSE_BRACKET]] == [[CLOSE_BRACKET]];
    } else {
      var item := SyntaxOfPull(input, start, depth, max, shapes[k], inRange);
      var (value, next) := PullAt(input, start, depth, max, shapes[k], inRange).value;
      var rest := ListOfPull(input, next, depth, max, false, shapes, k + 1, inRange);
      var values := PullItems(input, next, depth, max, false, shapes, k + 1, inRange).value.0;
      items := [item] + rest;
      assert items[1..] == rest && ([value] + values)[1..] == values;
      ListIsLaid(input, pos, first, start, items, next);
    }
  }

  lemma {:induction false} MembersOfPull(input: Text, pos: nat, depth: nat, max: nat, first: bool, shapes: seq<Shape>,
                                         k: nat, inRange: FloatText -> bool) returns (members: seq<Member>)
    requires k <= |shapes| && depth <= max
    requires PullEntries(input, pos, depth, max, first, shapes, k, inRange).Ok?
    ensures depth + MemberNesting(members) <= max
    ensures var (entries, end) := PullEntries(input, pos, depth, max, first, shapes, k, inRange).value;
            && MembersDenote(members, entries, inRange)
            && LaidEnd(input, pos, MemberTokens(members, first) + [[CLOSE_BRACE]]) == Some(end)
    decreases shapes, |shapes| - k
  {
    hide PullAt, SkipSpace, LaidEnd, EndAt, KeyAt, Denotes, SyntaxTokens, Meaning;
    var (key, start) := KeyAt(input, pos, first).value;
    if key.None? {
      members := [];
      NoKeyBehindSpaces(input, pos, first, start);
      LaidClose(input, pos, CLOSE_BRACE, EndAt(input, start, CLOSE_BRACE).value);
      assert MemberTokens([], first) + [[CLOSE_BRACE]] == [[CLOSE_BRACE]];
    } else {
      var name := StringOfKey(input, pos, first, key.value, start);
      var syntax := SyntaxOfPull(input, start, depth, max, shapes[k], inRange);
      var (value, next) := PullAt(input, start, depth, max, shapes[k], inRange).value;
      var rest := MembersOfPull(input, next, depth, max, false, shapes, k + 1, inRange);
      var entries := PullEntries(input, next, depth, max, false, shapes, k + 1, inRange).value.0;
      members := [Member(name, syntax)] + rest;
      assert members[1..] == rest && ([Entry(key.value, value)] + entries)[1..] == entries;
      MembersAreLaid(input, pos, first, start, members, next);
    }
  }

  // Texts

  /** A JSON text that denotes `t`, nested no deeper than `max`. */
  ghost predicate DenotesIn(input: Text, max: nat, t: Value, inRange: FloatText -> bool) {
    exists s: Syntax :: Nesting(s) <= max && Denotes(s, t, inRange) && LaidThrough(input, 0, SyntaxTokens(s))
  }

  /**
   Asked for the types of `t`, a consumer reads the whole text as `t` exactly when the text denotes `t`:
   whatever the spaces, the escapes and the spelling of the numbers.
   */
  lemma ReadsExactlyWhatIsDenoted(input: Text, max: nat, t: Value, inRange: FloatText -> bool)
    ensures ReadsAs(input, 0, max, t, inRange) <==> DenotesIn(input, max, t, inRange)
  {
    hide PullAt, LaidEnd, Denotes;
    if ReadsAs(input, 0, max, t, inRange) {
      var s := SyntaxOfPull(input, 0, 0, max, ShapeOf(t), inRange);
      SpacesAreSkipped(input, PullAt(input, 0, 0, max, ShapeOf(t), inRange).value.1);
      assert LaidThrough(input, 0, SyntaxTokens(s));
    }
    if DenotesIn(input, max, t, inRange) {
      var s: Syntax :| Nesting(s) <= max && Denotes(s, t, inRange) && LaidThrough(input, 0, SyntaxTokens(s));
      var end := LaidEnd(input, 0, SyntaxTokens(s)).value;
      SpacesAreSkipped(input, end);
      PullOfSyntax(input, 0, s, t, 0, max, inRange, end);
    }
  }

  /** Skipping accepts whatever any consumer reads. */
  lemma ReadTextsAreJsonTexts(input: Text, max: nat, t: Value, inRange: FloatText -> bool)
    requires ReadsAs(input, 0, max, t, inRange)
    ensures Skips(input, max)
  {
    hide PullAt, SkipAt;
    SkipOfPull(input, 0, 0, max, ShapeOf(t), inRange);
  }

  /**
   After any calls whatever on a fresh writer with an empty buffer: what a complete writer holds is a JSON
   text exactly when no call has ruined it, and if one has, it is none at any depth limit.
   */
  lemma WritesJsonTextExactlyWhenNotRuined(indent: nat, max: nat, calls: JsonCalls)
    requires W.Complete(Run(Fresh([]), indent, max, calls)) && |Run(Fresh([]), indent, max, calls).output| < TWO_64
    ensures IsJsonText(Run(Fresh([]), indent, max, calls).output, max) <==> !IsRuined(Fresh([]), indent, max, calls)
    ensures IsRuined(Fresh([]), indent, max, calls) ==>
              forall limit :: !IsJsonText(Run(Fresh([]), indent, max, calls).output, limit)
  {
    hide SkipAt, IsRuined, IsLost, IsJsonText, ReadsAs;
    var output := Run(Fresh([]), indent, max, calls).output;
    if IsRuined(Fresh([]), indent, max, calls) {
      RuinedIsLost([], indent, max, calls);
      LostIsUnreadable(Run(Fresh([]), indent, max, calls), 0);
      forall limit: nat
        ensures !IsJsonText(output, limit)
      {
        SkipsExactlyJsonTexts(output, limit);
      }
    } else {
      AnyIsInRange(calls);
      var t := CompleteRunWroteOneValue([], indent, max, calls, AnyFloat());
      ReadTextsAreJsonTexts(output, max, t, AnyFloat());
      SkipsExactlyJsonTexts(output, max);
    }
  }
}
