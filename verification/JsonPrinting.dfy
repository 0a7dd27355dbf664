/**
 How a value is printed, apart from any writer: a recursion over the value, with a mark on every container
 that stays on one line. The writer's text is exactly this.
 */
module JsonPrinting {
  import opened Bytes
  import opened Serial
  import opened JsonNumber
  import opened JsonText
  import opened JsonGrammar
  import opened JsonLayout
  import W = JsonWriter
  import Base64

  /** A value with a mark on each container: `flat` ones stay on one line. */
  datatype Doc =
    | Scalar(leaf: Leaf<FloatText>)
    | List(flat: bool, items: seq<Doc>)
    | Record(flat: bool, parts: seq<Part>)

  datatype Part = Part(key: Text, value: Doc)

  /** A line break and the indentation of a line inside `depth` containers; at no indentation there are no lines. */
  function LineStart(indent: nat, depth: nat): (text: seq<Byte>)
    ensures indent > 0 ==> |text| == 1 + indent * depth && text[0] == 0x0A
    ensures indent > 0 ==> forall i :: 0 < i < |text| ==> text[i] == 0x20
    ensures indent == 0 ==> text == []
  {
    if indent == 0 then [] else seq(1 + indent * depth, i => if i == 0 then 0x0A else 0x20)
  }

  /** What stands before a part of a container: a comma unless it is the first, and a new line or a space. */
  function Before(flat: bool, isFirst: bool, indent: nat, depth: nat): seq<Byte> {
    if flat then (if isFirst then [] else if indent > 0 then [0x2C, 0x20] else [0x2C])
    else (if isFirst then [] else [0x2C]) + LineStart(indent, depth)
  }

  /** What stands before the closing bracket of a container inside `depth` others. */
  function BeforeEnd(flat: bool, isEmpty: bool, indent: nat, depth: nat): seq<Byte> {
    if flat || isEmpty then [] else LineStart(indent, depth)
  }

  function KeyText(key: Text, indent: nat): seq<Byte> {
    Quoted(key) + (if indent > 0 then [0x3A, 0x20] else [0x3A])
  }

  /** The text of a value inside `depth` containers. */
  function Printed(d: Doc, indent: nat, depth: nat): seq<Byte>
    decreases d, 1
  {
    match d
    case Scalar(leaf) => W.LeafText(leaf)
    case List(flat, items) =>
      [0x5B] + PrintedItems(items, flat, indent, depth + 1) + BeforeEnd(flat, items == [], indent, depth) + [0x5D]
    case Record(flat, parts) =>
      [0x7B] + PrintedParts(parts, flat, indent, depth + 1) + BeforeEnd(flat, parts == [], indent, depth) + [0x7D]
  }

  function PrintedItems(items: seq<Doc>, flat: bool, indent: nat, depth: nat): seq<Byte>
    decreases items, 0
  {
    if items == [] then []
    else
      var front := items[..|items| - 1];
      PrintedItems(front, flat, indent, depth) + Before(flat, front == [], indent, depth)
      + Printed(items[|items| - 1], indent, depth)
  }

  function PrintedParts(parts: seq<Part>, flat: bool, indent: nat, depth: nat): seq<Byte>
    decreases parts, 0
  {
    if parts == [] then []
    else
      var front, last := parts[..|parts| - 1], parts[|parts| - 1];
      PrintedParts(front, flat, indent, depth) + Before(flat, front == [], indent, depth)
      + KeyText(last.key, indent) + Printed(last.value, indent, depth)
  }

  /** The marks are put on this value. */
  predicate IsDocOf(d: Doc, t: Value)
    decreases t, 1
  {
    match t
    case Leaf(leaf) => d == Scalar(leaf)
    case Array(items) => d.List? && AreDocsOf(d.items, items)
    case Object(entries) => d.Record? && ArePartsOf(d.parts, entries)
  }

  predicate AreDocsOf(docs: seq<Doc>, items: seq<Value>)
    decreases items, 0
  {
    |docs| == |items|
    && (items == [] || (AreDocsOf(docs[..|items| - 1], items[..|items| - 1]) && IsDocOf(docs[|items| - 1], items[|items| - 1])))
  }

  predicate ArePartsOf(parts: seq<Part>, entries: seq<Field>)
    decreases entries, 0
  {
    |parts| == |entries|
    && (entries == []
        || (var n := |entries| - 1;
            && ArePartsOf(parts[..n], entries[..n])
            && parts[n].key == entries[n].key && IsDocOf(parts[n].value, entries[n].value)))
  }

  /** The value with every container on lines of its own. */
  function Plain(t: Value): Doc
    decreases t, 1
  {
    match t
    case Leaf(leaf) => Scalar(leaf)
    case Array(items) => List(false, PlainItems(items))
    case Object(entries) => Record(false, PlainParts(entries))
  }

  function PlainItems(items: seq<Value>): (docs: seq<Doc>)
    ensures |docs| == |items|
    decreases items, 0
  {
    if items == [] then [] else PlainItems(items[..|items| - 1]) + [Plain(items[|items| - 1])]
  }

  function PlainParts(entries: seq<Field>): (parts: seq<Part>)
    ensures |parts| == |entries|
    decreases entries, 0
  {
    if entries == [] then []
    else
      var last := entries[|entries| - 1];
      PlainParts(entries[..|entries| - 1]) + [Part(last.key, Plain(last.value))]
  }

  /** Every container inside a flat one is flat. */
  predicate IsMarked(d: Doc, inFlat: bool)
    decreases d, 1
  {
    match d
    case Scalar(_) => true
    case List(flat, items) => (inFlat ==> flat) && AreMarked(items, flat)
    case Record(flat, parts) => (inFlat ==> flat) && PartsAreMarked(parts, flat)
  }

  predicate AreMarked(items: seq<Doc>, inFlat: bool)
    decreases items, 0
  {
    items == [] || (AreMarked(items[..|items| - 1], inFlat) && IsMarked(items[|items| - 1], inFlat))
  }

  predicate PartsAreMarked(parts: seq<Part>, inFlat: bool)
    decreases parts, 0
  {
    parts == [] || (PartsAreMarked(parts[..|parts| - 1], inFlat) && IsMarked(parts[|parts| - 1].value, inFlat))
  }

  // Reading a text byte by byte

  /** How many brackets are open, and whether a string is, and an escape in it. */
  datatype Scan = Scan(depth: int, quoted: bool, escaped: bool) {
    function Next(b: Byte): Scan {
      if escaped then this.(escaped := false)
      else if quoted then
        if b == 0x5C then this.(escaped := true) else if b == 0x22 then this.(quoted := false) else this
      else if b == 0x22 then this.(quoted := true)
      else if b == 0x5B || b == 0x7B then this.(depth := depth + 1)
      else if b == 0x5D || b == 0x7D then this.(depth := depth - 1)
      else this
    }
  }

  function Through(s: Scan, text: seq<Byte>): Scan
    decreases |text|
  {
    if text == [] then s else Through(s, text[..|text| - 1]).Next(text[|text| - 1])
  }

  lemma {:induction false} ThroughConcat(s: Scan, a: seq<Byte>, b: seq<Byte>)
    ensures Through(s, a + b) == Through(Through(s, a), b)
    decreases |b|
  {
    if b == [] {
      assert a + b == a;
    } else {
      assert (a + b)[..|a + b| - 1] == a + b[..|b| - 1];
      ThroughConcat(s, a, b[..|b| - 1]);
    }
  }

  predicate IsEnd(b: Byte) {
    b == 0x5D || b == 0x7D
  }

  /**
   The line feed at `p` stands outside strings, and behind it come exactly `indent` spaces for every container
   that is open there, but for the one that the line closes, and then a byte that is none.
   */
  ghost predicate IsLine(at: Scan, text: seq<Byte>, p: nat, indent: nat) {
    !at.quoted
    && exists k: nat :: IsIndented(text, p, indent * k) && k == at.depth - if IsEndAt(text, p + 1 + indent * k) then 1 else 0
  }

  predicate IsEndAt(text: seq<Byte>, p: nat) {
    p < |text| && IsEnd(text[p])
  }

  ghost predicate IsIndented(text: seq<Byte>, p: nat, count: nat) {
    && p + 1 + count < |text|
    && (forall q :: p < q <= p + count ==> text[q] == 0x20)
    && text[p + 1 + count] != 0x20 && text[p + 1 + count] != 0x0A
  }

  ghost predicate LinesFit(s: Scan, text: seq<Byte>, indent: nat) {
    forall p: nat :: p < |text| ==> LineAt(s, text, p, indent)
  }

  ghost predicate LineAt(s: Scan, text: seq<Byte>, p: nat, indent: nat)
    requires p < |text|
  {
    text[p] == 0x0A ==> IsLine(Through(s, text[..p]), text, p, indent)
  }

  predicate HasNoLine(text: seq<Byte>) {
    forall p :: 0 <= p < |text| ==> text[p] != 0x0A
  }

  lemma IndentedInFront(a: seq<Byte>, b: seq<Byte>, p: nat, count: nat)
    requires IsIndented(a, p, count)
    ensures IsIndented(a + b, p, count) && IsEndAt(a + b, p + 1 + count) == IsEndAt(a, p + 1 + count)
  {
  }

  lemma IndentedBehind(a: seq<Byte>, b: seq<Byte>, q: nat, count: nat)
    requires IsIndented(b, q, count)
    ensures IsIndented(a + b, |a| + q, count) && IsEndAt(a + b, |a| + q + 1 + count) == IsEndAt(b, q + 1 + count)
  {
    forall r | |a| + q < r <= |a| + q + count
      ensures (a + b)[r] == 0x20
    {
      assert (a + b)[r] == b[r - |a|];
    }
  }

  lemma LineInFront(at: Scan, a: seq<Byte>, b: seq<Byte>, p: nat, indent: nat)
    requires IsLine(at, a, p, indent)
    ensures IsLine(at, a + b, p, indent)
  {
    hide IsIndented;
    var k: nat :| IsIndented(a, p, indent * k) && k == at.depth - if IsEndAt(a, p + 1 + indent * k) then 1 else 0;
    IndentedInFront(a, b, p, indent * k);
  }

  lemma LineBehind(at: Scan, a: seq<Byte>, b: seq<Byte>, q: nat, indent: nat)
    requires IsLine(at, b, q, indent)
    ensures IsLine(at, a + b, |a| + q, indent)
  {
    hide IsIndented;
    var k: nat :| IsIndented(b, q, indent * k) && k == at.depth - if IsEndAt(b, q + 1 + indent * k) then 1 else 0;
    IndentedBehind(a, b, q, indent * k);
  }

  lemma LinesConcat(s: Scan, a: seq<Byte>, b: seq<Byte>, indent: nat)
    requires LinesFit(s, a, indent) && LinesFit(Through(s, a), b, indent)
    ensures LinesFit(s, a + b, indent)
  {
    hide LineAt, Through;
    forall p: nat | p < |a + b|
      ensures LineAt(s, a + b, p, indent)
    {
      if p < |a| {
        LineOfFirst(s, a, b, p, indent);
      } else {
        LineOfSecond(s, a, b, p - |a|, indent);
      }
    }
  }

  lemma LineOfFirst(s: Scan, a: seq<Byte>, b: seq<Byte>, p: nat, indent: nat)
    requires p < |a| && LineAt(s, a, p, indent)
    ensures LineAt(s, a + b, p, indent)
  {
    hide IsLine, Through;
    assert (a + b)[..p] == a[..p];
    if a[p] == 0x0A {
      LineInFront(Through(s, a[..p]), a, b, p, indent);
    }
  }

  lemma LineOfSecond(s: Scan, a: seq<Byte>, b: seq<Byte>, q: nat, indent: nat)
    requires q < |b| && LineAt(Through(s, a), b, q, indent)
    ensures LineAt(s, a + b, |a| + q, indent)
  {
    hide IsLine, Through;
    assert (a + b)[..|a| + q] == a + b[..q];
    ThroughConcat(s, a, b[..q]);
    if b[q] == 0x0A {
      LineBehind(Through(Through(s, a), b[..q]), a, b, q, indent);
    }
  }

  lemma NoLines(s: Scan, text: seq<Byte>, indent: nat)
    requires HasNoLine(text)
    ensures LinesFit(s, text, indent)
  {
  }

  /** A line that is started, and something visible on it. */
  lemma LineThen(s: Scan, body: seq<Byte>, indent: nat, depth: nat)
    requires indent > 0 && !s.quoted && !s.escaped
    requires body != [] && body[0] != 0x20 && body[0] != 0x0A && LinesFit(s, body, indent)
    requires depth == s.depth - if IsEnd(body[0]) then 1 else 0
    ensures LinesFit(s, LineStart(indent, depth) + body, indent)
    ensures Through(s, LineStart(indent, depth)) == s
  {
    hide Through, LineAt;
    var start := LineStart(indent, depth);
    SpacesPass(s, start);
    forall p: nat | p < |start + body|
      ensures LineAt(s, start + body, p, indent)
    {
      if p < |start| {
        InLineStart(s, body, indent, depth, p);
      } else {
        LineOfSecond(s, start, body, p - |start|, indent);
      }
    }
  }

  lemma InLineStart(s: Scan, body: seq<Byte>, indent: nat, depth: nat, p: nat)
    requires indent > 0 && !s.quoted && body != [] && body[0] != 0x20 && body[0] != 0x0A
    requires depth == s.depth - (if IsEnd(body[0]) then 1 else 0) && p < |LineStart(indent, depth)|
    ensures LineAt(s, LineStart(indent, depth) + body, p, indent)
  {
    var start := LineStart(indent, depth);
    assert (start + body)[p] == start[p];
    assert (start + body)[..0] == [];
    StartsLine(s, body, indent, depth);
  }

  lemma StartsLine(s: Scan, body: seq<Byte>, indent: nat, depth: nat)
    requires indent > 0 && !s.quoted && body != [] && body[0] != 0x20 && body[0] != 0x0A
    requires depth == s.depth - if IsEnd(body[0]) then 1 else 0
    ensures IsLine(s, LineStart(indent, depth) + body, 0, indent) && Through(s, []) == s
  {
    var start := LineStart(indent, depth);
    var text := start + body;
    assert text[|start|] == body[0];
    assert forall q :: 0 < q < |start| ==> text[q] == start[q];
    assert IsIndented(text, 0, indent * depth);
  }

  lemma {:induction false} SpacesPass(s: Scan, text: seq<Byte>)
    requires !s.quoted && !s.escaped && forall i :: 0 <= i < |text| ==> text[i] == 0x20 || text[i] == 0x0A
    ensures Through(s, text) == s
    decreases |text|
  {
    if text != [] {
      SpacesPass(s, text[..|text| - 1]);
    }
  }

  // What a scalar is to the scan

  /** A byte that neither starts nor ends anything. */
  predicate IsQuiet(b: Byte) {
    b != 0x22 && b != 0x5B && b != 0x5D && b != 0x7B && b != 0x7D && b != 0x0A
  }

  predicate AllQuiet(text: seq<Byte>) {
    forall i :: 0 <= i < |text| ==> IsQuiet(text[i])
  }

  lemma {:induction false} QuietPasses(s: Scan, text: seq<Byte>)
    requires !s.quoted && !s.escaped && AllQuiet(text)
    ensures Through(s, text) == s && HasNoLine(text)
    decreases |text|
  {
    if text != [] {
      QuietPasses(s, text[..|text| - 1]);
    }
  }

  lemma DigitsAreQuiet(digits: seq<Byte>)
    requires AllDigits(digits)
    ensures AllQuiet(digits)
  {
  }

  lemma NumberIsQuiet(n: Number)
    requires n.Valid()
    ensures AllQuiet(n.Text())
  {
    DigitsAreQuiet(n.whole);
    if n.fraction.Some? {
      DigitsAreQuiet(n.fraction.value);
    }
    if n.exponent.Some? {
      DigitsAreQuiet(n.exponent.value.digits);
    }
    assert AllQuiet(n.Head()) && AllQuiet(n.FractionText()) && AllQuiet(n.ExponentText());
  }

  lemma EscapedPasses(s: Scan, b: Byte)
    requires s.quoted && !s.escaped
    ensures Through(s, Escaped(b)) == s && HasNoLine(Escaped(b))
  {
    var text := Escaped(b);
    if |text| == 1 {
      assert text[..0] == [];
    } else if |text| == 2 {
      assert text[..1][..0] == [] && text[..1][0] == 0x5C;
      assert Through(s, text[..1]) == s.(escaped := true);
    } else {
      assert text[..1][..0] == [] && text[..1][0] == 0x5C;
      assert Through(s, text[..1]) == s.(escaped := true);
      assert text[..2][..1] == text[..1] && Through(s, text[..2]) == s;
      assert text[..3][..2] == text[..2] && Through(s, text[..3]) == s;
      assert text[..4][..3] == text[..3] && Through(s, text[..4]) == s;
      assert text[..5][..4] == text[..4] && Through(s, text[..5]) == s;
    }
  }

  lemma {:induction false} BodyPasses(s: Scan, text: seq<Byte>, k: nat)
    requires s.quoted && !s.escaped && k <= |text|
    ensures Through(s, EscapedFrom(text, k)) == s && HasNoLine(EscapedFrom(text, k))
    decreases |text| - k
  {
    hide Escaped;
    if k < |text| {
      EscapedPasses(s, text[k]);
      BodyPasses(s, text, k + 1);
      ThroughConcat(s, Escaped(text[k]), EscapedFrom(text, k + 1));
    }
  }

  lemma ThroughOne(s: Scan, b: Byte)
    ensures Through(s, [b]) == s.Next(b)
  {
    assert [b][..0] == [];
  }

  lemma QuotedPasses(s: Scan, text: seq<Byte>)
    requires !s.quoted && !s.escaped
    ensures Through(s, Quoted(text)) == s && HasNoLine(Quoted(text))
  {
    hide Through, Escaped;
    var inside := s.(quoted := true);
    ThroughOne(s, QUOTE);
    BodyPasses(inside, text, 0);
    ThroughOne(inside, QUOTE);
    ThroughConcat(s, [QUOTE] + EscapedFrom(text, 0), [QUOTE]);
    ThroughConcat(s, [QUOTE], EscapedFrom(text, 0));
  }

  lemma ScalarPasses(s: Scan, leaf: Leaf<FloatText>)
    requires !s.quoted && !s.escaped
    ensures Through(s, W.LeafText(leaf)) == s && HasNoLine(W.LeafText(leaf))
  {
    hide Through, Quoted, Number.Text;
    match leaf
    case Str(text) => QuotedPasses(s, text);
    case Blob(bytes) =>
      BlobIsQuoted(bytes);
      QuotedPasses(s, Base64.Encode(bytes));
    case Signed(v) =>
      NumberIsQuiet(IntegerNumber(v));
      QuietPasses(s, IntegerNumber(v).Text());
    case Unsigned(v) =>
      NumberIsQuiet(IntegerNumber(v));
      QuietPasses(s, IntegerNumber(v).Text());
    case Float(f) =>
      NumberIsQuiet(f);
      QuietPasses(s, f.Text());
    case _ => QuietPasses(s, W.LeafText(leaf));
  }

  // Every line of a printed text is indented as deep as it is nested

  lemma PrintedStarts(d: Doc, indent: nat, depth: nat)
    ensures var text := Printed(d, indent, depth);
            text != [] && text[0] != 0x20 && text[0] != 0x0A && !IsEnd(text[0])
  {
    match d
    case Scalar(leaf) => LeafIsToken(leaf);
    case _ =>
  }

  /** A part behind what is before it. */
  lemma PartLines(s: Scan, part: seq<Byte>, flat: bool, isFirst: bool, indent: nat)
    requires indent > 0 && s.depth >= 0 && !s.quoted && !s.escaped
    requires part != [] && part[0] != 0x20 && part[0] != 0x0A && !IsEnd(part[0])
    requires LinesFit(s, part, indent) && Through(s, part) == s
    ensures var text := Before(flat, isFirst, indent, s.depth) + part;
            LinesFit(s, text, indent) && Through(s, text) == s
  {
    hide Through, LinesFit;
    var comma: seq<Byte> := if isFirst then [] else [0x2C];
    if flat {
      var before := Before(flat, isFirst, indent, s.depth);
      QuietPasses(s, before);
      NoLines(s, before, indent);
      LinesConcat(s, before, part, indent);
      ThroughConcat(s, before, part);
    } else {
      var start := LineStart(indent, s.depth);
      LineThen(s, part, indent, s.depth);
      ThroughConcat(s, start, part);
      QuietPasses(s, comma);
      NoLines(s, comma, indent);
      LinesConcat(s, comma, start + part, indent);
      ThroughConcat(s, comma, start + part);
      ConcatAssociative(comma, start, part);
    }
  }

  /** The closing bracket, on a line of its own or not. */
  lemma EndLines(s: Scan, flat: bool, isEmpty: bool, indent: nat, closing: Byte)
    requires indent > 0 && s.depth >= 0 && !s.quoted && !s.escaped && IsEnd(closing)
    ensures var inside, text := s.(depth := s.depth + 1), BeforeEnd(flat, isEmpty, indent, s.depth) + [closing];
            LinesFit(inside, text, indent) && Through(inside, text) == s
  {
    hide Through, LinesFit;
    var inside := s.(depth := s.depth + 1);
    ThroughOne(inside, closing);
    LastByteFits(inside, closing, indent);
    if flat || isEmpty {
      assert [] + [closing] == [closing];
    } else {
      LineThen(inside, [closing], indent, s.depth);
      ThroughConcat(inside, LineStart(indent, s.depth), [closing]);
    }
  }

  lemma LastByteFits(s: Scan, b: Byte, indent: nat)
    requires b != 0x0A
    ensures LinesFit(s, [b], indent)
  {
  }

  /** The brackets of a container around what it holds. */
  lemma BracketLines(s: Scan, opening: Byte, body: seq<Byte>, flat: bool, isEmpty: bool, indent: nat, closing: Byte)
    requires indent > 0 && s.depth >= 0 && !s.quoted && !s.escaped
    requires (opening == 0x5B || opening == 0x7B) && IsEnd(closing)
    requires LinesFit(s.(depth := s.depth + 1), body, indent)
    requires Through(s.(depth := s.depth + 1), body) == s.(depth := s.depth + 1)
    ensures var text := [opening] + body + BeforeEnd(flat, isEmpty, indent, s.depth) + [closing];
            LinesFit(s, text, indent) && Through(s, text) == s
  {
    hide Through, LinesFit, BeforeEnd;
    var inside := s.(depth := s.depth + 1);
    var ending := BeforeEnd(flat, isEmpty, indent, s.depth) + [closing];
    ThroughOne(s, opening);
    LastByteFits(s, opening, indent);
    EndLines(s, flat, isEmpty, indent, closing);
    LinesConcat(s, [opening], body, indent);
    ThroughConcat(s, [opening], body);
    LinesConcat(s, [opening] + body, ending, indent);
    ThroughConcat(s, [opening] + body, ending);
    ConcatAssociative([opening] + body, BeforeEnd(flat, isEmpty, indent, s.depth), [closing]);
  }

  /** At any indentation but none, each line of a printed text is indented by the containers open there. */
  lemma {:induction false} PrintedLines(d: Doc, indent: nat, depth: nat)
    requires indent > 0
    ensures var s := Scan(depth, false, false);
            LinesFit(s, Printed(d, indent, depth), indent) && Through(s, Printed(d, indent, depth)) == s
    decreases d, 1
  {
    hide Through, LinesFit, BeforeEnd;
    var s := Scan(depth, false, false);
    match d
    case Scalar(leaf) =>
      ScalarPasses(s, leaf);
      NoLines(s, W.LeafText(leaf), indent);
    case List(flat, items) =>
      ItemLines(items, flat, indent, depth + 1);
      BracketLines(s, 0x5B, PrintedItems(items, flat, indent, depth + 1), flat, items == [], indent, 0x5D);
    case Record(flat, parts) =>
      RecordLines(parts, flat, indent, depth + 1);
      BracketLines(s, 0x7B, PrintedParts(parts, flat, indent, depth + 1), flat, parts == [], indent, 0x7D);
  }

  lemma NothingFits(s: Scan, indent: nat)
    ensures LinesFit(s, [], indent) && Through(s, []) == s
  {
  }

  lemma {:induction false} ItemLines(items: seq<Doc>, flat: bool, indent: nat, depth: nat)
    requires indent > 0
    ensures var s := Scan(depth, false, false);
            LinesFit(s, PrintedItems(items, flat, indent, depth), indent)
            && Through(s, PrintedItems(items, flat, indent, depth)) == s
    decreases items, 0
  {
    hide Through, LinesFit, Before, Printed;
    var s := Scan(depth, false, false);
    if items == [] {
      NothingFits(s, indent);
    } else {
      var front, last := items[..|items| - 1], Printed(items[|items| - 1], indent, depth);
      var before, earlier := Before(flat, front == [], indent, depth), PrintedItems(front, flat, indent, depth);
      ItemLines(front, flat, indent, depth);
      PrintedLines(items[|items| - 1], indent, depth);
      PrintedStarts(items[|items| - 1], indent, depth);
      PartLines(s, last, flat, front == [], indent);
      LinesConcat(s, earlier, before + last, indent);
      ThroughConcat(s, earlier, before + last);
      ConcatAssociative(earlier, before, last);
    }
  }

  lemma {:induction false} RecordLines(parts: seq<Part>, flat: bool, indent: nat, depth: nat)
    requires indent > 0
    ensures var s := Scan(depth, false, false);
            LinesFit(s, PrintedParts(parts, flat, indent, depth), indent)
            && Through(s, PrintedParts(parts, flat, indent, depth)) == s
    decreases parts, 0
  {
    hide Through, LinesFit, Before, Printed, KeyText;
    var s := Scan(depth, false, false);
    if parts == [] {
      NothingFits(s, indent);
    } else {
      var front, last := parts[..|parts| - 1], parts[|parts| - 1];
      var before, earlier := Before(flat, front == [], indent, depth), PrintedParts(front, flat, indent, depth);
      var key, value := KeyText(last.key, indent), Printed(last.value, indent, depth);
      RecordLines(front, flat, indent, depth);
      PrintedLines(last.value, indent, depth);
      KeyLines(s, last.key, value, indent);
      PartLines(s, key + value, flat, front == [], indent);
      LinesConcat(s, earlier, before + (key + value), indent);
      ThroughConcat(s, earlier, before + (key + value));
      ConcatAssociative(earlier + before, key, value);
      ConcatAssociative(earlier, before, key + value);
    }
  }

  /** A key and its value. */
  lemma KeyLines(s: Scan, key: Text, value: seq<Byte>, indent: nat)
    requires !s.quoted && !s.escaped && LinesFit(s, value, indent) && Through(s, value) == s
    ensures var text := KeyText(key, indent) + value;
            && text != [] && text[0] == 0x22
            && LinesFit(s, text, indent) && Through(s, text) == s
  {
    hide Through, LinesFit, Escaped;
    var colon: seq<Byte> := if indent > 0 then [0x3A, 0x20] else [0x3A];
    QuotedPasses(s, key);
    QuietPasses(s, colon);
    ThroughConcat(s, Quoted(key), colon);
    NoLines(s, Quoted(key) + colon, indent);
    LinesConcat(s, Quoted(key) + colon, value, indent);
    ThroughConcat(s, Quoted(key) + colon, value);
    QuoteStarts(EscapedFrom(key, 0));
  }

  // Without indentation a text is its tokens, and a flat container is one line

  function Joined(tokens: seq<Token>): seq<Byte> {
    if tokens == [] then [] else tokens[0] + Joined(tokens[1..])
  }

  lemma {:induction false} JoinedConcat(a: seq<Token>, b: seq<Token>)
    ensures Joined(a + b) == Joined(a) + Joined(b)
    decreases |a|
  {
    if a == [] {
      assert a + b == b;
    } else {
      assert (a + b)[1..] == a[1..] + b;
      JoinedConcat(a[1..], b);
    }
  }

  lemma JoinedOne(t: Token)
    ensures Joined([t]) == t
  {
  }

  /** A flat container that holds only flat ones has no line break, and everything in it neither. */
  lemma {:induction false} FlatIsOneLine(d: Doc, indent: nat, depth: nat)
    requires IsMarked(d, true)
    ensures HasNoLine(Printed(d, indent, depth))
    decreases d, 1
  {
    match d
    case Scalar(leaf) => ScalarPasses(Scan(0, false, false), leaf);
    case List(flat, items) => FlatItems(items, indent, depth + 1);
    case Record(flat, parts) => FlatParts(parts, indent, depth + 1);
  }

  lemma {:induction false} FlatItems(items: seq<Doc>, indent: nat, depth: nat)
    requires AreMarked(items, true)
    ensures HasNoLine(PrintedItems(items, true, indent, depth))
    decreases items, 0
  {
    hide Printed;
    if items != [] {
      FlatItems(items[..|items| - 1], indent, depth);
      FlatIsOneLine(items[|items| - 1], indent, depth);
    }
  }

  lemma {:induction false} FlatParts(parts: seq<Part>, indent: nat, depth: nat)
    requires PartsAreMarked(parts, true)
    ensures HasNoLine(PrintedParts(parts, true, indent, depth))
    decreases parts, 0
  {
    hide Printed, Quoted;
    if parts != [] {
      FlatParts(parts[..|parts| - 1], indent, depth);
      FlatIsOneLine(parts[|parts| - 1].value, indent, depth);
      QuotedPasses(Scan(0, false, false), parts[|parts| - 1].key);
    }
  }
}
