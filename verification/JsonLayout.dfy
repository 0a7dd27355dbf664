/**
 The tokens of a value, and texts that lay them out: spaces may stand before each token, and nothing
 else. Every layout of the tokens of a value is read back as that value.
 */
module JsonLayout {
  import opened Bytes
  import opened Serial
  import opened JsonNumber
  import opened JsonText
  import opened JsonGrammar
  import opened JsonWriter
  import Base64
  import Utf8

  /** Something the layout keeps whole; it does not start with a space. */
  type Token = t: seq<Byte> | t != [] && !IsSpace(t[0]) witness [COMMA]

  /** Where the text that lays out `tokens` from `pos` on ends, if it does. */
  function LaidEnd(input: seq<Byte>, pos: nat, tokens: seq<Token>): Option<nat>
    decreases |tokens|
  {
    if tokens == [] then Some(pos)
    else
      var start := SkipSpace(input, pos);
      if At(input, start, tokens[0]) then LaidEnd(input, start + |tokens[0]|, tokens[1..]) else None
  }

  lemma {:induction false} LaidConcat(input: seq<Byte>, pos: nat, a: seq<Token>, b: seq<Token>)
    ensures LaidEnd(input, pos, a + b)
         == match LaidEnd(input, pos, a)
            case None => None
            case Some(middle) => LaidEnd(input, middle, b)
    decreases |a|
  {
    if a == [] {
      assert a + b == b;
    } else {
      assert (a + b)[1..] == a[1..] + b;
      LaidConcat(input, SkipSpace(input, pos) + |a[0]|, a[1..], b);
    }
  }

  lemma LaidOne(input: seq<Byte>, pos: nat, token: Token)
    ensures var start := SkipSpace(input, pos);
            LaidEnd(input, pos, [token]) == if At(input, start, token) then Some(start + |token|) else None
  {
  }

  lemma {:induction false} SkipSpaceExtend(input: seq<Byte>, more: seq<Byte>, pos: nat)
    requires SkipSpace(input, pos) < |input|
    ensures SkipSpace(input + more, pos) == SkipSpace(input, pos)
    decreases |input| - pos
  {
    assert pos < |input|;
    assert (input + more)[pos] == input[pos];
    if IsSpace(input[pos]) {
      SkipSpaceExtend(input, more, pos + 1);
    }
  }

  /** What is laid out stays so when the text grows. */
  lemma {:induction false} LaidExtend(input: seq<Byte>, more: seq<Byte>, pos: nat, tokens: seq<Token>)
    requires pos <= |input| && LaidEnd(input, pos, tokens).Some?
    ensures LaidEnd(input + more, pos, tokens) == LaidEnd(input, pos, tokens)
    ensures pos <= LaidEnd(input, pos, tokens).value <= |input|
    decreases |tokens|
  {
    if tokens != [] {
      var start := SkipSpace(input, pos);
      assert At(input, start, tokens[0]);
      SkipSpaceExtend(input, more, pos);
      AtExtend(input, more, start, tokens[0]);
      LaidExtend(input, more, start + |tokens[0]|, tokens[1..]);
    }
  }

  lemma AtExtend(input: seq<Byte>, more: seq<Byte>, pos: nat, part: seq<Byte>)
    requires At(input, pos, part)
    ensures At(input + more, pos, part)
  {
    forall i | 0 <= i < |part|
      ensures part[i] == (input + more)[pos + i]
    {
      assert (input + more)[pos + i] == input[pos + i];
    }
  }

  predicate AllSpaces(gap: seq<Byte>) {
    forall i :: 0 <= i < |gap| ==> IsSpace(gap[i])
  }

  /** The text from `pos` on lays out `tokens`, and after them come only spaces. */
  ghost predicate LaidThrough(output: seq<Byte>, pos: nat, tokens: seq<Token>) {
    && pos <= |output|
    && match LaidEnd(output, pos, tokens)
       case None => false
       case Some(end) => end <= |output| && SpacesFrom(output, end)
  }

  predicate SpacesFrom(output: seq<Byte>, pos: nat) {
    forall i :: pos <= i < |output| ==> IsSpace(output[i])
  }

  lemma {:induction false} SkipSpaces(input: seq<Byte>, pos: nat, next: nat)
    requires pos <= next <= |input| && (forall i :: pos <= i < next ==> IsSpace(input[i]))
    requires next == |input| || !IsSpace(input[next])
    ensures SkipSpace(input, pos) == next
    decreases next - pos
  {
    if pos < next {
      SkipSpaces(input, pos + 1, next);
    }
  }

  /** Spaces and a token at the end of the text lay out one more token. */
  lemma LaidMore(output: seq<Byte>, pos: nat, tokens: seq<Token>, gap: seq<Byte>, token: Token)
    requires LaidThrough(output, pos, tokens) && AllSpaces(gap)
    ensures LaidThrough(output + gap + token, pos, tokens + [token])
  {
    var all := output + gap + token;
    var end := LaidEnd(output, pos, tokens).value;
    assert LaidEnd(all, pos, tokens) == Some(end) by {
      LaidExtend(output, gap + token, pos, tokens);
      assert output + (gap + token) == all;
    }
    assert LaidEnd(all, end, [token]) == Some(|all|) by {
      AppendedToken(output, gap, token, end);
    }
    LaidConcat(all, pos, tokens, [token]);
  }

  lemma AppendedToken(output: seq<Byte>, gap: seq<Byte>, token: Token, end: nat)
    requires AllSpaces(gap) && end <= |output| && SpacesFrom(output, end)
    ensures LaidEnd(output + gap + token, end, [token]) == Some(|output + gap + token|)
  {
    var all := output + gap + token;
    var next := |output| + |gap|;
    forall i | end <= i < next
      ensures IsSpace(all[i])
    {
      assert all[i] == if i < |output| then output[i] else gap[i - |output|];
    }
    assert all[next] == token[0];
    SkipSpaces(all, end, next);
    assert At(all, next, token);
    LaidOne(all, end, token);
  }

  lemma LaidGap(output: seq<Byte>, pos: nat, tokens: seq<Token>, gap: seq<Byte>)
    requires LaidThrough(output, pos, tokens) && AllSpaces(gap)
    ensures LaidThrough(output + gap, pos, tokens)
  {
    LaidExtend(output, gap, pos, tokens);
  }

  // The tokens of a value

  lemma LeafIsToken(leaf: Leaf<FloatText>)
    ensures LeafText(leaf) != [] && !IsSpace(LeafText(leaf)[0])
    ensures LeafText(leaf)[0] != CLOSE_BRACKET && LeafText(leaf)[0] != CLOSE_BRACE
  {
    match leaf
    case Signed(v) => NumberStarts(IntegerNumber(v));
    case Unsigned(v) => NumberStarts(IntegerNumber(v));
    case Float(f) => NumberStarts(f);
    case Str(text) => QuoteStarts(EscapedFrom(text, 0));
    case Blob(bytes) => QuoteStarts(Base64.Encode(bytes));
    case _ =>
  }

  lemma NumberStarts(n: Number)
    requires n.Valid()
    ensures n.Text() != [] && (n.Text()[0] == MINUS || IsDigit(n.Text()[0]))
  {
    assert n.Text()[0] == n.Head()[0];
  }

  lemma QuoteStarts(body: seq<Byte>)
    ensures ([QUOTE] + body + [QUOTE])[0] == QUOTE
  {
  }

  function LeafToken(leaf: Leaf<FloatText>): Token {
    LeafIsToken(leaf);
    LeafText(leaf)
  }

  function KeyToken(key: Text): Token {
    QuoteStarts(EscapedFrom(key, 0));
    Quoted(key)
  }

  lemma KeyStarts(key: Text)
    ensures KeyToken(key)[0] == QUOTE
  {
    QuoteStarts(EscapedFrom(key, 0));
  }

  /** A comma stands before every item but the first. */
  function Comma(first: bool): seq<Token> {
    if first then [] else [[COMMA]]
  }

  function Tokens(t: Value): seq<Token>
    decreases t, 1
  {
    match t
    case Leaf(leaf) => [LeafToken(leaf)]
    case Array(items) => [[OPEN_BRACKET]] + ItemTokens(items, true) + [[CLOSE_BRACKET]]
    case Object(entries) => [[OPEN_BRACE]] + EntryTokens(entries, true) + [[CLOSE_BRACE]]
  }

  function ItemTokens(items: seq<Value>, first: bool): seq<Token>
    decreases items, 0
  {
    if items == [] then [] else Comma(first) + Tokens(items[0]) + ItemTokens(items[1..], false)
  }

  function EntryTokens(entries: seq<Field>, first: bool): seq<Token>
    decreases entries, 0
  {
    if entries == [] then []
    else Comma(first) + KeyTokens(entries[0].key) + Tokens(entries[0].value) + EntryTokens(entries[1..], false)
  }

  function KeyTokens(key: Text): seq<Token> {
    [KeyToken(key), [COLON]]
  }

  lemma TokensStart(t: Value)
    ensures Tokens(t) != []
    ensures Tokens(t)[0][0] != CLOSE_BRACKET && Tokens(t)[0][0] != CLOSE_BRACE
  {
    match t
    case Leaf(leaf) => LeafIsToken(leaf);
    case Array(items) => assert Tokens(t)[0] == [OPEN_BRACKET];
    case Object(entries) => assert Tokens(t)[0] == [OPEN_BRACE];
  }

  // Reading tokens

  /** Texts are UTF-8 and numbers are in the range of the reader: what makes a value writable and readable. */
  predicate Writable(t: Value, inRange: FloatText -> bool)
    decreases t, 1
  {
    match t
    case Leaf(leaf) => (leaf.Str? ==> Utf8.Valid(leaf.text)) && (leaf.Float? ==> inRange(leaf.float))
    case Array(items) => ItemsWritable(items, inRange)
    case Object(entries) => EntriesWritable(entries, inRange)
  }

  /** Every number can be skipped, and written, whatever a reader could make of it. */
  function AnyFloat(): FloatText -> bool {
    f => true
  }

  predicate ItemsWritable(items: seq<Value>, inRange: FloatText -> bool)
    decreases items, 0
  {
    items == [] || (Writable(items[0], inRange) && ItemsWritable(items[1..], inRange))
  }

  predicate EntriesWritable(entries: seq<Field>, inRange: FloatText -> bool)
    decreases entries, 0
  {
    entries == []
    || (Utf8.Valid(entries[0].key) && Writable(entries[0].value, inRange) && EntriesWritable(entries[1..], inRange))
  }

  /** The next token stands after the spaces. */
  lemma LaidStart(input: seq<Byte>, pos: nat, tokens: seq<Token>)
    requires tokens != [] && LaidEnd(input, pos, tokens).Some?
    ensures var start := SkipSpace(input, pos);
            && start < |input| && Current(input, start) == tokens[0][0]
            && At(input, start, tokens[0])
            && LaidEnd(input, start, tokens) == LaidEnd(input, pos, tokens)
            && LaidEnd(input, pos, tokens) == LaidEnd(input, start + |tokens[0]|, tokens[1..])
  {
    var start := SkipSpace(input, pos);
    SkipTwice(input, pos);
    assert input[start + 0] == tokens[0][0];
  }

  /** A number ends before a comma or a closing bracket, with or without spaces between. */
  lemma EndsBefore(input: seq<Byte>, pos: nat, tokens: seq<Token>)
    requires tokens != [] && LaidEnd(input, pos, tokens).Some?
    requires tokens[0][0] == COMMA || tokens[0][0] == CLOSE_BRACKET || tokens[0][0] == CLOSE_BRACE
    ensures EndsNumber(Current(input, pos))
  {
    LaidStart(input, pos, tokens);
  }

  lemma IntegerOfText(input: seq<Byte>, pos: nat, v: int)
    requires At(input, pos, IntegerNumber(v).Text()) && EndsNumber(Current(input, pos + |IntegerNumber(v).Text()|))
    ensures NumberAt(input, pos) == Ok((IntegerNumber(v), pos + |IntegerNumber(v).Text()|))
    ensures IntegerNumber(v).IntegerValue() == v
  {
    ScanOfText(input, pos, IntegerNumber(v));
    ValueOfIntegerNumber(v);
  }

  /** Base64 needs no escape. */
  lemma {:induction false} PlainIsUnescaped(text: seq<Byte>, k: nat)
    requires k <= |text| && forall i :: 0 <= i < |text| ==> Base64.Plain(text[i])
    ensures EscapedFrom(text, k) == Copy(text, k, |text| - k)
    ensures Utf8.ValidFrom(text, k)
    decreases |text| - k
  {
    if k < |text| {
      assert Base64.Plain(text[k]);
      PlainByte(text[k]);
      PlainIsUnescaped(text, k + 1);
      assert Utf8.Decode(text, k) == Ok((text[k] as nat, k + 1));
    }
  }

  lemma PlainByte(b: Byte)
    requires Base64.Plain(b)
    ensures b < 0x80 && Escaped(b) == [b]
  {
  }

  lemma BlobIsQuoted(bytes: seq<Byte>)
    ensures Quoted(Base64.Encode(bytes)) == [QUOTE] + Base64.Encode(bytes) + [QUOTE]
    ensures Utf8.Valid(Base64.Encode(bytes))
  {
    var text := Base64.Encode(bytes);
    forall i | 0 <= i < |text|
      ensures Base64.Plain(text[i])
    {
      Base64.EncodeIsPlain(bytes, i);
    }
    PlainIsUnescaped(text, 0);
    CopyAll(text);
  }

  lemma LiteralOfText(input: seq<Byte>, pos: nat, leaf: Leaf<FloatText>, inRange: FloatText -> bool)
    requires leaf.Null? || leaf.Bool?
    requires At(input, SkipSpace(input, pos), LeafText(leaf)) && |input| < TWO_64
    ensures PullLeaf(input, pos, KindOf(leaf), inRange) == Ok((leaf, SkipSpace(input, pos) + |LeafText(leaf)|))
  {
    assert input[SkipSpace(input, pos) + 0] == LeafText(leaf)[0];
  }

  lemma StringOfText(input: Text, pos: nat, text: Text)
    requires Utf8.Valid(text) && At(input, SkipSpace(input, pos), Quoted(text))
    ensures StrAt(input, pos) == Ok((text, SkipSpace(input, pos) + |Quoted(text)|))
  {
    ParseOfQuoted(input, SkipSpace(input, pos), text);
  }

  lemma BlobOfText(input: Text, pos: nat, bytes: Text)
    requires At(input, SkipSpace(input, pos), [QUOTE] + Base64.Encode(bytes) + [QUOTE])
    ensures BlobAt(input, pos)
         == Ok((bytes, SkipSpace(input, pos) + |[QUOTE] + Base64.Encode(bytes) + [QUOTE]|))
  {
    var text := Base64.Encode(bytes);
    BlobIsQuoted(bytes);
    Base64.DecodeOfEncode(bytes);
    StringOfText(input, pos, text);
  }

  lemma NumberOfText(input: Text, pos: nat, leaf: Leaf<FloatText>, inRange: FloatText -> bool)
    requires leaf.Signed? || leaf.Unsigned? || (leaf.Float? && inRange(leaf.float))
    requires At(input, SkipSpace(input, pos), LeafText(leaf))
    requires EndsNumber(Current(input, SkipSpace(input, pos) + |LeafText(leaf)|))
    ensures PullLeaf(input, pos, KindOf(leaf), inRange) == Ok((leaf, SkipSpace(input, pos) + |LeafText(leaf)|))
  {
    hide ScanNumber, Number.Text, Decimal, DecimalValue;
    var start := SkipSpace(input, pos);
    if leaf.Float? {
      ScanOfText(input, start, leaf.float);
    } else {
      IntegerOfText(input, start, if leaf.Signed? then leaf.signed else leaf.unsigned);
    }
  }

  /** A leaf is read back from its token, if what follows cannot be part of a number. */
  lemma LeafOfText(input: Text, pos: nat, leaf: Leaf<FloatText>, inRange: FloatText -> bool)
    requires Writable(Leaf(leaf), inRange)
    requires At(input, SkipSpace(input, pos), LeafText(leaf))
    requires EndsNumber(Current(input, SkipSpace(input, pos) + |LeafText(leaf)|))
    ensures PullLeaf(input, pos, KindOf(leaf), inRange) == Ok((leaf, SkipSpace(input, pos) + |LeafText(leaf)|))
  {
    hide StrAt, BlobAt, IntAt, UintAt, FloatAt, NullAt, BoolAt, At, SkipSpace, Quoted, Number.Text, IntegerNumber;
    match leaf
    case Str(text) => StringOfText(input, pos, text);
    case Blob(bytes) => BlobOfText(input, pos, bytes);
    case Null => LiteralOfText(input, pos, leaf, inRange);
    case Bool(_) => LiteralOfText(input, pos, leaf, inRange);
    case _ => NumberOfText(input, pos, leaf, inRange);
  }

  /** The shapes from number `k` on are those of the items. */
  predicate ItemsShaped(shapes: seq<Shape>, k: nat, items: seq<Value>)
    decreases |items|
  {
    && k + |items| == |shapes|
    && (items == [] || (shapes[k] == ShapeOf(items[0]) && ItemsShaped(shapes, k + 1, items[1..])))
  }

  predicate EntriesShaped(shapes: seq<Shape>, k: nat, entries: seq<Field>)
    decreases |entries|
  {
    && k + |entries| == |shapes|
    && (entries == [] || (shapes[k] == ShapeOf(entries[0].value) && EntriesShaped(shapes, k + 1, entries[1..])))
  }

  lemma {:induction false} ItemsAreShaped(all: seq<Value>, k: nat)
    requires k <= |all|
    ensures ItemsShaped(ItemShapes(all), k, all[k..])
    ensures ItemsShaped(ItemShapes(all), 0, all) || k > 0
    decreases |all| - k
  {
    if k < |all| {
      ItemsAreShaped(all, k + 1);
      assert all[k..][1..] == all[k + 1..];
    }
    assert all[0..] == all;
  }

  lemma {:induction false} EntriesAreShaped(all: seq<Field>, k: nat)
    requires k <= |all|
    ensures EntriesShaped(EntryShapes(all), k, all[k..])
    ensures EntriesShaped(EntryShapes(all), 0, all) || k > 0
    decreases |all| - k
  {
    if k < |all| {
      EntriesAreShaped(all, k + 1);
      assert all[k..][1..] == all[k + 1..];
    }
    assert all[0..] == all;
  }

  /** Every layout of the tokens of a value is read back as that value, and ends where the last token ends. */
  lemma {:induction false} PullOfLaid(input: Text, pos: nat, t: Value, depth: nat, max: nat,
                                      inRange: FloatText -> bool, end: nat)
    requires Writable(t, inRange) && depth + Depth(t) <= max
    requires LaidEnd(input, pos, Tokens(t)) == Some(end)
    requires EndsNumber(Current(input, end))
    ensures PullAt(input, pos, depth, max, ShapeOf(t), inRange) == Ok((t, end))
    decreases t, 1
  {
    hide EnterAt, PullLeaf, At, SkipSpace, LeafText;
    match t
    case Leaf(leaf) =>
      LaidOne(input, pos, LeafToken(leaf));
      LeafOfText(input, pos, leaf, inRange);
    case Array(items) =>
      var start := InnerOfLaid(input, pos, [OPEN_BRACKET], ItemTokens(items, true), [CLOSE_BRACKET], depth, max);
      ItemsAreShaped(items, 0);
      PullItemsOfLaid(input, start, items, true, depth + 1, max, inRange, ItemShapes(items), 0, end);
    case Object(entries) =>
      var start := InnerOfLaid(input, pos, [OPEN_BRACE], EntryTokens(entries, true), [CLOSE_BRACE], depth, max);
      EntriesAreShaped(entries, 0);
      PullEntriesOfLaid(input, start, entries, true, depth + 1, max, inRange, EntryShapes(entries), 0, end);
  }

  lemma InnerOfLaid(input: seq<Byte>, pos: nat, opening: Token, body: seq<Token>, closing: Token, depth: nat, max: nat)
      returns (start: nat)
    requires |opening| == 1 && LaidEnd(input, pos, [opening] + body + [closing]).Some?
    requires opening[0] != 0 && depth < max
    ensures EnterAt(input, pos, opening[0], depth, max) == Ok(start)
    ensures LaidEnd(input, start, body + [closing]) == LaidEnd(input, pos, [opening] + body + [closing])
  {
    var tokens := [opening] + body + [closing];
    LaidStart(input, pos, tokens);
    start := SkipSpace(input, pos) + 1;
    assert tokens[1..] == body + [closing];
  }

  lemma AdvanceToClose(input: seq<Byte>, pos: nat, first: bool, closing: Byte, end: nat)
    requires closing == CLOSE_BRACKET || closing == CLOSE_BRACE
    requires LaidEnd(input, pos, [[closing]]) == Some(end)
    ensures Advance(input, pos, first, closing) == Ok((false, SkipSpace(input, pos)))
    ensures EndAt(input, SkipSpace(input, pos), closing) == Ok(end)
  {
    LaidStart(input, pos, [[closing]]);
    SkipTwice(input, pos);
  }

  lemma NoMoreKeys(input: Text, pos: nat, first: bool, end: nat)
    requires LaidEnd(input, pos, [[CLOSE_BRACE]]) == Some(end)
    ensures KeyAt(input, pos, first) == Ok((None, SkipSpace(input, pos)))
    ensures EndAt(input, SkipSpace(input, pos), CLOSE_BRACE) == Ok(end)
  {
    AdvanceToClose(input, pos, first, CLOSE_BRACE, end);
  }

  /** To the start of the next item, past the comma before it. */
  lemma AdvanceToItem(input: seq<Byte>, pos: nat, first: bool, closing: Byte, tokens: seq<Token>) returns (start: nat)
    requires closing == CLOSE_BRACKET || closing == CLOSE_BRACE
    requires tokens != [] && tokens[0][0] != closing
    requires LaidEnd(input, pos, Comma(first) + tokens).Some?
    ensures Advance(input, pos, first, closing) == Ok((true, start))
    ensures start < |input| && SkipSpace(input, start) == start && At(input, start, tokens[0])
    ensures LaidEnd(input, start, tokens) == LaidEnd(input, pos, Comma(first) + tokens)
  {
    var next := pos;
    if first {
      assert Comma(first) + tokens == tokens;
    } else {
      assert (Comma(first) + tokens)[1..] == tokens;
      LaidStart(input, pos, Comma(first) + tokens);
      next := SkipSpace(input, pos) + 1;
    }
    LaidStart(input, next, tokens);
    SkipTwice(input, next);
    start := SkipSpace(input, next);
  }

  /** What comes behind the parts of a container: its closing bracket, or nothing that could be part of a number. */
  predicate Follows(input: seq<Byte>, pos: nat, tail: seq<Token>, closing: Byte) {
    && LaidEnd(input, pos, tail).Some?
    && if tail == [] then EndsNumber(Current(input, pos)) else tail[0] == [closing]
  }

  /** The number that may end at `pos` is followed by a comma or by what comes behind the items. */
  lemma EndsBeforeItems(input: seq<Byte>, pos: nat, items: seq<Value>, tail: seq<Token>)
    requires LaidEnd(input, pos, ItemTokens(items, false) + tail).Some?
    requires items == [] ==> Follows(input, pos, tail, CLOSE_BRACKET)
    ensures EndsNumber(Current(input, pos))
  {
    if items != [] || tail != [] {
      EndsBefore(input, pos, ItemTokens(items, false) + tail);
    }
  }

  lemma EndsBeforeEntries(input: seq<Byte>, pos: nat, entries: seq<Field>, tail: seq<Token>)
    requires LaidEnd(input, pos, EntryTokens(entries, false) + tail).Some?
    requires entries == [] ==> Follows(input, pos, tail, CLOSE_BRACE)
    ensures EndsNumber(Current(input, pos))
  {
    if entries != [] || tail != [] {
      EndsBefore(input, pos, EntryTokens(entries, false) + tail);
    }
  }

  lemma FirstItemOfLaid(input: seq<Byte>, pos: nat, items: seq<Value>, first: bool, tail: seq<Token>, end: nat)
      returns (start: nat, middle: nat)
    requires items != [] && LaidEnd(input, pos, ItemTokens(items, first)) == Some(end)
    requires Follows(input, end, tail, CLOSE_BRACKET)
    ensures Advance(input, pos, first, CLOSE_BRACKET) == Ok((true, start))
    ensures LaidEnd(input, start, Tokens(items[0])) == Some(middle)
    ensures LaidEnd(input, middle, ItemTokens(items[1..], false)) == Some(end)
    ensures EndsNumber(Current(input, middle))
  {
    hide Advance, LaidEnd, At, SkipSpace;
    var rest := ItemTokens(items[1..], false);
    var tokens := Tokens(items[0]) + rest;
    assert ItemTokens(items, first) == Comma(first) + tokens;
    TokensStart(items[0]);
    start := AdvanceToItem(input, pos, first, CLOSE_BRACKET, tokens);
    LaidConcat(input, start, Tokens(items[0]), rest);
    middle := LaidEnd(input, start, Tokens(items[0])).value;
    LaidConcat(input, middle, rest, tail);
    LaidNone(input, middle);
    EndsBeforeItems(input, middle, items[1..], tail);
  }

  lemma LaidNone(input: seq<Byte>, pos: nat)
    ensures LaidEnd(input, pos, []) == Some(pos)
  {
  }

  lemma {:induction false} PullItemsOfLaid(input: Text, pos: nat, items: seq<Value>, first: bool, depth: nat, max: nat,
                                           inRange: FloatText -> bool, shapes: seq<Shape>, k: nat, end: nat)
    requires ItemsWritable(items, inRange) && depth + ItemsDepth(items) <= max
    requires LaidEnd(input, pos, ItemTokens(items, first) + [[CLOSE_BRACKET]]) == Some(end)
    requires ItemsShaped(shapes, k, items)
    ensures PullItems(input, pos, depth, max, first, shapes, k, inRange) == Ok((items, end))
    decreases items, 0
  {
    hide Advance, EndAt, LaidEnd, SkipSpace;
    if items == [] {
      assert ItemTokens(items, first) + [[CLOSE_BRACKET]] == [[CLOSE_BRACKET]];
      AdvanceToClose(input, pos, first, CLOSE_BRACKET, end);
    } else {
      LaidConcat(input, pos, ItemTokens(items, first), [[CLOSE_BRACKET]]);
      var last := LaidEnd(input, pos, ItemTokens(items, first)).value;
      var start, middle := FirstItemOfLaid(input, pos, items, first, [[CLOSE_BRACKET]], last);
      LaidConcat(input, middle, ItemTokens(items[1..], false), [[CLOSE_BRACKET]]);
      PullOfLaid(input, start, items[0], depth, max, inRange, middle);
      PullItemsOfLaid(input, middle, items[1..], false, depth, max, inRange, shapes, k + 1, end);
      assert [items[0]] + items[1..] == items;
    }
  }

  lemma KeyOfLaid(input: Text, pos: nat, first: bool, key: Text, rest: seq<Token>) returns (start: nat)
    requires Utf8.Valid(key)
    requires LaidEnd(input, pos, Comma(first) + KeyTokens(key) + rest).Some?
    ensures KeyAt(input, pos, first) == Ok((Some(key), start))
    ensures LaidEnd(input, start, rest) == LaidEnd(input, pos, Comma(first) + KeyTokens(key) + rest)
  {
    hide LaidEnd, At, SkipSpace, ParseString, Quoted;
    var tokens := KeyTokens(key) + rest;
    assert Comma(first) + KeyTokens(key) + rest == Comma(first) + tokens;
    KeyStarts(key);
    var quote := AdvanceToItem(input, pos, first, CLOSE_BRACE, tokens);
    ParseOfQuoted(input, quote, key);
    LaidStart(input, quote, tokens);
    var colon: seq<Token> := [[COLON]] + rest;
    assert tokens[1..] == colon;
    LaidStart(input, quote + |Quoted(key)|, colon);
    assert colon[1..] == rest;
    start := SkipSpace(input, quote + |Quoted(key)|) + 1;
  }

  lemma FirstEntryOfLaid(input: Text, pos: nat, entries: seq<Field>, first: bool, tail: seq<Token>, end: nat)
      returns (start: nat, middle: nat)
    requires entries != [] && Utf8.Valid(entries[0].key) && LaidEnd(input, pos, EntryTokens(entries, first)) == Some(end)
    requires Follows(input, end, tail, CLOSE_BRACE)
    ensures KeyAt(input, pos, first) == Ok((Some(entries[0].key), start))
    ensures LaidEnd(input, start, Tokens(entries[0].value)) == Some(middle)
    ensures LaidEnd(input, middle, EntryTokens(entries[1..], false)) == Some(end)
    ensures EndsNumber(Current(input, middle))
  {
    hide KeyAt, LaidEnd, SkipSpace, KeyTokens;
    var e := entries[0];
    var rest := EntryTokens(entries[1..], false);
    var tokens := Tokens(e.value) + rest;
    assert EntryTokens(entries, first) == Comma(first) + KeyTokens(e.key) + tokens;
    start := KeyOfLaid(input, pos, first, e.key, tokens);
    LaidConcat(input, start, Tokens(e.value), rest);
    middle := LaidEnd(input, start, Tokens(e.value)).value;
    LaidConcat(input, middle, rest, tail);
    LaidNone(input, middle);
    EndsBeforeEntries(input, middle, entries[1..], tail);
  }

  lemma {:induction false} PullEntriesOfLaid(input: Text, pos: nat, entries: seq<Field>, first: bool, depth: nat, max: nat,
                                             inRange: FloatText -> bool, shapes: seq<Shape>, k: nat, end: nat)
    requires EntriesWritable(entries, inRange) && depth + EntriesDepth(entries) <= max
    requires LaidEnd(input, pos, EntryTokens(entries, first) + [[CLOSE_BRACE]]) == Some(end)
    requires EntriesShaped(shapes, k, entries)
    ensures PullEntries(input, pos, depth, max, first, shapes, k, inRange) == Ok((entries, end))
    decreases entries, 0
  {
    hide KeyAt, EndAt, LaidEnd, SkipSpace;
    if entries == [] {
      assert EntryTokens(entries, first) + [[CLOSE_BRACE]] == [[CLOSE_BRACE]];
      NoMoreKeys(input, pos, first, end);
    } else {
      LaidConcat(input, pos, EntryTokens(entries, first), [[CLOSE_BRACE]]);
      var last := LaidEnd(input, pos, EntryTokens(entries, first)).value;
      var start, middle := FirstEntryOfLaid(input, pos, entries, first, [[CLOSE_BRACE]], last);
      LaidConcat(input, middle, EntryTokens(entries[1..], false), [[CLOSE_BRACE]]);
      PullOfLaid(input, start, entries[0].value, depth, max, inRange, middle);
      PullEntriesOfLaid(input, middle, entries[1..], false, depth, max, inRange, shapes, k + 1, end);
      assert [entries[0]] + entries[1..] == entries;
    }
  }
}
