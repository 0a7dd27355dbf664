/** The JSON writer: a text, a stack of open containers, and what each call does to them. */
module JsonWriter {
  import opened Bytes
  import opened Serial
  import opened JsonNumber
  import opened JsonText
  import opened JsonGrammar
  import Base64
  import Utf8

  /** `isInline` containers stay on one line in indented text, with everything inside them. */
  datatype Frame = Frame(isObject: bool, hasItems: bool, awaiting: bool, isInline: bool)

  datatype State = State(output: seq<Byte>, stack: seq<Frame>, started: bool, inlineNext: bool)

  datatype Refusal =
    | NestedTooDeep
    | SecondRoot
    | KeyMissing
    | KeyMisplaced
    | NothingToEnd
    | NotUtf8
    | NotFinite

  /** Where a call leaves the writer, and why it was refused, if it was. */
  datatype Outcome = Outcome(state: State, refusal: Option<Refusal>)

  const SPACE: Byte := 0x20
  const LINE_FEED: Byte := 0x0A

  predicate Complete(s: State) {
    s.started && s.stack == []
  }

  function Top(stack: seq<Frame>): Frame
    requires stack != []
  {
    stack[|stack| - 1]
  }

  function WithTop(stack: seq<Frame>, top: Frame): seq<Frame>
    requires stack != []
  {
    stack[..|stack| - 1] + [top]
  }

  // Layout

  function Spaces(count: nat): (s: seq<Byte>)
    ensures |s| == count
    ensures forall i :: 0 <= i < count ==> s[i] == SPACE
  {
    if count == 0 then [] else [SPACE] + Spaces(count - 1)
  }

  function Newline(depth: nat, indent: nat): seq<Byte> {
    if indent == 0 then [] else [LINE_FEED] + Spaces(depth * indent)
  }

  /** The spaces between a comma, or the opening bracket, and the next item. */
  function Gap(f: Frame, depth: nat, indent: nat): seq<Byte> {
    if !f.isInline then Newline(depth, indent)
    else if f.hasItems && indent > 0 then [SPACE]
    else []
  }

  function Separator(f: Frame, depth: nat, indent: nat): seq<Byte> {
    (if f.hasItems then [COMMA] else []) + Gap(f, depth, indent)
  }

  // What each call does

  function Begun(s: State, indent: nat): Result<State, Refusal> {
    if s.stack == [] then
      if s.started then Err(SecondRoot) else Ok(s.(started := true))
    else
      var top := Top(s.stack);
      if top.isObject then
        if !top.awaiting then Err(KeyMissing) else Ok(s.(stack := WithTop(s.stack, top.(awaiting := false))))
      else
        Ok(s.(output := s.output + Separator(top, |s.stack|, indent),
              stack := WithTop(s.stack, top.(hasItems := true))))
  }

  function LeafText(leaf: Leaf<FloatText>): seq<Byte> {
    match leaf
    case Null => NULL_TEXT
    case Bool(flag) => if flag then TRUE_TEXT else FALSE_TEXT
    case Signed(v) => IntegerNumber(v).Text()
    case Unsigned(v) => IntegerNumber(v).Text()
    case Float(f) => f.Text()
    case Str(text) => Quoted(text)
    case Blob(bytes) => [QUOTE] + Base64.Encode(bytes) + [QUOTE]
  }

  function Written(s: State, indent: nat, leaf: Leaf<FloatText>): Outcome {
    match Begun(s, indent)
    case Err(refusal) => Outcome(s, Some(refusal))
    case Ok(begun) =>
      if leaf.Str? && !Utf8.Valid(leaf.text) then Outcome(begun, Some(NotUtf8))
      else Outcome(begun.(output := begun.output + LeafText(leaf)), None)
  }

  function Opened(s: State, indent: nat, max: nat, isObject: bool): Outcome {
    if |s.stack| >= max then Outcome(s, Some(NestedTooDeep))
    else
      match Begun(s, indent)
      case Err(refusal) => Outcome(s, Some(refusal))
      case Ok(begun) =>
        var isInline := s.inlineNext || (s.stack != [] && Top(s.stack).isInline);
        Outcome(State(begun.output + [if isObject then OPEN_BRACE else OPEN_BRACKET],
                      begun.stack + [Frame(isObject, false, false, isInline)], begun.started, false), None)
  }

  function Colon(indent: nat): seq<Byte> {
    if indent > 0 then [COLON, SPACE] else [COLON]
  }

  function Keyed(s: State, indent: nat, key: Text): Outcome {
    if s.stack == [] || !Top(s.stack).isObject || Top(s.stack).awaiting then Outcome(s, Some(KeyMisplaced))
    else
      var top := Top(s.stack);
      var separated := s.(output := s.output + Separator(top, |s.stack|, indent));
      if !Utf8.Valid(key) then Outcome(separated, Some(NotUtf8))
      else
        Outcome(separated.(output := separated.output + Quoted(key) + Colon(indent),
                           stack := WithTop(s.stack, top.(hasItems := true, awaiting := true))), None)
  }

  function Closed(s: State, indent: nat, isObject: bool): Outcome {
    if s.stack == [] || Top(s.stack).isObject != isObject || (isObject && Top(s.stack).awaiting) then
      Outcome(s, Some(NothingToEnd))
    else
      var top := Top(s.stack);
      var gap := if top.hasItems && !top.isInline then Newline(|s.stack| - 1, indent) else [];
      Outcome(s.(output := s.output + gap + [if isObject then CLOSE_BRACE else CLOSE_BRACKET],
                 stack := s.stack[..|s.stack| - 1]), None)
  }

  function Step(s: State, indent: nat, max: nat, call: Call<FloatText>): Outcome {
    match call
    case WriteLeaf(leaf) => Written(s, indent, leaf)
    case BeginArray(_) => Opened(s, indent, max, false)
    case BeginObject(_) => Opened(s, indent, max, true)
    case WriteKey(key) => Keyed(s, indent, key)
    case EndArray => Closed(s, indent, false)
    case EndObject => Closed(s, indent, true)
    case PreferInline => Outcome(s.(inlineNext := true), None)
  }

  predicate Answers(outcome: Outcome, r: Result<(), Refusal>, after: State) {
    && after == outcome.state
    && r == match outcome.refusal
            case None => Ok(())
            case Some(refusal) => Err(refusal)
  }

  class Writer {
    var output: seq<Byte>
    const indent: nat
    const maxDepth: nat
    var stack: seq<Frame>
    var rootStarted: bool
    var inlineNext: bool

    function Snapshot(): State
      reads this
    {
      State(output, stack, rootStarted, inlineNext)
    }

    /** `output` is what the caller's buffer already holds. */
    constructor (output: seq<Byte>, indent: nat, maxDepth: nat)
      ensures Snapshot() == State(output, [], false, false)
      ensures this.indent == indent && this.maxDepth == maxDepth
    {
      this.output := output;
      this.indent := indent;
      this.maxDepth := maxDepth;
      stack := [];
      rootStarted := false;
      inlineNext := false;
    }

    method WriteNull() returns (r: Result<(), Refusal>)
      modifies this
      ensures Answers(Step(old(Snapshot()), indent, maxDepth, WriteLeaf(Null)), r, Snapshot())
    {
      var _ :- BeginValue();
      output := output + NULL_TEXT;
      return Ok(());
    }

    method WriteBool(value: bool) returns (r: Result<(), Refusal>)
      modifies this
      ensures Answers(Step(old(Snapshot()), indent, maxDepth, WriteLeaf(Bool(value))), r, Snapshot())
    {
      var _ :- BeginValue();
      output := output + (if value then TRUE_TEXT else FALSE_TEXT);
      return Ok(());
    }

    method WriteInt(value: I64) returns (r: Result<(), Refusal>)
      modifies this
      ensures Answers(Step(old(Snapshot()), indent, maxDepth, WriteLeaf(Signed(value))), r, Snapshot())
    {
      var _ :- BeginValue();
      output := output + IntegerNumber(value).Text();
      return Ok(());
    }

    method WriteUint(value: U64) returns (r: Result<(), Refusal>)
      modifies this
      ensures Answers(Step(old(Snapshot()), indent, maxDepth, WriteLeaf(Unsigned(value))), r, Snapshot())
    {
      var _ :- BeginValue();
      output := output + IntegerNumber(value).Text();
      return Ok(());
    }

    /** `shortest` is the shortest text of the number; NaN and the infinities have none. */
    method WriteFloat(shortest: Option<Number>) returns (r: Result<(), Refusal>)
      requires shortest.Some? ==> shortest.value.Valid()
      modifies this
      ensures match shortest
              case None => r == Err(NotFinite) && Snapshot() == old(Snapshot())
              case Some(n) =>
                Answers(Step(old(Snapshot()), indent, maxDepth, WriteLeaf(Float(n.WithPoint()))), r, Snapshot())
    {
      if shortest.None? {
        return Err(NotFinite);
      }
      var _ :- BeginValue();
      ghost var before := output;
      output := output + shortest.value.Text();
      if shortest.value.IsInteger() {
        output := output + [DOT, ZERO];
      }
      assert output == before + shortest.value.WithPoint().Text() by {
        PointText(shortest.value);
        if shortest.value.IsInteger() {
          assert before + shortest.value.Text() + [DOT, ZERO] == before + (shortest.value.Text() + [DOT, ZERO]);
        }
      }
      return Ok(());
    }

    method HintInline()
      modifies this
      ensures Snapshot() == Step(old(Snapshot()), indent, maxDepth, PreferInline).state
    {
      inlineNext := true;
    }

    method WriteString(value: Text) returns (r: Result<(), Refusal>)
      modifies this
      ensures Answers(Step(old(Snapshot()), indent, maxDepth, WriteLeaf(Str(value))), r, Snapshot())
    {
      var _ :- BeginValue();
      var _ :- AppendQuoted(value);
      return Ok(());
    }

    method WriteBytes(value: Text) returns (r: Result<(), Refusal>)
      modifies this
      ensures Answers(Step(old(Snapshot()), indent, maxDepth, WriteLeaf(Blob(value))), r, Snapshot())
    {
      var _ :- BeginValue();
      ghost var before := output;
      output := output + [QUOTE];
      var text := Base64.EncodeBytes(value);
      output := output + text;
      output := output + [QUOTE];
      ConcatAssociative(before, [QUOTE], text);
      ConcatAssociative(before, [QUOTE] + text, [QUOTE]);
      return Ok(());
    }

    method BeginArray() returns (r: Result<(), Refusal>)
      modifies this
      ensures Answers(Opened(old(Snapshot()), indent, maxDepth, false), r, Snapshot())
    {
      var _ :- CheckDepth();
      var _ :- BeginValue();
      output := output + [OPEN_BRACKET];
      PushFrame(false);
      return Ok(());
    }

    method EndArray() returns (r: Result<(), Refusal>)
      modifies this
      ensures Answers(Step(old(Snapshot()), indent, maxDepth, Call.EndArray), r, Snapshot())
    {
      if stack == [] || stack[|stack| - 1].isObject {
        return Err(NothingToEnd);
      }
      Close(CLOSE_BRACKET);
      return Ok(());
    }

    method BeginObject() returns (r: Result<(), Refusal>)
      modifies this
      ensures Answers(Opened(old(Snapshot()), indent, maxDepth, true), r, Snapshot())
    {
      var _ :- CheckDepth();
      var _ :- BeginValue();
      output := output + [OPEN_BRACE];
      PushFrame(true);
      return Ok(());
    }

    method WriteKey(key: Text) returns (r: Result<(), Refusal>)
      modifies this
      ensures Answers(Step(old(Snapshot()), indent, maxDepth, Call.WriteKey(key)), r, Snapshot())
    {
      if stack == [] || !stack[|stack| - 1].isObject || stack[|stack| - 1].awaiting {
        return Err(KeyMisplaced);
      }
      Separate(stack[|stack| - 1]);
      var _ :- AppendQuoted(key);
      output := output + (if indent > 0 then [COLON, SPACE] else [COLON]);
      stack := stack[|stack| - 1 := stack[|stack| - 1].(hasItems := true, awaiting := true)];
      return Ok(());
    }

    method EndObject() returns (r: Result<(), Refusal>)
      modifies this
      ensures Answers(Step(old(Snapshot()), indent, maxDepth, Call.EndObject), r, Snapshot())
    {
      if stack == [] || !stack[|stack| - 1].isObject || stack[|stack| - 1].awaiting {
        return Err(NothingToEnd);
      }
      Close(CLOSE_BRACE);
      return Ok(());
    }

    method IsComplete() returns (complete: bool)
      ensures complete == Complete(Snapshot())
    {
      complete := rootStarted && stack == [];
    }

    method PushFrame(isObject: bool)
      modifies this`stack, this`inlineNext
      ensures !inlineNext
      ensures stack == old(stack) + [Frame(isObject, false, false,
                                     old(inlineNext) || (old(stack) != [] && old(Top(stack).isInline)))]
    {
      var isInline := inlineNext || (stack != [] && stack[|stack| - 1].isInline);
      inlineNext := false;
      stack := stack + [Frame(isObject, false, false, isInline)];
    }

    /** A comma, and a line break or a space. */
    method Separate(top: Frame)
      modifies this`output
      ensures output == old(output) + Separator(top, |stack|, indent)
    {
      if top.hasItems {
        output := output + [COMMA];
        if top.isInline && indent > 0 {
          output := output + [SPACE];
        }
      }
      if !top.isInline {
        PutNewline(|stack|);
      }
    }

    method CheckDepth() returns (r: Result<(), Refusal>)
      ensures r == if |stack| >= maxDepth then Err(NestedTooDeep) else Ok(())
    {
      if |stack| >= maxDepth {
        return Err(NestedTooDeep);
      }
      return Ok(());
    }

    method BeginValue() returns (r: Result<(), Refusal>)
      modifies this
      ensures match Begun(old(Snapshot()), indent)
              case Ok(begun) => r == Ok(()) && Snapshot() == begun
              case Err(refusal) => r == Err(refusal) && Snapshot() == old(Snapshot())
    {
      if stack == [] {
        if rootStarted {
          return Err(SecondRoot);
        }
        rootStarted := true;
        return Ok(());
      }
      var top := stack[|stack| - 1];
      if top.isObject {
        if !top.awaiting {
          return Err(KeyMissing);
        }
        stack := stack[|stack| - 1 := top.(awaiting := false)];
        return Ok(());
      }
      Separate(top);
      stack := stack[|stack| - 1 := top.(hasItems := true)];
      return Ok(());
    }

    method Close(bracket: Byte)
      requires stack != []
      modifies this`output, this`stack
      ensures stack == old(stack)[..|old(stack)| - 1]
      ensures var top := Top(old(stack));
              output == old(output) + (if top.hasItems && !top.isInline then Newline(|stack|, indent) else []) + [bracket]
    {
      var hadItems := stack[|stack| - 1].hasItems;
      var isInline := stack[|stack| - 1].isInline;
      stack := stack[..|stack| - 1];
      if hadItems && !isInline {
        PutNewline(|stack|);
      }
      output := output + [bracket];
    }

    method PutNewline(depth: nat)
      modifies this`output
      ensures output == old(output) + Newline(depth, indent)
    {
      if indent == 0 {
        return;
      }
      output := output + [LINE_FEED];
      output := output + Spaces(depth * indent);
    }

    method AppendEscaped(c: Byte)
      modifies this`output
      ensures output == old(output) + Escaped(c)
    {
      if ShortEscape(c).Some? {
        output := output + [BACKSLASH, ShortEscape(c).value];
      } else if c < 0x20 {
        output := output + [BACKSLASH, LOWER_U, 0x30, 0x30];
        output := output + [HexDigit(c / 0x10)];
        output := output + [HexDigit(c % 0x10)];
      } else {
        output := output + [c];
      }
    }

    method AppendQuoted(text: Text) returns (r: Result<(), Refusal>)
      modifies this`output
      ensures !Utf8.Valid(text) ==> r == Err(NotUtf8) && output == old(output)
      ensures Utf8.Valid(text) ==> r == Ok(()) && output == old(output) + Quoted(text)
    {
      var valid := Utf8.Validate(text);
      if valid.Err? {
        return Err(NotUtf8);
      }
      output := output + [QUOTE];
      ghost var head := output;
      assert head + EscapedFrom(text, 0) == old(output) + ([QUOTE] + EscapedFrom(text, 0));
      for i := 0 to |text|
        invariant output + EscapedFrom(text, i) == head + EscapedFrom(text, 0)
      {
        ConcatAssociative(output, Escaped(text[i]), EscapedFrom(text, i + 1));
        AppendEscaped(text[i]);
      }
      assert output == head + EscapedFrom(text, 0);
      ConcatAssociative(old(output), [QUOTE] + EscapedFrom(text, 0), [QUOTE]);
      output := output + [QUOTE];
      return Ok(());
    }
  }

  /** The `.0` goes to the end of the text of an integer. */
  lemma PointText(n: Number)
    ensures n.WithPoint().Text() == if n.IsInteger() then n.Text() + [DOT, ZERO] else n.Text()
  {
    if n.IsInteger() {
      assert n.Head() + [] + [] == n.Head();
      assert n.Head() + ([DOT] + [ZERO]) + [] == n.Head() + [DOT, ZERO];
    }
  }
}
