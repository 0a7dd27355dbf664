/** The binary writer: a byte string, a stack of open containers, and what each call does to them. */
module BinaryWriter {
  import opened Bytes
  import opened Serial
  import opened BinaryFormat

  /** `remaining` items are still owed; `awaiting` tells that a key waits for its value. */
  datatype Frame = Frame(isObject: bool, remaining: U64, awaiting: bool)

  datatype State = State(output: seq<Byte>, stack: seq<Frame>, started: bool)

  datatype Refusal =
    | TooDeep
    | SecondRoot
    | KeyMissing
    | KeyMisplaced
    | TooManyItems
    | TooManyKeys
    | TooFewItems
    | NothingToEnd

  predicate Complete(s: State) {
    s.started && s.stack == []
  }

  function Top(stack: seq<Frame>): Frame
    requires stack != []
  {
    stack[|stack| - 1]
  }

  function WithTop(stack: seq<Frame>, top: Frame): seq<Frame>
    requires stack != []
  {
    stack[..|stack| - 1] + [top]
  }

  // What each call does

  function Begun(s: State): Result<State, Refusal> {
    if s.stack == [] then
      if s.started then Err(SecondRoot) else Ok(s.(started := true))
    else
      var top := Top(s.stack);
      if top.isObject then
        if !top.awaiting then Err(KeyMissing) else Ok(s.(stack := WithTop(s.stack, top.(awaiting := false))))
      else if top.remaining == 0 then Err(TooManyItems)
      else Ok(s.(stack := WithTop(s.stack, top.(remaining := top.remaining - 1))))
  }

  function Opened(s: State, max: nat, tag: Byte, size: U64): Result<State, Refusal> {
    if |s.stack| >= max then Err(TooDeep)
    else
      var begun :- Begun(s);
      Ok(State(begun.output + ([tag] + Varint(size)),
               begun.stack + [Frame(tag == OBJECT_TAG, size, false)],
               begun.started))
  }

  function Keyed(s: State, key: Text): Result<State, Refusal> {
    if s.stack == [] || !Top(s.stack).isObject || Top(s.stack).awaiting then Err(KeyMisplaced)
    else if Top(s.stack).remaining == 0 then Err(TooManyKeys)
    else
      Ok(s.(output := s.output + EncodeText(key),
            stack := WithTop(s.stack, Frame(true, Top(s.stack).remaining - 1, true))))
  }

  function Closed(s: State, isObject: bool): Result<State, Refusal> {
    if s.stack == [] || Top(s.stack).isObject != isObject || (isObject && Top(s.stack).awaiting) then Err(NothingToEnd)
    else if Top(s.stack).remaining != 0 then Err(TooFewItems)
    else Ok(s.(stack := s.stack[..|s.stack| - 1]))
  }

  /** The state after one call, or why it is refused. */
  function Step(s: State, max: nat, call: Call<U64>): Result<State, Refusal> {
    match call
    case WriteLeaf(leaf) =>
      var begun :- Begun(s);
      Ok(begun.(output := begun.output + EncodeLeaf(leaf)))
    case BeginArray(size) => Opened(s, max, ARRAY_TAG, size)
    case BeginObject(size) => Opened(s, max, OBJECT_TAG, size)
    case WriteKey(key) => Keyed(s, key)
    case EndArray => Closed(s, false)
    case EndObject => Closed(s, true)
    case PreferInline => Ok(s)
  }

  /** What a call answers: it is carried out, or it is refused and leaves everything as it was. */
  predicate Answers(step: Result<State, Refusal>, r: Result<(), Refusal>, before: State, after: State) {
    match step
    case Ok(next) => r == Ok(()) && after == next
    case Err(refusal) => r == Err(refusal) && after == before
  }

  class Writer {
    var output: seq<Byte>
    const maxDepth: nat
    var stack: seq<Frame>
    var rootStarted: bool

    function Snapshot(): State
      reads this
    {
      State(output, stack, rootStarted)
    }

    /** `output` is what the caller's buffer already holds. */
    constructor (output: seq<Byte>, maxDepth: nat)
      ensures Snapshot() == State(output, [], false) && this.maxDepth == maxDepth
    {
      this.output := output;
      this.maxDepth := maxDepth;
      stack := [];
      rootStarted := false;
    }

    method WriteNull() returns (r: Result<(), Refusal>)
      modifies this
      ensures Answers(Step(old(Snapshot()), maxDepth, WriteLeaf(Null)), r, old(Snapshot()), Snapshot())
    {
      var _ :- BeginValue();
      PutTag(NULL_TAG);
      return Ok(());
    }

    method WriteBool(value: bool) returns (r: Result<(), Refusal>)
      modifies this
      ensures Answers(Step(old(Snapshot()), maxDepth, WriteLeaf(Bool(value))), r, old(Snapshot()), Snapshot())
    {
      var _ :- BeginValue();
      PutTag(if value then TRUE_TAG else FALSE_TAG);
      return Ok(());
    }

    method WriteInt(value: I64) returns (r: Result<(), Refusal>)
      modifies this
      ensures Answers(Step(old(Snapshot()), maxDepth, WriteLeaf(Signed(value))), r, old(Snapshot()), Snapshot())
    {
      var _ :- BeginValue();
      PutTag(SIGNED_TAG);
      var encoded := ToZigZag(value);
      PutVarint(encoded);
      return Ok(());
    }

    /** `(value << 1) ^ (value >> 63)` on unsigned registers. */
    static method ToZigZag(value: I64) returns (encoded: U64)
      ensures encoded == ZigZag(value)
    {
      hide Xor64;
      ZigZagInRegister(value);
      encoded := Xor64(2 * Unsigned64(value) % TWO_64, Unsigned64(value / TWO_63));
    }

    method WriteUint(value: U64) returns (r: Result<(), Refusal>)
      modifies this
      ensures Answers(Step(old(Snapshot()), maxDepth, WriteLeaf(Unsigned(value))), r, old(Snapshot()), Snapshot())
    {
      var _ :- BeginValue();
      PutTag(UNSIGNED_TAG);
      PutVarint(value);
      return Ok(());
    }

    /** `bits` is the bit pattern of the number. */
    method WriteFloat(bits: U64) returns (r: Result<(), Refusal>)
      modifies this
      ensures Answers(Step(old(Snapshot()), maxDepth, WriteLeaf(Float(bits))), r, old(Snapshot()), Snapshot())
    {
      var _ :- BeginValue();
      PutTag(FLOAT_TAG);
      output := output + LittleBytes(bits, 8);
      return Ok(());
    }

    method WriteString(value: Text) returns (r: Result<(), Refusal>)
      modifies this
      ensures Answers(Step(old(Snapshot()), maxDepth, WriteLeaf(Str(value))), r, old(Snapshot()), Snapshot())
    {
      var _ :- BeginValue();
      PutTag(STRING_TAG);
      PutText(value);
      return Ok(());
    }

    method WriteBytes(value: Text) returns (r: Result<(), Refusal>)
      modifies this
      ensures Answers(Step(old(Snapshot()), maxDepth, WriteLeaf(Blob(value))), r, old(Snapshot()), Snapshot())
    {
      var _ :- BeginValue();
      PutTag(BYTES_TAG);
      PutVarint(|value|);
      output := output + value;
      return Ok(());
    }

    method BeginArray(size: U64) returns (r: Result<(), Refusal>)
      modifies this
      ensures Answers(Step(old(Snapshot()), maxDepth, Call.BeginArray(size)), r, old(Snapshot()), Snapshot())
    {
      var _ :- CheckDepth();
      var _ :- BeginValue();
      ghost var before := output;
      PutTag(ARRAY_TAG);
      PutVarint(size);
      assert output == before + ([ARRAY_TAG] + Varint(size));
      stack := stack + [Frame(false, size, false)];
      return Ok(());
    }

    method EndArray() returns (r: Result<(), Refusal>)
      modifies this
      ensures Answers(Step(old(Snapshot()), maxDepth, Call.EndArray), r, old(Snapshot()), Snapshot())
    {
      if stack == [] || stack[|stack| - 1].isObject {
        return Err(NothingToEnd);
      }
      r := Close();
    }

    method BeginObject(size: U64) returns (r: Result<(), Refusal>)
      modifies this
      ensures Answers(Step(old(Snapshot()), maxDepth, Call.BeginObject(size)), r, old(Snapshot()), Snapshot())
    {
      var _ :- CheckDepth();
      var _ :- BeginValue();
      ghost var before := output;
      PutTag(OBJECT_TAG);
      PutVarint(size);
      assert output == before + ([OBJECT_TAG] + Varint(size));
      stack := stack + [Frame(true, size, false)];
      return Ok(());
    }

    method WriteKey(key: Text) returns (r: Result<(), Refusal>)
      modifies this
      ensures Answers(Step(old(Snapshot()), maxDepth, Call.WriteKey(key)), r, old(Snapshot()), Snapshot())
    {
      if stack == [] || !stack[|stack| - 1].isObject || stack[|stack| - 1].awaiting {
        return Err(KeyMisplaced);
      }
      var top := stack[|stack| - 1];
      if top.remaining == 0 {
        return Err(TooManyKeys);
      }
      stack := stack[|stack| - 1 := Frame(top.isObject, top.remaining - 1, true)];
      PutText(key);
      return Ok(());
    }

    method EndObject() returns (r: Result<(), Refusal>)
      modifies this
      ensures Answers(Step(old(Snapshot()), maxDepth, Call.EndObject), r, old(Snapshot()), Snapshot())
    {
      if stack == [] || !stack[|stack| - 1].isObject || stack[|stack| - 1].awaiting {
        return Err(NothingToEnd);
      }
      r := Close();
    }

    method IsComplete() returns (complete: bool)
      ensures complete == Complete(Snapshot())
    {
      complete := rootStarted && stack == [];
    }

    method CheckDepth() returns (r: Result<(), Refusal>)
      ensures r == if |stack| >= maxDepth then Err(TooDeep) else Ok(())
    {
      if |stack| >= maxDepth {
        return Err(TooDeep);
      }
      return Ok(());
    }

    method BeginValue() returns (r: Result<(), Refusal>)
      modifies this
      ensures Answers(Begun(old(Snapshot())), r, old(Snapshot()), Snapshot())
    {
      if stack == [] {
        if rootStarted {
          return Err(SecondRoot);
        }
        rootStarted := true;
        return Ok(());
      }
      var top := stack[|stack| - 1];
      if top.isObject {
        if !top.awaiting {
          return Err(KeyMissing);
        }
        stack := stack[|stack| - 1 := top.(awaiting := false)];
        return Ok(());
      }
      if top.remaining == 0 {
        return Err(TooManyItems);
      }
      stack := stack[|stack| - 1 := top.(remaining := top.remaining - 1)];
      return Ok(());
    }

    method Close() returns (r: Result<(), Refusal>)
      requires stack != []
      modifies this
      ensures old(Top(stack).remaining) != 0 ==> r == Err(TooFewItems) && Snapshot() == old(Snapshot())
      ensures old(Top(stack).remaining) == 0 ==>
                r == Ok(()) && Snapshot() == State(old(output), old(stack)[..|old(stack)| - 1], old(rootStarted))
    {
      if stack[|stack| - 1].remaining != 0 {
        return Err(TooFewItems);
      }
      stack := stack[..|stack| - 1];
      return Ok(());
    }

    method PutTag(tag: Byte)
      modifies this`output
      ensures output == old(output) + [tag]
    {
      output := output + [tag];
    }

    method PutVarint(value: U64)
      modifies this`output
      ensures output == old(output) + Varint(value)
    {
      var rest := value;
      while rest >= 0x80
        invariant 0 <= rest <= value
        invariant output + Varint(rest) == old(output) + Varint(value)
      {
        output := output + [rest % 0x80 + 0x80];
        rest := rest / 0x80;
      }
      output := output + [rest];
    }

    method PutText(text: Text)
      modifies this`output
      ensures output == old(output) + EncodeText(text)
    {
      PutVarint(|text|);
      ghost var head := output;
      for i := 0 to |text|
        invariant output == head + text[..i]
      {
        output := output + [text[i]];
      }
    }
  }
}
