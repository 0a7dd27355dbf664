/** The pull parser of the binary format, and a consumer that drives it. */
module BinaryReader {
  import opened Bytes
  import opened Serial
  import opened Reading
  import opened BinaryFormat
  import G = BinaryGrammar
  import opened BinaryGrammar

  datatype Frame = Frame(isObject: bool, remaining: U64)

  /** A failed call leaves the reader at the point of failure; such a reader is not used again. */
  class Reader {
    const input: seq<Byte>
    const maxDepth: nat
    const toDouble: int -> U64
    var position: nat
    var stack: seq<Frame>

    ghost predicate Valid()
      reads this
    {
      position <= |input|
    }

    constructor (input: seq<Byte>, maxDepth: nat, toDouble: int -> U64)
      ensures Valid() && position == 0 && stack == []
      ensures this.input == input && this.maxDepth == maxDepth && this.toDouble == toDouble
    {
      this.input := input;
      this.maxDepth := maxDepth;
      this.toDouble := toDouble;
      position := 0;
      stack := [];
    }

    // Bytes, tags and integers

    method Require(count: nat) returns (r: Result<(), Fault>)
      requires Valid()
      ensures r == if |input| - position < count then Err(Fault(UnexpectedEnd, position)) else Ok(())
    {
      if |input| - position < count {
        return Err(Fault(UnexpectedEnd, position));
      }
      return Ok(());
    }

    method PeekTag() returns (r: Result<Byte, Fault>)
      requires Valid()
      ensures r == G.PeekTag(input, position)
    {
      var _ :- Require(1);
      var value := input[position];
      if value > OBJECT_TAG {
        return Err(Fault(UnknownTag, position));
      }
      return Ok(value);
    }

    method TakeTag() returns (r: Result<Byte, Fault>)
      requires Valid()
      modifies this
      ensures Valid() && stack == old(stack)
      ensures r == G.PeekTag(input, old(position))
      ensures r.Ok? ==> position == old(position) + 1
    {
      var value :- PeekTag();
      position := position + 1;
      return Ok(value);
    }

    method ExpectTag(expected: Byte) returns (r: Result<(), Fault>)
      requires Valid()
      modifies this
      ensures Valid() && stack == old(stack)
      ensures Moved(G.ExpectTag(input, old(position), expected), r, position)
    {
      var tag :- PeekTag();
      if tag != expected {
        return Err(Fault(UnexpectedTag, position));
      }
      position := position + 1;
      return Ok(());
    }

    /** The loop over groups, with the register arithmetic it does. */
    method TakeVarint() returns (r: Result<U64, Fault>)
      requires Valid()
      modifies this
      ensures Valid() && stack == old(stack)
      ensures Took(G.TakeVarint(input, old(position)), r, position)
    {
      var value: U64 := 0;
      ghost var i: nat := 0;
      var shift: nat := 0;
      while shift < 64
        invariant Valid() && stack == old(stack)
        invariant i <= 10 && shift == 7 * i && value < Groups(1, i)
        invariant TakeGroups(input, position, i, value) == G.TakeVarint(input, old(position))
      {
        var _ :- Require(1);
        var byte := input[position];
        position := position + 1;
        if shift == 63 && byte > 1 {
          return Err(Fault(VarintOverflow, position));
        }
        value := AddGroup(value, byte % 0x80, shift, i);
        if byte < 0x80 {
          return Ok(value);
        }
        shift, i := shift + 7, i + 1;
      }
      return Err(Fault(VarintOverflow, position));
    }

    /** `value |= group << shift` */
    static method AddGroup(value: U64, group: U64, shift: nat, ghost i: nat) returns (next: U64)
      requires i < 10 && shift == 7 * i && value < Groups(1, i)
      requires group < 0x80 && (i == 9 ==> group <= 1)
      ensures next == value + Groups(group, i) < Groups(1, i + 1)
    {
      GroupInRegister(value, group, i);
      GroupFits(value, group, i);
      next := BitOr(value, ShiftLeft64(group, shift));
    }

    method TakeLength(minimum: nat) returns (r: Result<U64, Fault>)
      requires Valid() && (minimum == 1 || minimum == 2)
      modifies this
      ensures Valid() && stack == old(stack)
      ensures Took(G.TakeLength(input, old(position), minimum), r, position)
    {
      var start := position;
      var length :- TakeVarint();
      var available := |input| - position;
      if length > available / minimum {
        return Err(Fault(LengthExceedsInput, start));
      }
      return Ok(length);
    }

    method TakeText() returns (r: Result<Text, Fault>)
      requires Valid()
      modifies this
      ensures Valid() && stack == old(stack)
      ensures Took(G.TakeText(input, old(position)), r, position)
    {
      var size :- TakeLength(1);
      var result := Copy(input, position, size);
      position := position + size;
      return Ok(result);
    }

    // Leaves

    method Peek() returns (r: Result<ValueKind, Fault>)
      requires Valid()
      ensures match G.PeekTag(input, position)
              case Ok(tag) => r == Ok(KindOfTag(tag))
              case Err(fault) => r == Err(fault)
    {
      var tag :- PeekTag();
      return Ok(KindOfTag(tag));
    }

    method ReadNull() returns (r: Result<(), Fault>)
      requires Valid()
      modifies this
      ensures Valid() && stack == old(stack)
      ensures Moved(G.ExpectTag(input, old(position), NULL_TAG), r, position)
    {
      r := ExpectTag(NULL_TAG);
    }

    method ReadBool() returns (r: Result<bool, Fault>)
      requires Valid()
      modifies this
      ensures Valid() && stack == old(stack)
      ensures Took(BoolAt(input, old(position)), r, position)
    {
      var tag :- TakeTag();
      if tag == TRUE_TAG {
        return Ok(true);
      }
      if tag == FALSE_TAG {
        return Ok(false);
      }
      return Err(Fault(UnexpectedTag, position - 1));
    }

    method ReadInt() returns (r: Result<I64, Fault>)
      requires Valid()
      modifies this
      ensures Valid() && stack == old(stack)
      ensures Took(IntAt(input, old(position)), r, position)
    {
      var start := position;
      var tag :- TakeTag();
      if tag == SIGNED_TAG {
        var encoded :- TakeVarint();
        var value := FromZigZag(encoded);
        return Ok(value);
      }
      if tag == UNSIGNED_TAG {
        var encoded :- TakeVarint();
        if encoded > TWO_63 - 1 {
          return Err(Fault(IntegerOutOfRange, start));
        }
        return Ok(encoded);
      }
      return Err(Fault(UnexpectedTag, start));
    }

    /** `(encoded >> 1) ^ -(encoded & 1)` on registers. */
    static method FromZigZag(encoded: U64) returns (value: I64)
      ensures value == UnZigZag(encoded)
    {
      hide Xor64;
      UnZigZagInRegister(encoded);
      value := Signed64(Xor64(encoded / 2, Unsigned64(-(encoded % 2))));
    }

    method ReadUint() returns (r: Result<U64, Fault>)
      requires Valid()
      modifies this
      ensures Valid() && stack == old(stack)
      ensures Took(UintAt(input, old(position)), r, position)
    {
      var start := position;
      var tag :- TakeTag();
      if tag == UNSIGNED_TAG {
        r := TakeVarint();
        return;
      }
      if tag == SIGNED_TAG {
        var encoded :- TakeVarint();
        var decoded := FromZigZag(encoded);
        if decoded < 0 {
          return Err(Fault(IntegerOutOfRange, start));
        }
        return Ok(decoded);
      }
      return Err(Fault(UnexpectedTag, start));
    }

    method ReadFloat() returns (r: Result<U64, Fault>)
      requires Valid()
      modifies this
      ensures Valid() && stack == old(stack)
      ensures Took(FloatAt(input, old(position), toDouble), r, position)
    {
      var start := position;
      var tag :- PeekTag();
      if tag == SIGNED_TAG {
        var v :- ReadInt();
        return Ok(toDouble(v));
      }
      if tag == UNSIGNED_TAG {
        var v :- ReadUint();
        return Ok(toDouble(v));
      }
      if tag != FLOAT_TAG {
        return Err(Fault(UnexpectedTag, start));
      }
      position := position + 1;
      var _ :- Require(8);
      LittleValueBelow(Copy(input, position, 8));
      var bits := LittleValue(Copy(input, position, 8));
      position := position + 8;
      return Ok(bits);
    }

    method ReadString() returns (r: Result<Text, Fault>)
      requires Valid()
      modifies this
      ensures Valid() && stack == old(stack)
      ensures Took(StrAt(input, old(position)), r, position)
    {
      var _ :- ExpectTag(STRING_TAG);
      r := TakeText();
    }

    method ReadBytes() returns (r: Result<Text, Fault>)
      requires Valid()
      modifies this
      ensures Valid() && stack == old(stack)
      ensures Took(BlobAt(input, old(position)), r, position)
    {
      var _ :- ExpectTag(BYTES_TAG);
      var size :- TakeLength(1);
      var result := Copy(input, position, size);
      position := position + size;
      return Ok(result);
    }

    // Containers

    method Enter(isObject: bool, count: U64) returns (r: Result<(), Fault>)
      requires Valid()
      modifies this
      ensures Valid() && position == old(position)
      ensures |old(stack)| >= maxDepth ==> r == Err(Fault(TooDeep, position))
      ensures |old(stack)| < maxDepth ==> r == Ok(()) && stack == old(stack) + [Frame(isObject, count)]
    {
      if |stack| >= maxDepth {
        return Err(Fault(TooDeep, position));
      }
      stack := stack + [Frame(isObject, count)];
      return Ok(());
    }

    method BeginArray() returns (r: Result<U64, Fault>)
      requires Valid()
      modifies this
      ensures Valid()
      ensures match EnterAt(input, old(position), ARRAY_TAG, 1, |old(stack)|, maxDepth)
              case Ok((count, end)) =>
                r == Ok(count) && position == end && stack == old(stack) + [Frame(false, count)]
              case Err(fault) => r == Err(fault)
    {
      var _ :- ExpectTag(ARRAY_TAG);
      var count :- TakeLength(1);
      var _ :- Enter(false, count);
      return Ok(count);
    }

    method BeginObject() returns (r: Result<U64, Fault>)
      requires Valid()
      modifies this
      ensures Valid()
      ensures match EnterAt(input, old(position), OBJECT_TAG, 2, |old(stack)|, maxDepth)
              case Ok((count, end)) =>
                r == Ok(count) && position == end && stack == old(stack) + [Frame(true, count)]
              case Err(fault) => r == Err(fault)
    {
      var _ :- ExpectTag(OBJECT_TAG);
      var count :- TakeLength(2);
      var _ :- Enter(true, count);
      return Ok(count);
    }

    /** Takes one of the promised items of the innermost container, if there is one left. */
    method ConsumeSlot() returns (more: bool)
      requires Valid() && stack != []
      modifies this
      ensures Valid() && position == old(position)
      ensures more == (Top(old(stack)).remaining > 0)
      ensures stack == if more then OneLess(old(stack)) else old(stack)
    {
      if stack[|stack| - 1].remaining == 0 {
        return false;
      }
      stack := stack[|stack| - 1 := Frame(stack[|stack| - 1].isObject, stack[|stack| - 1].remaining - 1)];
      return true;
    }

    method NextElement() returns (r: Result<bool, Fault>)
      requires Valid()
      modifies this
      ensures Valid() && position == old(position)
      ensures !Inside(old(stack), false) ==> r == Err(Fault(OutsideContainer, position))
      ensures Inside(old(stack), false) ==>
                && r == Ok(Top(old(stack)).remaining > 0)
                && stack == if r.value then OneLess(old(stack)) else old(stack)
    {
      if stack == [] || stack[|stack| - 1].isObject {
        return Err(Fault(OutsideContainer, position));
      }
      var more := ConsumeSlot();
      return Ok(more);
    }

    method NextKey() returns (r: Result<Option<Text>, Fault>)
      requires Valid()
      modifies this
      ensures Valid()
      ensures !Inside(old(stack), true) ==> r == Err(Fault(OutsideContainer, old(position)))
      ensures Inside(old(stack), true) && Top(old(stack)).remaining == 0 ==>
                r == Ok(None) && position == old(position) && stack == old(stack)
      ensures Inside(old(stack), true) && Top(old(stack)).remaining > 0 ==>
                match G.TakeText(input, old(position))
                case Ok((key, end)) => r == Ok(Some(key)) && position == end && stack == OneLess(old(stack))
                case Err(fault) => r == Err(fault)
    {
      if stack == [] || !stack[|stack| - 1].isObject {
        return Err(Fault(OutsideContainer, position));
      }
      var more := ConsumeSlot();
      if !more {
        return Ok(None);
      }
      var key :- TakeText();
      return Ok(Some(key));
    }

    method Leave() returns (r: Result<(), Fault>)
      requires Valid() && stack != []
      modifies this
      ensures Valid() && position == old(position)
      ensures Top(old(stack)).remaining > 0 ==> r == Err(Fault(UnreadItems, position)) && stack == old(stack)
      ensures Top(old(stack)).remaining == 0 ==> r == Ok(()) && stack == old(stack)[..|old(stack)| - 1]
    {
      if stack[|stack| - 1].remaining != 0 {
        return Err(Fault(UnreadItems, position));
      }
      stack := stack[..|stack| - 1];
      return Ok(());
    }

    method EndArray() returns (r: Result<(), Fault>)
      requires Valid()
      modifies this
      ensures Valid() && position == old(position)
      ensures r == Ended(old(stack), false, position)
      ensures stack == if r.Ok? then old(stack)[..|old(stack)| - 1] else old(stack)
    {
      if stack == [] || stack[|stack| - 1].isObject {
        return Err(Fault(OutsideContainer, position));
      }
      r := Leave();
    }

    method EndObject() returns (r: Result<(), Fault>)
      requires Valid()
      modifies this
      ensures Valid() && position == old(position)
      ensures r == Ended(old(stack), true, position)
      ensures stack == if r.Ok? then old(stack)[..|old(stack)| - 1] else old(stack)
    {
      if stack == [] || !stack[|stack| - 1].isObject {
        return Err(Fault(OutsideContainer, position));
      }
      r := Leave();
    }

    /**
     Skipping is decoding and throwing the value away: it succeeds on the same inputs, fails with the
     same fault, and ends at the same place with the same containers open.
     */
    method SkipValue() returns (r: Result<(), Fault>)
      requires Valid()
      modifies this
      ensures Valid()
      ensures match Decode(input, old(position), |old(stack)|, maxDepth)
              case Ok((_, end)) => r == Ok(()) && position == end && stack == old(stack)
              case Err(fault) => r == Err(fault)
      decreases |input| - position, 1
    {
      var kind :- Peek();
      match kind {
        case NullValue =>
          r := ReadNull();
        case BooleanValue =>
          var flag := ReadBool();
          r := Discard(flag);
        case IntegerValue =>
          var v := ReadFloat();
          r := Discard(v);
        case FloatingValue =>
          var v := ReadFloat();
          r := Discard(v);
        case StringValue =>
          var text := ReadString();
          r := Discard(text);
        case BytesValue =>
          var _ := ExpectTag(BYTES_TAG);
          var size :- TakeLength(1);
          position := position + size;
          return Ok(());
        case ArrayValue =>
          r := SkipArray();
        case ObjectValue =>
          r := SkipObject();
      }
    }

    method SkipArray() returns (r: Result<(), Fault>)
      requires Valid() && position < |input| && input[position] == ARRAY_TAG
      modifies this
      ensures Valid()
      ensures match DecodeTagged(input, old(position) + 1, ARRAY_TAG, |old(stack)|, maxDepth)
              case Ok((_, end)) => r == Ok(()) && position == end && stack == old(stack)
              case Err(fault) => r == Err(fault)
      decreases |input| - position, 0
    {
      var count :- BeginArray();
      r := SkipElements();
    }

    method SkipObject() returns (r: Result<(), Fault>)
      requires Valid() && position < |input| && input[position] == OBJECT_TAG
      modifies this
      ensures Valid()
      ensures match DecodeTagged(input, old(position) + 1, OBJECT_TAG, |old(stack)|, maxDepth)
              case Ok((_, end)) => r == Ok(()) && position == end && stack == old(stack)
              case Err(fault) => r == Err(fault)
      decreases |input| - position, 0
    {
      var count :- BeginObject();
      r := SkipEntries();
    }

    /** The loop over the elements of the array just begun, and its end. */
    method SkipElements() returns (r: Result<(), Fault>)
      requires Valid() && Inside(stack, false)
      modifies this
      ensures Valid()
      ensures match DecodeItems(input, old(position), |old(stack)|, maxDepth, Top(old(stack)).remaining)
              case Ok((_, end)) => r == Ok(()) && position == end && stack == old(stack)[..|old(stack)| - 1]
              case Err(fault) => r == Err(fault)
      decreases |input| - position, 2
    {
      ghost var outer, depth := stack[..|stack| - 1], |stack|;
      ghost var left: nat := Top(stack).remaining;
      ghost var whole := DecodeItems(input, position, depth, maxDepth, left);
      var more := NextElement();
      while more == Ok(true)
        invariant Valid() && position >= old(position)
        invariant more == Ok(left > 0)
        invariant stack == outer + [Frame(false, if left > 0 then left - 1 else 0)]
        invariant SameOutcome(whole, DecodeItems(input, position, depth, maxDepth, left))
        decreases left
      {
        var _ :- SkipValue();
        left := left - 1;
        more := NextElement();
      }
      r := EndArray();
    }

    /** The loop over the entries of the object just begun, and its end. */
    method SkipEntries() returns (r: Result<(), Fault>)
      requires Valid() && Inside(stack, true)
      modifies this
      ensures Valid()
      ensures match DecodeEntries(input, old(position), |old(stack)|, maxDepth, Top(old(stack)).remaining)
              case Ok((_, end)) => r == Ok(()) && position == end && stack == old(stack)[..|old(stack)| - 1]
              case Err(fault) => r == Err(fault)
      decreases |input| - position, 2
    {
      ghost var outer, depth := stack[..|stack| - 1], |stack|;
      ghost var left: nat := Top(stack).remaining;
      ghost var whole := DecodeEntries(input, position, depth, maxDepth, left);
      while true
        invariant Valid() && position >= old(position)
        invariant stack == outer + [Frame(true, left)]
        invariant SameOutcome(whole, DecodeEntries(input, position, depth, maxDepth, left))
        decreases left
      {
        if left > 0 {
          EntriesStep(input, position, depth, maxDepth, left);
        }
        var key :- NextKey();
        if key.None? {
          break;
        }
        var _ :- SkipValue();
        left := left - 1;
      }
      r := EndObject();
    }

    method Finish() returns (r: Result<(), Fault>)
      requires Valid()
      ensures r == if position == |input| then Ok(()) else Err(Fault(TrailingBytes, position))
    {
      if position != |input| {
        return Err(Fault(TrailingBytes, position));
      }
      return Ok(());
    }
  }

  function KindOfTag(tag: Byte): ValueKind
    requires tag <= OBJECT_TAG
  {
    if tag == NULL_TAG then NullValue
    else if tag == FALSE_TAG || tag == TRUE_TAG then BooleanValue
    else if tag == SIGNED_TAG || tag == UNSIGNED_TAG then IntegerValue
    else if tag == FLOAT_TAG then FloatingValue
    else if tag == STRING_TAG then StringValue
    else if tag == BYTES_TAG then BytesValue
    else if tag == ARRAY_TAG then ArrayValue
    else ObjectValue
  }

  function Top(stack: seq<Frame>): Frame
    requires stack != []
  {
    stack[|stack| - 1]
  }

  predicate Inside(stack: seq<Frame>, isObject: bool) {
    stack != [] && Top(stack).isObject == isObject
  }

  function OneLess(stack: seq<Frame>): seq<Frame>
    requires stack != [] && Top(stack).remaining > 0
  {
    stack[..|stack| - 1] + [Frame(Top(stack).isObject, Top(stack).remaining - 1)]
  }

  function Ended(stack: seq<Frame>, isObject: bool, pos: nat): Result<(), Fault> {
    if !Inside(stack, isObject) then Err(Fault(OutsideContainer, pos))
    else if Top(stack).remaining > 0 then Err(Fault(UnreadItems, pos))
    else Ok(())
  }

  /** One entry is a key and a value; the entries after it decide the rest. */
  lemma EntriesStep(input: seq<Byte>, pos: nat, depth: nat, max: nat, left: nat)
    requires pos <= |input| && left > 0
    ensures match G.TakeText(input, pos)
            case Err(fault) => DecodeEntries(input, pos, depth, max, left) == Err(fault)
            case Ok((_, start)) =>
              match Decode(input, start, depth, max)
              case Err(fault) => DecodeEntries(input, pos, depth, max, left) == Err(fault)
              case Ok((_, next)) =>
                SameOutcome(DecodeEntries(input, pos, depth, max, left),
                            DecodeEntries(input, next, depth, max, left - 1))
  {
    assert DecodeEntry(input, pos, depth, max).Ok? ==>
        DecodeEntry(input, pos, depth, max).value.1
        == Decode(input, G.TakeText(input, pos).value.1, depth, max).value.1;
  }
}
