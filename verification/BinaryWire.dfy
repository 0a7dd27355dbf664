/**
 The bytes on the wire, apart from any reader or writer: what an integer, a number and a value look like, what a
 reader says about a value before it takes it, and what is wrong with the input where a fault is reported.
 */
module BinaryWire {
  import opened Bytes
  import opened Serial
  import opened BinaryFormat
  import opened BinaryGrammar
  import R = BinaryReader

  // Integers and numbers

  function LebValue(bytes: seq<Byte>): nat {
    if bytes == [] then 0 else bytes[0] % 0x80 + 0x80 * LebValue(bytes[1..])
  }

  /** Every byte but the last has its high bit set, and the last adds something unless it is alone. */
  predicate IsLeb(bytes: seq<Byte>) {
    && bytes != [] && (forall i :: 0 <= i < |bytes| - 1 ==> bytes[i] >= 0x80)
    && bytes[|bytes| - 1] < 0x80 && (|bytes| > 1 ==> bytes[|bytes| - 1] != 0)
  }

  /** A number is written in the one shortest LEB128 form it has. */
  lemma {:induction false} VarintIsLeb(v: nat, bytes: seq<Byte>)
    ensures bytes == Varint(v) <==> IsLeb(bytes) && LebValue(bytes) == v
    decreases |bytes| + v
  {
    if bytes == Varint(v) {
      VarintHasLeb(v);
    }
    if IsLeb(bytes) {
      LebIsVarint(bytes);
    }
  }

  lemma {:induction false} VarintHasLeb(v: nat)
    ensures IsLeb(Varint(v)) && LebValue(Varint(v)) == v && (v > 0 ==> Varint(v)[|Varint(v)| - 1] != 0)
  {
    if v >= 0x80 {
      VarintHasLeb(v / 0x80);
      assert Varint(v)[1..] == Varint(v / 0x80);
      assert Varint(v)[|Varint(v)| - 1] == Varint(v / 0x80)[|Varint(v / 0x80)| - 1];
      forall i | 0 <= i < |Varint(v)| - 1
        ensures Varint(v)[i] >= 0x80
      {
        assert i > 0 ==> Varint(v)[i] == Varint(v / 0x80)[i - 1];
      }
    } else {
      assert Varint(v)[1..] == [];
    }
  }

  lemma {:induction false} LebIsVarint(bytes: seq<Byte>)
    requires IsLeb(bytes)
    ensures Varint(LebValue(bytes)) == bytes
    ensures bytes[|bytes| - 1] != 0 ==> LebValue(bytes) > 0
    decreases |bytes|
  {
    var rest := bytes[1..];
    if rest == [] {
      assert bytes == [bytes[0]];
    } else {
      assert bytes[0] >= 0x80;
      forall i | 0 <= i < |rest| - 1
        ensures rest[i] >= 0x80
      {
        assert rest[i] == bytes[i + 1];
      }
      LebIsVarint(rest);
      assert bytes == [bytes[0]] + rest;
    }
  }

  /** Groups that end here: every byte but the last goes on. */
  predicate IsRun(bytes: seq<Byte>) {
    && bytes != [] && (forall i :: 0 <= i < |bytes| - 1 ==> bytes[i] >= 0x80) && bytes[|bytes| - 1] < 0x80
  }

  /** A varint is taken exactly where at most ten groups give a number of 64 bits, the shortest form or not. */
  lemma VarintIsTakenExactly(input: seq<Byte>, pos: nat, end: nat, v: U64)
    ensures TakeVarint(input, pos) == Ok((v, end)) <==>
            && pos < end <= |input| && end - pos <= 10
            && IsRun(input[pos..end]) && LebValue(input[pos..end]) == v
  {
    GroupsAreTaken(input, pos, end, 0, 0, v);
  }

  lemma {:induction false} GroupsAreTaken(input: seq<Byte>, pos: nat, end: nat, i: nat, value: nat, v: U64)
    requires i <= 10 && value < Groups(1, i)
    ensures TakeGroups(input, pos, i, value) == Ok((v, end)) <==>
            && pos < end <= |input| && end - pos <= 10 - i
            && IsRun(input[pos..end]) && value + Groups(LebValue(input[pos..end]), i) == v
    decreases 10 - i, 1
  {
    hide IsRun, Groups;
    if i < 10 && pos < |input| {
      FirstGroup(input, pos, end, i, value, v);
    }
  }

  lemma {:induction false} FirstGroup(input: seq<Byte>, pos: nat, end: nat, i: nat, value: nat, v: U64)
    requires i < 10 && value < Groups(1, i) && pos < |input|
    ensures TakeGroups(input, pos, i, value) == Ok((v, end)) <==>
            && pos < end <= |input| && end - pos <= 10 - i
            && IsRun(input[pos..end]) && value + Groups(LebValue(input[pos..end]), i) == v
    decreases 10 - i, 0
  {
    hide IsRun, Groups;
    var b := input[pos];
    if pos < end <= |input| {
      RunParts(input, pos, end, i);
    }
    if i == 9 && b > 1 {
      LastOverflows(value, b);
    } else {
      GroupFits(value, b % 0x80, i);
      if b >= 0x80 {
        GroupsAreTaken(input, pos + 1, end, i + 1, value + Groups(b % 0x80, i), v);
      }
    }
  }

  /** A run is its first group and the run behind it. */
  lemma RunParts(input: seq<Byte>, pos: nat, end: nat, i: nat)
    requires pos < end <= |input|
    ensures IsRun(input[pos..end]) <==>
            if input[pos] < 0x80 then end == pos + 1 else pos + 1 < end && IsRun(input[pos + 1..end])
    ensures Groups(LebValue(input[pos..end]), i)
         == Groups(input[pos] % 0x80, i) + Groups(LebValue(input[pos + 1..end]), i + 1)
    ensures end == pos + 1 ==> Groups(LebValue(input[pos + 1..end]), i + 1) == 0
  {
    hide Groups;
    var all, rest := input[pos..end], input[pos + 1..end];
    assert all[1..] == rest && all[0] == input[pos];
    MoreGroups(input[pos] % 0x80, LebValue(rest), i);
    if end == pos + 1 {
      NoGroups(i + 1);
    } else {
      forall k | 0 <= k < |rest|
        ensures rest[k] == all[k + 1]
      {
      }
      RunOfRest(all);
    }
  }

  lemma RunOfRest(all: seq<Byte>)
    requires |all| > 1
    ensures IsRun(all) <==> all[0] >= 0x80 && IsRun(all[1..])
  {
    forall k | 0 <= k < |all| - 1
      ensures all[k + 1] == all[1..][k]
    {
    }
    if all[0] >= 0x80 && IsRun(all[1..]) {
      forall k | 0 <= k < |all| - 1
        ensures all[k] >= 0x80
      {
        assert k > 0 ==> all[k] == all[1..][k - 1];
      }
    }
  }

  lemma MoreGroups(group: nat, rest: nat, i: nat)
    ensures Groups(group + 0x80 * rest, i) == Groups(group, i) + Groups(rest, i + 1)
  {
    GroupsAdd(group, 0x80 * rest, i);
  }

  lemma {:induction false} NoGroups(i: nat)
    ensures Groups(0, i) == 0
    decreases i
  {
    if i > 0 {
      NoGroups(i - 1);
    }
  }

  lemma LastOverflows(value: nat, b: Byte)
    requires b > 1
    ensures b < 0x80 ==> value + Groups(b % 0x80, 9) >= TWO_64
  {
    if b < 0x80 {
      GroupsMonotone(2, b, 9);
      GroupsAdd(1, 1, 9);
      Groups64();
    }
  }

  function Power256(i: nat): nat {
    if i == 0 then 1 else 0x100 * Power256(i - 1)
  }

  /** The byte at place `i` counts for the `i`-th power of 256. */
  function PlaceValue(bytes: seq<Byte>): nat {
    if bytes == [] then 0
    else PlaceValue(bytes[..|bytes| - 1]) + bytes[|bytes| - 1] * Power256(|bytes| - 1)
  }

  /** The first byte is the lowest. */
  lemma {:induction false} LittleIsPlaceValue(bytes: seq<Byte>)
    ensures LittleValue(bytes) == PlaceValue(bytes)
    decreases |bytes|
  {
    if bytes != [] {
      LittleIsPlaceValue(bytes[1..]);
      FirstIsLowest(bytes);
    }
  }

  lemma {:induction false} FirstIsLowest(bytes: seq<Byte>)
    requires bytes != []
    ensures PlaceValue(bytes) == bytes[0] + 0x100 * PlaceValue(bytes[1..])
    decreases |bytes|
  {
    var front, rest := bytes[..|bytes| - 1], bytes[1..];
    if |bytes| > 1 {
      FirstIsLowest(front);
      assert front[1..] == rest[..|rest| - 1];
      var last, power := bytes[|bytes| - 1], Power256(|rest| - 1);
      assert Power256(|bytes| - 1) == 0x100 * power;
      assert last * (0x100 * power) == 0x100 * (last * power);
    }
  }

  // What a reader says first

  function KindOfValue(t: Value): ValueKind {
    match t
    case Array(_) => ArrayValue
    case Object(_) => ObjectValue
    case Leaf(leaf) =>
      match leaf
      case Null => NullValue
      case Bool(_) => BooleanValue
      case Signed(_) => IntegerValue
      case Unsigned(_) => IntegerValue
      case Float(_) => FloatingValue
      case Str(_) => StringValue
      case Blob(_) => BytesValue
  }

  /** Peeking tells the kind of the value that is there, and nothing can be read where it fails. */
  lemma PeekTellsTheKind(input: seq<Byte>, pos: nat, depth: nat, max: nat)
    requires pos <= |input|
    ensures match PeekTag(input, pos)
            case Err(fault) => Decode(input, pos, depth, max) == Err(fault)
            case Ok(tag) =>
              tag <= OBJECT_TAG
              && (Decode(input, pos, depth, max).Ok? ==>
                    R.KindOfTag(tag) == KindOfValue(Decode(input, pos, depth, max).value.0))
  {
    hide TakeVarint, TakeLength, TakeText, TakeDouble, DecodeItems, DecodeEntries;
  }


  // What is wrong where a fault is reported

  /** Up to the offset stand nine groups that go on and one that takes the number past 64 bits. */
  predicate Overflows(input: seq<Byte>, offset: nat) {
    && 10 <= offset <= |input| && input[offset - 1] > 1
    && forall k :: offset - 10 <= k < offset - 1 ==> input[k] >= 0x80
  }

  predicate RunsTo(input: seq<Byte>, offset: nat, end: nat) {
    offset < end <= |input| && IsRun(input[offset..end])
  }

  /** The length at the offset counts more than can follow: bytes or items, or entries of two bytes. */
  ghost predicate ClaimsTooMuch(input: seq<Byte>, offset: nat) {
    exists end: nat :: RunsTo(input, offset, end) && Exceeds(input, offset, end)
  }

  predicate Exceeds(input: seq<Byte>, offset: nat, end: nat)
    requires offset < end <= |input|
  {
    var claimed, left := LebValue(input[offset..end]), |input| - end;
    claimed > left || (offset > 0 && input[offset - 1] == 0x09 && 2 * claimed > left)
  }

  /** A container and the number of its items end at the offset. */
  ghost predicate HasOpened(input: seq<Byte>, offset: nat) {
    exists p: nat :: 0 < p <= |input| && (input[p - 1] == 0x08 || input[p - 1] == 0x09) && RunsTo(input, p, offset)
  }

  /** The fault names what can be seen at its offset. */
  ghost predicate IsSeen(input: seq<Byte>, fault: Fault) {
    match fault.reason
    case UnexpectedEnd =>
      fault.offset == |input| || (0 < fault.offset <= |input| < fault.offset + 8 && input[fault.offset - 1] == 0x05)
    case UnknownTag => fault.offset < |input| && input[fault.offset] > 0x09
    case VarintOverflow => Overflows(input, fault.offset)
    case LengthExceedsInput => ClaimsTooMuch(input, fault.offset)
    case TooDeep => HasOpened(input, fault.offset)
    case _ => false
  }

  lemma {:induction false} GroupsFault(input: seq<Byte>, pos: nat, i: nat, value: nat)
    requires i <= 9 && value < Groups(1, i) && i <= pos <= |input|
    requires forall k :: pos - i <= k < pos ==> input[k] >= 0x80
    ensures var r := TakeGroups(input, pos, i, value);
            r.Err? ==> r.error == Fault(UnexpectedEnd, |input|)
                       || (r.error.reason == VarintOverflow && Overflows(input, r.error.offset))
    decreases 9 - i
  {
    hide Groups;
    if pos < |input| && !(i == 9 && input[pos] > 1) {
      GroupFits(value, input[pos] % 0x80, i);
      if input[pos] >= 0x80 {
        GroupsFault(input, pos + 1, i + 1, value + Groups(input[pos] % 0x80, i));
      }
    }
  }

  lemma VarintFault(input: seq<Byte>, pos: nat)
    requires pos <= |input| && TakeVarint(input, pos).Err?
    ensures IsSeen(input, TakeVarint(input, pos).error)
  {
    GroupsFault(input, pos, 0, 0);
  }

  lemma VarintRuns(input: seq<Byte>, pos: nat)
    requires TakeVarint(input, pos).Ok?
    ensures var (v, end) := TakeVarint(input, pos).value; RunsTo(input, pos, end) && LebValue(input[pos..end]) == v
  {
    var (v, end) := TakeVarint(input, pos).value;
    VarintIsTakenExactly(input, pos, end, v);
  }

  lemma LengthFault(input: seq<Byte>, pos: nat, minimum: nat)
    requires pos <= |input| && (minimum == 1 || (minimum == 2 && pos > 0 && input[pos - 1] == 0x09))
    requires TakeLength(input, pos, minimum).Err?
    ensures IsSeen(input, TakeLength(input, pos, minimum).error)
  {
    hide TakeVarint, IsRun, LebValue;
    if TakeVarint(input, pos).Err? {
      VarintFault(input, pos);
    } else {
      VarintRuns(input, pos);
      var end := TakeVarint(input, pos).value.1;
      assert RunsTo(input, pos, end) && Exceeds(input, pos, end);
    }
  }

  lemma TextFault(input: seq<Byte>, pos: nat)
    requires pos <= |input| && TakeText(input, pos).Err?
    ensures IsSeen(input, TakeText(input, pos).error)
  {
    LengthFault(input, pos, 1);
  }

  lemma LeafFault(input: seq<Byte>, pos: nat, tag: Byte)
    requires 0 < pos <= |input| && input[pos - 1] == tag < ARRAY_TAG && DecodeLeaf(input, pos, tag).Err?
    ensures IsSeen(input, DecodeLeaf(input, pos, tag).error)
  {
    hide TakeVarint, TakeLength, IsSeen;
    if tag == SIGNED_TAG || tag == UNSIGNED_TAG {
      VarintFault(input, pos);
    } else if tag == FLOAT_TAG {
      DoubleFault(input, pos);
    } else if tag == STRING_TAG || tag == BYTES_TAG {
      TextFault(input, pos);
    }
  }

  lemma DoubleFault(input: seq<Byte>, pos: nat)
    requires 0 < pos <= |input| && input[pos - 1] == FLOAT_TAG && TakeDouble(input, pos).Err?
    ensures IsSeen(input, TakeDouble(input, pos).error)
  {
  }

  /** Whatever cannot be read is refused for what can be seen where the fault is reported. */
  lemma {:induction false} FaultIsSeen(input: seq<Byte>, pos: nat, depth: nat, max: nat)
    requires pos <= |input| && Decode(input, pos, depth, max).Err?
    ensures IsSeen(input, Decode(input, pos, depth, max).error)
    decreases |input| - pos, 0
  {
    hide DecodeTagged;
    if PeekTag(input, pos).Ok? {
      TaggedFault(input, pos + 1, input[pos], depth, max);
    }
  }

  lemma {:induction false} TaggedFault(input: seq<Byte>, pos: nat, tag: Byte, depth: nat, max: nat)
    requires 0 < pos <= |input| && input[pos - 1] == tag <= OBJECT_TAG && DecodeTagged(input, pos, tag, depth, max).Err?
    ensures IsSeen(input, DecodeTagged(input, pos, tag, depth, max).error)
    decreases |input| - pos, 0
  {
    hide TakeLength, DecodeItems, DecodeEntries, DecodeLeaf, IsSeen;
    if tag == ARRAY_TAG || tag == OBJECT_TAG {
      var least := if tag == ARRAY_TAG then 1 else 2;
      if TakeLength(input, pos, least).Err? {
        LengthFault(input, pos, least);
      } else {
        var (count, start) := TakeLength(input, pos, least).value;
        if depth >= max {
          DepthFault(input, pos, least);
        } else if tag == ARRAY_TAG {
          ItemsFault(input, start, depth + 1, max, count);
        } else {
          EntriesFault(input, start, depth + 1, max, count);
        }
      }
    } else {
      LeafFault(input, pos, tag);
    }
  }

  lemma DepthFault(input: seq<Byte>, pos: nat, minimum: nat)
    requires 0 < pos <= |input| && (input[pos - 1] == ARRAY_TAG || input[pos - 1] == OBJECT_TAG)
    requires (minimum == 1 || minimum == 2) && TakeLength(input, pos, minimum).Ok?
    ensures IsSeen(input, Fault(TooDeep, TakeLength(input, pos, minimum).value.1))
  {
    VarintRuns(input, pos);
  }

  lemma {:induction false} ItemsFault(input: seq<Byte>, pos: nat, depth: nat, max: nat, count: nat)
    requires pos <= |input| && DecodeItems(input, pos, depth, max, count).Err?
    ensures IsSeen(input, DecodeItems(input, pos, depth, max, count).error)
    decreases |input| - pos, 1 + count
  {
    hide Decode, IsSeen;
    if Decode(input, pos, depth, max).Err? {
      FaultIsSeen(input, pos, depth, max);
    } else {
      ItemsFault(input, Decode(input, pos, depth, max).value.1, depth, max, count - 1);
    }
  }

  lemma {:induction false} EntriesFault(input: seq<Byte>, pos: nat, depth: nat, max: nat, count: nat)
    requires pos <= |input| && DecodeEntries(input, pos, depth, max, count).Err?
    ensures IsSeen(input, DecodeEntries(input, pos, depth, max, count).error)
    decreases |input| - pos, 1 + count
  {
    hide Decode, IsSeen, TakeText;
    if TakeText(input, pos).Err? {
      TextFault(input, pos);
    } else {
      var start := TakeText(input, pos).value.1;
      if Decode(input, start, depth, max).Err? {
        FaultIsSeen(input, start, depth, max);
      } else {
        EntriesFault(input, Decode(input, start, depth, max).value.1, depth, max, count - 1);
      }
    }
  }
}
