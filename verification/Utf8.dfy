/** UTF-8 (section 4 of RFC 3629): one scalar value at a time, without overlong forms or surrogates. */
module Utf8 {
  import opened Bytes

  predicate IsSurrogate(codePoint: nat) {
    0xD800 <= codePoint <= 0xDFFF
  }

  predicate IsScalar(codePoint: nat) {
    codePoint <= 0x10FFFF && !IsSurrogate(codePoint)
  }

  datatype Reason = BadLead | Truncated | BadContinuation | BadSequence

  /** The bytes of a scalar value. */
  function Append(codePoint: nat): (bytes: seq<Byte>)
    requires IsScalar(codePoint)
    ensures 1 <= |bytes| <= 4
  {
    if codePoint < 0x80 then [codePoint]
    else if codePoint < 0x800 then [0xC0 + codePoint / 0x40, 0x80 + codePoint % 0x40]
    else if codePoint < 0x10000 then
      [0xE0 + codePoint / 0x1000, 0x80 + codePoint / 0x40 % 0x40, 0x80 + codePoint % 0x40]
    else
      [0xF0 + codePoint / 0x40000, 0x80 + codePoint / 0x1000 % 0x40,
       0x80 + codePoint / 0x40 % 0x40, 0x80 + codePoint % 0x40]
  }

  /** The six bits of `count` continuation bytes, below the bits in `codePoint`. */
  function Continue(text: seq<Byte>, pos: nat, count: nat, codePoint: nat): Option<nat>
    requires pos + count <= |text|
    decreases |text| - pos
  {
    if count == 0 then Some(codePoint)
    else if text[pos] / 0x40 != 2 then None
    else Continue(text, pos + 1, count - 1, codePoint * 0x40 + text[pos] % 0x40)
  }

  /** The scalar value at `pos`, and where it ends. */
  function Decode(text: seq<Byte>, pos: nat): (r: Result<(nat, nat), Reason>)
    requires pos < |text|
    ensures r.Ok? ==> pos < r.value.1 <= |text|
  {
    var lead := text[pos];
    if lead < 0x80 then Ok((lead, pos + 1))
    else if lead / 0x20 == 6 then Sequence(text, pos, 2, lead % 0x20, 0x80)
    else if lead / 0x10 == 14 then Sequence(text, pos, 3, lead % 0x10, 0x800)
    else if lead / 8 == 30 then Sequence(text, pos, 4, lead % 8, 0x10000)
    else Err(BadLead)
  }

  function Sequence(text: seq<Byte>, pos: nat, length: nat, high: nat, minimum: nat): Result<(nat, nat), Reason>
    requires pos < |text| && length > 0
  {
    if pos + length > |text| then Err(Truncated)
    else
      match Continue(text, pos + 1, length - 1, high)
      case None => Err(BadContinuation)
      case Some(codePoint) =>
        if codePoint < minimum || !IsScalar(codePoint) then Err(BadSequence)
        else Ok((codePoint, pos + length))
  }

  /** From `pos` on, nothing but scalar values. */
  predicate ValidFrom(text: seq<Byte>, pos: nat)
    requires pos <= |text|
    decreases |text| - pos
  {
    pos == |text| || (Decode(text, pos).Ok? && ValidFrom(text, Decode(text, pos).value.1))
  }

  predicate Valid(text: seq<Byte>) {
    ValidFrom(text, 0)
  }

  method Validate(text: seq<Byte>) returns (r: Result<(), Reason>)
    ensures r.Ok? <==> Valid(text)
  {
    var position := 0;
    while position < |text|
      invariant position <= |text|
      invariant Valid(text) <==> ValidFrom(text, position)
    {
      var decoded :- Decode(text, position);
      position := decoded.1;
    }
    return Ok(());
  }

  // Encoding and decoding are inverse

  lemma DecodeOfAppend(text: seq<Byte>, pos: nat, codePoint: nat)
    requires IsScalar(codePoint) && At(text, pos, Append(codePoint))
    ensures pos < |text|
    ensures Decode(text, pos) == Ok((codePoint, pos + |Append(codePoint)|))
  {
    var bytes := Append(codePoint);
    assert text[pos + 0] == bytes[0];
    if codePoint >= 0x80 {
      assert text[pos + 1] == bytes[1];
      if codePoint < 0x800 {
        TwoBytes(text, pos, codePoint);
      } else {
        assert text[pos + 2] == bytes[2];
        if codePoint < 0x10000 {
          ThreeBytes(text, pos, codePoint);
        } else {
          assert text[pos + 3] == bytes[3];
          FourBytes(text, pos, codePoint);
        }
      }
    }
  }

  lemma TwoBytes(text: seq<Byte>, pos: nat, v: nat)
    requires 0x80 <= v < 0x800
    requires pos + 2 <= |text| && text[pos] == 0xC0 + v / 0x40 && text[pos + 1] == 0x80 + v % 0x40
    ensures Decode(text, pos) == Ok((v, pos + 2))
  {
    assert Continue(text, pos + 2, 0, v) == Some(v);
    assert Continue(text, pos + 1, 1, v / 0x40) == Some(v);
  }

  lemma ThreeBytes(text: seq<Byte>, pos: nat, v: nat)
    requires 0x800 <= v < 0x10000 && IsScalar(v)
    requires pos + 3 <= |text| && text[pos] == 0xE0 + v / 0x1000
    requires text[pos + 1] == 0x80 + v / 0x40 % 0x40 && text[pos + 2] == 0x80 + v % 0x40
    ensures Decode(text, pos) == Ok((v, pos + 3))
  {
    assert Continue(text, pos + 3, 0, v) == Some(v);
    assert Continue(text, pos + 2, 1, v / 0x40) == Some(v);
    assert Continue(text, pos + 1, 2, v / 0x1000) == Some(v);
  }

  lemma FourBytes(text: seq<Byte>, pos: nat, v: nat)
    requires 0x10000 <= v <= 0x10FFFF
    requires pos + 4 <= |text| && text[pos] == 0xF0 + v / 0x40000
    requires text[pos + 1] == 0x80 + v / 0x1000 % 0x40
    requires text[pos + 2] == 0x80 + v / 0x40 % 0x40 && text[pos + 3] == 0x80 + v % 0x40
    ensures Decode(text, pos) == Ok((v, pos + 4))
  {
    assert Continue(text, pos + 4, 0, v) == Some(v);
    assert Continue(text, pos + 3, 1, v / 0x40) == Some(v);
    assert Continue(text, pos + 2, 2, v / 0x1000) == Some(v);
    assert Continue(text, pos + 1, 3, v / 0x40000) == Some(v);
  }

  /** What decodes is a scalar value, in exactly the bytes `Append` gives it: no other form is accepted. */
  lemma AppendOfDecode(text: seq<Byte>, pos: nat)
    requires pos < |text| && Decode(text, pos).Ok?
    ensures var (codePoint, end) := Decode(text, pos).value;
            IsScalar(codePoint) && At(text, pos, Append(codePoint)) && end == pos + |Append(codePoint)|
  {
    var lead := text[pos];
    if lead < 0x80 {
    } else if lead / 0x20 == 6 {
      FromTwoBytes(text, pos);
    } else if lead / 0x10 == 14 {
      FromThreeBytes(text, pos);
    } else {
      FromFourBytes(text, pos);
    }
  }

  lemma FromTwoBytes(text: seq<Byte>, pos: nat)
    requires pos < |text| && text[pos] / 0x20 == 6 && Sequence(text, pos, 2, text[pos] % 0x20, 0x80).Ok?
    ensures var (v, end) := Sequence(text, pos, 2, text[pos] % 0x20, 0x80).value;
            IsScalar(v) && At(text, pos, Append(v)) && end == pos + 2 == pos + |Append(v)|
  {
    var a: nat, b: nat := text[pos] % 0x20, text[pos + 1] % 0x40;
    assert Continue(text, pos + 2, 0, a * 0x40 + b) == Some(a * 0x40 + b);
    var v: nat := a * 0x40 + b;
    assert Append(v) == [text[pos], text[pos + 1]];
  }

  lemma FromThreeBytes(text: seq<Byte>, pos: nat)
    requires pos < |text| && text[pos] / 0x10 == 14 && Sequence(text, pos, 3, text[pos] % 0x10, 0x800).Ok?
    ensures var (v, end) := Sequence(text, pos, 3, text[pos] % 0x10, 0x800).value;
            IsScalar(v) && At(text, pos, Append(v)) && end == pos + 3 == pos + |Append(v)|
  {
    var a: nat, b: nat, c: nat := text[pos] % 0x10, text[pos + 1] % 0x40, text[pos + 2] % 0x40;
    var v: nat := (a * 0x40 + b) * 0x40 + c;
    assert Continue(text, pos + 3, 0, v) == Some(v);
    assert Continue(text, pos + 2, 1, a * 0x40 + b) == if text[pos + 2] / 0x40 != 2 then None else Some(v);
    ThreeSixBitDigits(a, b, c);
    assert Append(v) == [0xE0 + a, 0x80 + b, 0x80 + c];
    Recompose(text[pos], 0x10, 14);
    Recompose(text[pos + 1], 0x40, 2);
    Recompose(text[pos + 2], 0x40, 2);
  }

  lemma Recompose(byte: Byte, size: nat, high: nat)
    requires size > 0 && byte / size == high
    ensures byte == high * size + byte % size
  {
  }

  lemma FromFourBytes(text: seq<Byte>, pos: nat)
    requires pos < |text| && text[pos] / 8 == 30 && Sequence(text, pos, 4, text[pos] % 8, 0x10000).Ok?
    ensures var (v, end) := Sequence(text, pos, 4, text[pos] % 8, 0x10000).value;
            IsScalar(v) && At(text, pos, Append(v)) && end == pos + 4 == pos + |Append(v)|
  {
    var a: nat, b: nat, c: nat, d: nat := text[pos] % 8, text[pos + 1] % 0x40, text[pos + 2] % 0x40, text[pos + 3] % 0x40;
    var u: nat := (a * 0x40 + b) * 0x40 + c;
    var v: nat := u * 0x40 + d;
    assert Continue(text, pos + 4, 0, v) == Some(v);
    assert Continue(text, pos + 3, 1, u) == if text[pos + 3] / 0x40 != 2 then None else Some(v);
    assert Continue(text, pos + 2, 2, a * 0x40 + b)
        == if text[pos + 2] / 0x40 != 2 then None else Continue(text, pos + 3, 1, u);
    FourSixBitDigits(a, b, c, d);
    assert Append(v) == [0xF0 + a, 0x80 + b, 0x80 + c, 0x80 + d];
    Recompose(text[pos], 8, 30);
    Recompose(text[pos + 1], 0x40, 2);
    Recompose(text[pos + 2], 0x40, 2);
    Recompose(text[pos + 3], 0x40, 2);
  }

  // Whole texts

  type Scalar = v: nat | IsScalar(v)

  function AppendAll(scalars: seq<Scalar>): seq<Byte> {
    if scalars == [] then [] else Append(scalars[0]) + AppendAll(scalars[1..])
  }

  /** A valid text is the encoding of some scalar values. */
  lemma {:induction false} ScalarsOf(text: seq<Byte>, pos: nat) returns (scalars: seq<Scalar>)
    requires pos <= |text| && ValidFrom(text, pos)
    ensures At(text, pos, AppendAll(scalars)) && pos + |AppendAll(scalars)| == |text|
    decreases |text| - pos
  {
    if pos == |text| {
      scalars := [];
    } else {
      var (v, end) := Decode(text, pos).value;
      AppendOfDecode(text, pos);
      var rest := ScalarsOf(text, end);
      scalars := [v] + rest;
      assert scalars[1..] == rest;
      AtConcat(text, pos, Append(v), AppendAll(rest));
    }
  }

  /** The encoding of any scalar values is a valid text. */
  lemma {:induction false} AppendAllIsValid(text: seq<Byte>, pos: nat, scalars: seq<Scalar>)
    requires At(text, pos, AppendAll(scalars)) && pos + |AppendAll(scalars)| == |text|
    ensures ValidFrom(text, pos)
    decreases |scalars|
  {
    if scalars != [] {
      AtConcat(text, pos, Append(scalars[0]), AppendAll(scalars[1..]));
      DecodeOfAppend(text, pos, scalars[0]);
      AppendAllIsValid(text, pos + |Append(scalars[0])|, scalars[1..]);
    }
  }

  lemma {:induction false} AppendAllConcat(a: seq<Scalar>, b: seq<Scalar>)
    ensures AppendAll(a + b) == AppendAll(a) + AppendAll(b)
  {
    if a == [] {
      assert a + b == b;
    } else {
      assert (a + b)[1..] == a[1..] + b;
      AppendAllConcat(a[1..], b);
    }
  }

  /** Valid texts put together are valid. */
  lemma ValidConcat(a: seq<Byte>, b: seq<Byte>)
    requires Valid(a) && Valid(b)
    ensures Valid(a + b)
  {
    var s := ScalarsOf(a, 0);
    var t := ScalarsOf(b, 0);
    AppendAllConcat(s, t);
    AtWhole(a, AppendAll(s));
    AtWhole(b, AppendAll(t));
    AppendAllIsValid(a + b, 0, s + t);
  }

  lemma ValidOne(v: Scalar)
    ensures Valid(Append(v))
  {
    assert [v][1..] == [];
    assert AppendAll([v]) == Append(v);
    AppendAllIsValid(Append(v), 0, [v]);
  }

  // UTF-16 surrogate pairs

  /** The code point a surrogate pair stands for. */
  function FromPair(high: nat, low: nat): nat
    requires 0xD800 <= high <= 0xDBFF && 0xDC00 <= low <= 0xDFFF
  {
    0x10000 + (high - 0xD800) * 0x400 + (low - 0xDC00)
  }

  function ToPair(codePoint: nat): (nat, nat)
    requires 0x10000 <= codePoint <= 0x10FFFF
  {
    (0xD800 + (codePoint - 0x10000) / 0x400, 0xDC00 + (codePoint - 0x10000) % 0x400)
  }

  /** The formula is a bijection from surrogate pairs onto the code points from U+10000 up. */
  lemma PairsAreBijective(high: nat, low: nat, codePoint: nat)
    requires 0xD800 <= high <= 0xDBFF && 0xDC00 <= low <= 0xDFFF
    requires 0x10000 <= codePoint <= 0x10FFFF
    ensures 0x10000 <= FromPair(high, low) <= 0x10FFFF
    ensures ToPair(FromPair(high, low)) == (high, low)
    ensures 0xD800 <= ToPair(codePoint).0 <= 0xDBFF && 0xDC00 <= ToPair(codePoint).1 <= 0xDFFF
    ensures FromPair(ToPair(codePoint).0, ToPair(codePoint).1) == codePoint
  {
  }

  predicate IsContinuation(b: Byte) {
    0x80 <= b <= 0xBF
  }

  /** What a byte adds to its mark. */
  function Bits(b: Byte, mark: int): int {
    b as int - mark
  }

  /** The number of bytes, and the bits in each of them, as section 3 of RFC 3629 has them. */
  lemma AppendHasBits(v: Scalar)
    ensures var b := Append(v);
            if v <= 0x7F then |b| == 1 && b[0] == v
            else if v <= 0x7FF then
              |b| == 2 && 0xC2 <= b[0] <= 0xDF && IsContinuation(b[1]) && v == 0x40 * Bits(b[0], 0xC0) + Bits(b[1], 0x80)
            else if v <= 0xFFFF then
              && |b| == 3 && 0xE0 <= b[0] <= 0xEF && IsContinuation(b[1]) && IsContinuation(b[2])
              && v == 0x1000 * Bits(b[0], 0xE0) + 0x40 * Bits(b[1], 0x80) + Bits(b[2], 0x80)
            else
              && |b| == 4 && 0xF0 <= b[0] <= 0xF4 && IsContinuation(b[1]) && IsContinuation(b[2]) && IsContinuation(b[3])
              && v == 0x40000 * Bits(b[0], 0xF0) + 0x1000 * Bits(b[1], 0x80) + 0x40 * Bits(b[2], 0x80) + Bits(b[3], 0x80)
  {
    var groups := v / 0x40;
    var higher := groups / 0x40;
    assert v == 0x40 * groups + v % 0x40 && groups == 0x40 * higher + groups % 0x40;
    assert higher == 0x40 * (higher / 0x40) + higher % 0x40;
    assert v / 0x1000 == higher && v / 0x40000 == higher / 0x40;
    assert IsScalar(v) && v <= 0x10FFFF;
    assert groups <= 0x43FF;
    assert v > 0xFFFF ==> 0x10 <= higher <= 0x10F;
    assert v > 0xFFFF ==> 0 <= higher / 0x40 <= 4;
  }

  /** Pairs are in the order of their code points, so there is no other such bijection. */
  lemma PairsAreOrdered(high: nat, low: nat, otherHigh: nat, otherLow: nat)
    requires 0xD800 <= high <= 0xDBFF && 0xDC00 <= low <= 0xDFFF
    requires 0xD800 <= otherHigh <= 0xDBFF && 0xDC00 <= otherLow <= 0xDFFF
    ensures FromPair(high, low) < FromPair(otherHigh, otherLow) <==>
            high < otherHigh || (high == otherHigh && low < otherLow)
  {
  }
}