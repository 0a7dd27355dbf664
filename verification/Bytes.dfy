/** Bytes, fixed-width integers, and the outcome types shared by every other module. */
module Bytes {

  type Byte = x: int | 0 <= x < 0x100

  const TWO_63 := 0x8000_0000_0000_0000
  const TWO_64 := 0x1_0000_0000_0000_0000

  type U32 = x: int | 0 <= x < 0x1_0000_0000
  type U64 = x: int | 0 <= x < TWO_64
  type I64 = x: int | -TWO_63 <= x < TWO_63

  /** Anything a `size_t` can measure. */
  type Sized<T> = s: seq<T> | |s| < TWO_64
  type Text = Sized<Byte>

  datatype Option<+T> = None | Some(value: T)

  datatype Result<+T, +E> = Ok(value: T) | Err(error: E) {
    predicate IsFailure() {
      Err?
    }

    function PropagateFailure<U>(): Result<U, E>
      requires Err?
    {
      Err(error)
    }

    function Extract(): T
      requires Ok?
    {
      value
    }
  }

  /** `part` is found in `input` at offset `pos`. */
  predicate At(input: seq<Byte>, pos: nat, part: seq<Byte>) {
    && pos + |part| <= |input|
    && forall i :: 0 <= i < |part| ==> part[i] == input[pos + i]
  }

  lemma AtConcat(input: seq<Byte>, pos: nat, a: seq<Byte>, b: seq<Byte>)
    ensures At(input, pos, a + b) <==> At(input, pos, a) && At(input, pos + |a|, b)
  {
    if At(input, pos, a + b) {
      forall i | 0 <= i < |b|
        ensures b[i] == input[pos + |a| + i]
      {
        assert (a + b)[|a| + i] == b[i];
      }
      forall i | 0 <= i < |a|
        ensures a[i] == input[pos + i]
      {
        assert (a + b)[i] == a[i];
      }
    }
  }

  lemma AtByte(input: seq<Byte>, pos: nat, b: Byte)
    ensures At(input, pos, [b]) <==> pos < |input| && input[pos] == b
  {
    if At(input, pos, [b]) {
      assert [b][0] == input[pos + 0];
    }
  }

  /** Bytes that fill the whole input are the input. */
  lemma AtWhole(input: seq<Byte>, part: seq<Byte>)
    requires |part| == |input|
    ensures At(input, 0, part) <==> part == input
  {
  }

  /** The `count` bytes of `input` from `pos` on. */
  function Copy(input: seq<Byte>, pos: nat, count: nat): (part: seq<Byte>)
    requires pos + count <= |input|
    ensures |part| == count
    decreases |input| - pos
  {
    if count == 0 then [] else [input[pos]] + Copy(input, pos + 1, count - 1)
  }

  lemma {:induction false} CopyIsAt(input: seq<Byte>, pos: nat, part: seq<Byte>)
    ensures At(input, pos, part) <==> pos + |part| <= |input| && Copy(input, pos, |part|) == part
    decreases |part|
  {
    if part != [] {
      AtConcat(input, pos, [part[0]], part[1..]);
      AtByte(input, pos, part[0]);
      assert part == [part[0]] + part[1..];
      CopyIsAt(input, pos + 1, part[1..]);
    }
  }

  lemma ConcatAssociative<T>(a: seq<T>, b: seq<T>, c: seq<T>)
    ensures (a + b) + c == a + (b + c)
  {
  }

  /** Parts of the same length in front can be told from what follows. */
  lemma HeadsAgree<T>(a: seq<T>, x: seq<T>, b: seq<T>, y: seq<T>)
    requires |a| == |b| && a + x == b + y
    ensures a == b && x == y
  {
    assert a == (a + x)[..|a|] && b == (b + y)[..|b|];
    assert x == (a + x)[|a|..] && y == (b + y)[|b|..];
  }

  // Bits of unsigned numbers

  /** `x` moved up by `n` bits: `x` times the `n`-th power of two. */
  function Shift(x: nat, n: nat): nat
    decreases n
  {
    if n == 0 then x else Shift(2 * x, n - 1)
  }

  lemma {:induction false} ShiftShift(x: nat, m: nat, n: nat)
    ensures Shift(Shift(x, m), n) == Shift(x, m + n)
    decreases m
  {
    if m > 0 {
      ShiftShift(2 * x, m - 1, n);
    }
  }

  lemma {:induction false} ShiftAdd(x: nat, y: nat, n: nat)
    ensures Shift(x + y, n) == Shift(x, n) + Shift(y, n)
    decreases n
  {
    if n > 0 {
      ShiftAdd(2 * x, 2 * y, n - 1);
    }
  }

  /** The last step of a shift is a doubling too. */
  lemma ShiftLast(x: nat, n: nat)
    requires n > 0
    ensures Shift(x, n) == 2 * Shift(x, n - 1)
  {
    ShiftAdd(x, x, n - 1);
  }

  lemma {:induction false} ShiftMonotone(x: nat, y: nat, n: nat)
    requires x <= y
    ensures x <= Shift(x, n) <= Shift(y, n)
    decreases n
  {
    if n > 0 {
      ShiftMonotone(2 * x, 2 * y, n - 1);
    }
  }

  lemma ShiftEight(x: nat, n: nat)
    ensures Shift(x, n + 8) == 0x100 * Shift(x, n)
  {
    ShiftLast(x, n + 1);
    ShiftLast(x, n + 2);
    ShiftLast(x, n + 3);
    ShiftLast(x, n + 4);
    ShiftLast(x, n + 5);
    ShiftLast(x, n + 6);
    ShiftLast(x, n + 7);
    ShiftLast(x, n + 8);
  }

  lemma ShiftToTop()
    ensures Shift(1, 63) == TWO_63 && Shift(1, 64) == TWO_64
  {
    ShiftEight(1, 0);
    ShiftEight(1, 8);
    ShiftEight(1, 16);
    ShiftEight(1, 24);
    ShiftEight(1, 32);
    ShiftEight(1, 40);
    ShiftEight(1, 48);
    ShiftEight(1, 56);
    ShiftLast(1, 64);
  }

  function BitOr(a: nat, b: nat): nat {
    if a == 0 then b
    else if b == 0 then a
    else (if a % 2 == 1 || b % 2 == 1 then 1 else 0) + 2 * BitOr(a / 2, b / 2)
  }

  /** `x << n` in a 64-bit register: each step drops the bit that falls out at the top. */
  function ShiftLeft64(x: U64, n: nat): U64
    decreases n
  {
    if n == 0 then x else ShiftLeft64(2 * x % TWO_64, n - 1)
  }

  lemma {:induction false} ShiftLeft64Exact(x: U64, n: nat)
    requires Shift(x, n) < TWO_64
    ensures ShiftLeft64(x, n) == Shift(x, n)
    decreases n
  {
    if n > 0 {
      ShiftMonotone(2 * x, 2 * x, n - 1);
      ShiftLeft64Exact(2 * x, n - 1);
    }
  }

  /** Or of numbers without a common bit position is their sum. */
  lemma {:induction false} BitOrDisjoint(low: nat, high: nat, n: nat)
    requires low < Shift(1, n)
    ensures BitOr(low, Shift(high, n)) == low + Shift(high, n)
    decreases n
  {
    if n > 0 && low > 0 {
      ShiftLast(1, n);
      ShiftLast(high, n);
      BitOrDisjoint(low / 2, high, n - 1);
    }
  }

  /** Exclusive or of the `n` low bits. */
  function BitXor(a: nat, b: nat, n: nat): nat
    decreases n
  {
    if n == 0 then 0 else (if a % 2 != b % 2 then 1 else 0) + 2 * BitXor(a / 2, b / 2, n - 1)
  }

  lemma {:induction false} XorZeros(a: nat, n: nat)
    requires a < Shift(1, n)
    ensures BitXor(a, 0, n) == a
    decreases n
  {
    if n > 0 {
      ShiftLast(1, n);
      XorZeros(a / 2, n - 1);
    }
  }

  /** Exclusive or with ones is the complement. */
  lemma {:induction false} XorOnes(a: nat, n: nat)
    requires a < Shift(1, n)
    ensures BitXor(a, Shift(1, n) - 1, n) == Shift(1, n) - 1 - a
    decreases n
  {
    if n > 0 {
      ShiftLast(1, n);
      XorOnes(a / 2, n - 1);
      assert (Shift(1, n) - 1) / 2 == Shift(1, n - 1) - 1;
    }
  }

  lemma {:induction false} XorBelow(a: nat, b: nat, n: nat)
    ensures BitXor(a, b, n) < Shift(1, n)
    decreases n
  {
    if n > 0 {
      ShiftLast(1, n);
      XorBelow(a / 2, b / 2, n - 1);
    }
  }

  /** `a ^ b` in a 64-bit register. */
  function Xor64(a: U64, b: U64): U64 {
    XorBelow(a, b, 64);
    ShiftToTop();
    BitXor(a, b, 64)
  }

  lemma MaskIsComplement(a: U64)
    ensures Xor64(a, 0) == a && Xor64(a, TWO_64 - 1) == TWO_64 - 1 - a
  {
    ShiftToTop();
    XorZeros(a, 64);
    XorOnes(a, 64);
  }

  /** `static_cast<std::uint64_t>` */
  function Unsigned64(v: I64): U64 {
    if v < 0 then v + TWO_64 else v
  }

  /** `static_cast<std::int64_t>` */
  function Signed64(u: U64): I64 {
    if u < TWO_63 then u else u - TWO_64
  }

  // Digits of numbers

  /** A number in base 64. */
  lemma ThreeSixBitDigits(a: nat, b: nat, c: nat)
    requires b < 0x40 && c < 0x40
    ensures var v := (a * 0x40 + b) * 0x40 + c;
            v % 0x40 == c && v / 0x40 == a * 0x40 + b && v / 0x40 % 0x40 == b && v / 0x1000 == a
  {
  }

  lemma FourSixBitDigits(a: nat, b: nat, c: nat, d: nat)
    requires b < 0x40 && c < 0x40 && d < 0x40
    ensures var v := ((a * 0x40 + b) * 0x40 + c) * 0x40 + d;
            v / 0x40000 == a && v / 0x1000 % 0x40 == b && v / 0x40 % 0x40 == c && v % 0x40 == d
  {
    var u := (a * 0x40 + b) * 0x40 + c;
    ThreeSixBitDigits(a, b, c);
    ThreeSixBitDigits(a * 0x40 + b, c, d);
    assert (u * 0x40 + d) / 0x40000 == a;
  }

  /** A number in base 256. */
  lemma ThreeBytes(a: nat, b: nat, c: nat)
    requires a < 0x100 && b < 0x100 && c < 0x100
    ensures var v := (a * 0x100 + b) * 0x100 + c;
            v / 0x10000 % 0x100 == a && v / 0x100 % 0x100 == b && v % 0x100 == c
  {
    var v := (a * 0x100 + b) * 0x100 + c;
    assert v / 0x100 == a * 0x100 + b;
    assert v / 0x10000 == a;
  }
}
