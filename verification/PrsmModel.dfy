/** A PrSM binding module before it is checked: scalars, value types, callables. */
module PrsmModel {
  import opened Bytes
  import opened Decimals

  datatype Scalar =
    | Void
    | Boolean
    | Int8
    | Int16
    | Int32
    | Int64
    | UInt8
    | UInt16
    | UInt32
    | UInt64
    | Float32
    | Float64

  datatype Operation = Method | Getter | Setter | Owner

  datatype Effect = Read | Write

  datatype Receiver = Handle | Entity | Component

  datatype SourceKind = Header | NamedModule

  datatype Source = Source(kind: SourceKind, name: string)

  datatype NominalType = NominalType(cppName: string, scriptName: string, source: nat, receiver: Receiver)

  /** Offsets come from nonnegative 64-bit signed numbers. */
  type Offset = x: int | 0 <= x < TWO_63

  datatype ValueField = ValueField(name: string, scalar: Scalar, offset: Offset)

  datatype ValueCase = ValueCase(name: string, value: string)

  datatype ValueType = ValueType(
    cppName: string,
    scriptName: string,
    source: nat,
    isRecord: bool,
    size: U64,
    align: U64,
    fields: seq<ValueField>,
    underlying: Scalar,
    cases: seq<ValueCase>)

  datatype Callable = Callable(
    receiver: string,
    cppName: string,
    cppSignature: string,
    scriptName: string,
    symbol: string,
    operation: Operation,
    effect: Effect,
    result: Scalar,
    parameters: seq<Scalar>,
    isConst: bool,
    isNoexcept: bool,
    nativeResult: string,
    nativeParameters: seq<string>,
    handleResult: string,
    receiverKind: Receiver,
    resultValue: string,
    parameterValues: seq<string>)

  datatype Input = Input(
    name: string,
    triple: string,
    pointerWidth: nat,
    sources: seq<Source>,
    types: seq<NominalType>,
    values: seq<ValueType>,
    callables: seq<Callable>)

  function ScalarName(s: Scalar): string {
    match s
    case Void => "void"
    case Boolean => "bool"
    case Int8 => "int8"
    case Int16 => "int16"
    case Int32 => "int32"
    case Int64 => "int64"
    case UInt8 => "uint8"
    case UInt16 => "uint16"
    case UInt32 => "uint32"
    case UInt64 => "uint64"
    case Float32 => "float32"
    case Float64 => "float64"
  }

  lemma ScalarNamesDiffer(s: Scalar, t: Scalar)
    requires ScalarName(s) == ScalarName(t)
    ensures s == t
  {
  }

  function ScalarWidth(s: Scalar): nat {
    match s
    case Int8 | UInt8 | Boolean => 1
    case Int16 | UInt16 => 2
    case Int32 | UInt32 | Float32 => 4
    case Int64 | UInt64 | Float64 => 8
    case Void => 0
  }

  predicate IsSigned(s: Scalar) {
    s == Int8 || s == Int16 || s == Int32 || s == Int64
  }

  predicate IsNumeric(s: Scalar) {
    s != Void && s != Boolean
  }

  // Enumerators

  /** Two to the number of bits of the scalar. */
  function Span(s: Scalar): nat {
    match ScalarWidth(s)
    case 0 => 1
    case 1 => 0x100
    case 2 => 0x1_0000
    case 4 => 0x1_0000_0000
    case _ => TWO_64
  }

  predicate InRange(v: int, s: Scalar) {
    if IsSigned(s) then -(Span(s) as int) <= 2 * v < Span(s) else 0 <= v < Span(s)
  }

  function SignedText(v: int): string {
    if v < 0 then "-" + ToString(-v) else ToString(v)
  }

  /** The text of a number that the underlying type holds. */
  ghost predicate IsEnumerator(text: string, underlying: Scalar) {
    exists v: int :: InRange(v, underlying) && text == SignedText(v)
  }

  /** An optional sign and digits. */
  predicate IsNumeral(text: string) {
    IsCanonical(text) || (text != "" && text[0] == '-' && IsCanonical(text[1..]) && text[1..] != "0")
  }

  function NumeralValue(text: string): int
    requires IsNumeral(text)
  {
    if text[0] == '-' then -(ValueOf(text[1..]) as int) else ValueOf(text)
  }

  lemma NumeralOfSignedText(v: int)
    ensures IsNumeral(SignedText(v)) && NumeralValue(SignedText(v)) == v
  {
    ValueOfToString(if v < 0 then -v else v);
    ValueOfToString(0);
    assert ToString(0) == "0";
    if v < 0 {
      assert SignedText(v)[1..] == ToString(-v);
    }
  }

  lemma SignedTextOfNumeral(text: string)
    requires IsNumeral(text)
    ensures SignedText(NumeralValue(text)) == text
  {
    assert ToString(0) == "0";
    if text[0] == '-' {
      var digits := text[1..];
      ToStringOfValue(digits);
      assert text == "-" + digits;
    } else {
      ToStringOfValue(text);
    }
  }

  /** Accepted texts are canonical numerals in range. */
  lemma EnumeratorIsNumeral(text: string, underlying: Scalar)
    ensures IsEnumerator(text, underlying) <==> IsNumeral(text) && InRange(NumeralValue(text), underlying)
  {
    if IsEnumerator(text, underlying) {
      var v: int :| InRange(v, underlying) && text == SignedText(v);
      NumeralOfSignedText(v);
    }
    if IsNumeral(text) {
      SignedTextOfNumeral(text);
    }
  }

  function Power(n: nat): nat {
    if n == 0 then 1 else 10 * Power(n - 1)
  }

  lemma {:induction false} PowerGrows(m: nat, n: nat)
    requires m <= n
    ensures Power(m) <= Power(n)
    decreases n
  {
    if m < n {
      PowerGrows(m, n - 1);
    }
  }

  lemma {:induction false} ManyDigits(s: string)
    requires AllDigits(s) && s != "" && s[0] != '0'
    ensures ValueOf(s) >= Power(|s| - 1)
    decreases |s|
  {
    if |s| > 1 {
      ManyDigits(s[..|s| - 1]);
    } else {
      assert s[..0] == "";
    }
  }

  lemma TwentyOneDigits(s: string)
    requires AllDigits(s) && |s| > 20 && s[0] != '0'
    ensures ValueOf(s) >= TWO_64
  {
    ManyDigits(s);
    PowerGrows(20, |s| - 1);
    assert Power(5) == 100000;
    assert Power(10) == 10000000000;
    assert Power(15) == 1000000000000000;
    assert Power(20) == 100000000000000000000;
  }

  lemma {:induction false} ValueGrows(s: string, k: nat)
    requires AllDigits(s) && k <= |s|
    ensures ValueOf(s[..k]) <= ValueOf(s)
    decreases |s|
  {
    if k < |s| {
      var front := s[..|s| - 1];
      ValueGrows(front, k);
      assert front[..k] == s[..k];
    } else {
      assert s[..k] == s;
    }
  }

  /** The loop over the digits; it stops before the register would wrap. */
  method ScanDigits(digits: string) returns (r: Option<U64>)
    requires AllDigits(digits)
    ensures r == if ValueOf(digits) < TWO_64 then Some(ValueOf(digits)) else None
  {
    var magnitude: U64 := 0;
    for i := 0 to |digits|
      invariant magnitude == ValueOf(digits[..i])
    {
      var digit: U64 := digits[i] as nat - '0' as nat;
      assert digits[..i + 1][..i] == digits[..i];
      ValueGrows(digits, i + 1);
      if magnitude > (TWO_64 - 1 - digit) / 10 {
        return None;
      }
      magnitude := magnitude * 10 + digit;
    }
    assert digits[..|digits|] == digits;
    return Some(magnitude);
  }

  /** The scan with its 64-bit register: it accepts exactly the canonical decimals in range and never wraps. */
  method EnumeratorValue(text: string, underlying: Scalar) returns (accepted: bool)
    ensures accepted <==> IsEnumerator(text, underlying)
  {
    hide IsEnumerator, ValueOf;
    EnumeratorIsNumeral(text, underlying);
    var negative := text != "" && text[0] == '-';
    var digits := if negative then text[1..] else text;
    if digits == "" || (|digits| > 1 && digits[0] == '0') || (negative && digits == "0") || !AllDigits(digits) {
      return false;
    }
    if |digits| > 20 {
      TwentyOneDigits(digits);
      return false;
    }
    var isSigned := IsSigned(underlying);
    if negative && !isSigned {
      NegativeValue(digits);
      return false;
    }
    var scanned := ScanDigits(digits);
    if scanned.None? {
      return false;
    }
    var magnitude := scanned.value;
    if !isSigned {
      return ScalarWidth(underlying) == 8 || magnitude < Span(underlying);
    }
    var limit := Span(underlying) / 2;
    return if negative then magnitude <= limit else magnitude < limit;
  }

  lemma NegativeValue(digits: string)
    requires IsCanonical(digits) && digits != "0"
    ensures ValueOf(digits) > 0
  {
    if ValueOf(digits) == 0 {
      ToStringOfValue(digits);
    }
  }

  /** The number modulo two to the 64th, as `~magnitude + 1` makes it for a negative one. */
  function UnsignedImage(text: string): U64
    requires IsNumeral(text) && -TWO_63 <= NumeralValue(text) < TWO_64
  {
    if text[0] == '-' then
      var magnitude := ValueOf(text[1..]);
      (TWO_64 - 1 - magnitude + 1) % TWO_64
    else ValueOf(text)
  }

  /** Distinct accepted texts of one underlying type have distinct images, each congruent to its number. */
  lemma ImagesDiffer(a: string, b: string, underlying: Scalar)
    requires IsEnumerator(a, underlying) && IsEnumerator(b, underlying)
    ensures IsNumeral(a) && -TWO_63 <= NumeralValue(a) < TWO_64
    ensures IsNumeral(b) && -TWO_63 <= NumeralValue(b) < TWO_64
    ensures UnsignedImage(a) == NumeralValue(a) % TWO_64
    ensures UnsignedImage(a) == UnsignedImage(b) ==> a == b
  {
    hide IsEnumerator, SignedText, IsNumeral, NumeralValue, UnsignedImage;
    EnumeratorIsNumeral(a, underlying);
    EnumeratorIsNumeral(b, underlying);
    SignedTextOfNumeral(a);
    SignedTextOfNumeral(b);
    RangeFits(NumeralValue(a), underlying);
    RangeFits(NumeralValue(b), underlying);
    ImageIsCongruent(a);
    ImageIsCongruent(b);
    if UnsignedImage(a) == UnsignedImage(b) {
      CongruentInRange(NumeralValue(a), NumeralValue(b), underlying);
    }
  }

  lemma RangeFits(v: int, s: Scalar)
    requires InRange(v, s)
    ensures -TWO_63 <= v < TWO_64
  {
  }

  lemma ImageIsCongruent(text: string)
    requires IsNumeral(text) && -TWO_63 <= NumeralValue(text) < TWO_64
    ensures UnsignedImage(text) == NumeralValue(text) % TWO_64
  {
  }

  lemma CongruentInRange(x: int, y: int, s: Scalar)
    requires InRange(x, s) && InRange(y, s) && x % TWO_64 == y % TWO_64
    ensures x == y
  {
  }
}
