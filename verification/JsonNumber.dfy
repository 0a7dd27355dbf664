/** Numbers of JSON text (section 6 of RFC 8259): their grammar, the scanner, and decimal integers. */
module JsonNumber {
  import opened Bytes

  const MINUS: Byte := 0x2D
  const PLUS: Byte := 0x2B
  const DOT: Byte := 0x2E
  const ZERO: Byte := 0x30
  const NINE: Byte := 0x39
  const LOWER_E: Byte := 0x65
  const UPPER_E: Byte := 0x45

  predicate IsDigit(b: Byte) {
    ZERO <= b <= NINE
  }

  predicate AllDigits(s: seq<Byte>) {
    forall i :: 0 <= i < |s| ==> IsDigit(s[i])
  }

  predicate IsDigits(s: seq<Byte>) {
    s != [] && AllDigits(s)
  }

  datatype Exponent = Exponent(mark: Byte, sign: Option<Byte>, digits: seq<Byte>) {
    predicate Valid() {
      && (mark == LOWER_E || mark == UPPER_E)
      && (sign == None || sign == Some(PLUS) || sign == Some(MINUS))
      && IsDigits(digits)
    }

    function Text(): seq<Byte> {
      [mark] + (if sign.Some? then [sign.value] else []) + digits
    }
  }

  /** `-? (0 | [1-9][0-9]*) (\.[0-9]+)? ([eE][+-]?[0-9]+)?` */
  datatype Number = Number(minus: bool, whole: seq<Byte>, fraction: Option<seq<Byte>>, exponent: Option<Exponent>) {
    predicate Valid() {
      && IsDigits(whole) && (whole[0] == ZERO ==> |whole| == 1)
      && (fraction.Some? ==> IsDigits(fraction.value))
      && (exponent.Some? ==> exponent.value.Valid())
    }

    predicate IsInteger() {
      fraction.None? && exponent.None?
    }

    function Head(): seq<Byte> {
      (if minus then [MINUS] else []) + whole
    }

    function FractionText(): seq<Byte> {
      if fraction.Some? then [DOT] + fraction.value else []
    }

    function ExponentText(): seq<Byte> {
      if exponent.Some? then exponent.value.Text() else []
    }

    function Text(): seq<Byte> {
      Head() + FractionText() + ExponentText()
    }

    /** What the writer makes of the shortest text of a floating-point number: it adds `.0` to an integer. */
    function WithPoint(): (n: Number)
      ensures Valid() ==> n.Valid() && !n.IsInteger()
    {
      if IsInteger() then this.(fraction := Some([ZERO])) else this
    }

    function IntegerValue(): int {
      if minus then -DecimalValue(whole) else DecimalValue(whole)
    }
  }

  /** A floating-point number, kept as its text: it shows that it is not an integer. */
  type FloatText = n: Number | n.Valid() && !n.IsInteger() witness Number(false, [ZERO], Some([ZERO]), None)

  // Scanning

  /** The byte at `pos`, and NUL at the end of the input. */
  function Current(input: seq<Byte>, pos: nat): Byte {
    if pos < |input| then input[pos] else 0
  }

  /** The digits from `pos` on. */
  function TakeDigits(input: seq<Byte>, pos: nat): (digits: seq<Byte>)
    ensures AllDigits(digits)
    ensures pos <= |input| ==> pos + |digits| <= |input|
    ensures IsDigit(Current(input, pos)) ==> digits != [] && digits[0] == input[pos]
    decreases |input| - pos
  {
    if !IsDigit(Current(input, pos)) then [] else [input[pos]] + TakeDigits(input, pos + 1)
  }

  /** The digits before the point; a leading zero stands alone. */
  function ScanWhole(input: seq<Byte>, pos: nat): (r: Option<seq<Byte>>)
    ensures r.Some? ==> IsDigits(r.value) && (r.value[0] == ZERO ==> |r.value| == 1) && pos + |r.value| <= |input|
  {
    if Current(input, pos) == ZERO then Some([ZERO])
    else if IsDigit(Current(input, pos)) then Some(TakeDigits(input, pos))
    else None
  }

  function ScanFraction(input: seq<Byte>, pos: nat): (r: Option<Option<seq<Byte>>>)
    ensures r.Some? && r.value.Some? ==> IsDigits(r.value.value) && pos + 1 + |r.value.value| <= |input|
  {
    if Current(input, pos) != DOT then Some(None)
    else if !IsDigit(Current(input, pos + 1)) then None
    else Some(Some(TakeDigits(input, pos + 1)))
  }

  function ScanExponent(input: seq<Byte>, pos: nat): (r: Option<Option<Exponent>>)
    ensures r.Some? && r.value.Some? ==> r.value.value.Valid() && pos + |r.value.value.Text()| <= |input|
  {
    var mark := Current(input, pos);
    if mark != LOWER_E && mark != UPPER_E then Some(None)
    else
      var signed := Current(input, pos + 1) == PLUS || Current(input, pos + 1) == MINUS;
      var start := if signed then pos + 2 else pos + 1;
      if !IsDigit(Current(input, start)) then None
      else
        Some(Some(Exponent(mark, if signed then Some(Current(input, pos + 1)) else None, TakeDigits(input, start))))
  }

  /** The number at `pos`, if there is one; it ends after its text. */
  function ScanNumber(input: seq<Byte>, pos: nat): (r: Option<Number>)
    ensures r.Some? ==> r.value.Valid() && pos + |r.value.Text()| <= |input|
  {
    var minus := Current(input, pos) == MINUS;
    var start := if minus then pos + 1 else pos;
    match ScanWhole(input, start)
    case None => None
    case Some(whole) =>
      match ScanFraction(input, start + |whole|)
      case None => None
      case Some(fraction) =>
        match ScanExponent(input, start + |whole| + (if fraction.Some? then 1 + |fraction.value| else 0))
        case None => None
        case Some(exponent) => Some(Number(minus, whole, fraction, exponent))
  }

  lemma TextLength(n: Number)
    ensures |n.Text()|
         == (if n.minus then 1 else 0) + |n.whole| + (if n.fraction.Some? then 1 + |n.fraction.value| else 0)
            + (if n.exponent.Some? then |n.exponent.value.Text()| else 0)
  {
  }

  // The scanner recognises exactly the grammar

  lemma {:induction false} DigitsAt(input: seq<Byte>, pos: nat, digits: seq<Byte>)
    requires AllDigits(digits) && At(input, pos, digits)
    requires !IsDigit(Current(input, pos + |digits|))
    ensures TakeDigits(input, pos) == digits
    decreases |digits|
  {
    if digits != [] {
      AtConcat(input, pos, [digits[0]], digits[1..]);
      AtByte(input, pos, digits[0]);
      assert [digits[0]] + digits[1..] == digits;
      DigitsAt(input, pos + 1, digits[1..]);
    }
  }

  lemma {:induction false} AtDigits(input: seq<Byte>, pos: nat)
    requires pos <= |input|
    ensures At(input, pos, TakeDigits(input, pos))
    ensures !IsDigit(Current(input, pos + |TakeDigits(input, pos)|))
    decreases |input| - pos
  {
    if IsDigit(Current(input, pos)) {
      AtDigits(input, pos + 1);
      AtByte(input, pos, input[pos]);
      AtConcat(input, pos, [input[pos]], TakeDigits(input, pos + 1));
    }
  }

  /** A byte that may follow a number without being taken for part of it. */
  predicate EndsNumber(b: Byte) {
    !IsDigit(b) && b != DOT && b != LOWER_E && b != UPPER_E
  }

  lemma ScanWholeOf(input: seq<Byte>, pos: nat, whole: seq<Byte>)
    requires IsDigits(whole) && (whole[0] == ZERO ==> |whole| == 1)
    requires At(input, pos, whole) && !IsDigit(Current(input, pos + |whole|))
    ensures ScanWhole(input, pos) == Some(whole)
  {
    assert input[pos + 0] == whole[0];
    if whole[0] == ZERO {
      assert whole == [ZERO];
    } else {
      DigitsAt(input, pos, whole);
    }
  }

  lemma ScanFractionOf(input: seq<Byte>, pos: nat, n: Number)
    requires n.Valid() && At(input, pos, n.FractionText())
    requires var next := Current(input, pos + |n.FractionText()|); !IsDigit(next) && next != DOT
    ensures ScanFraction(input, pos) == Some(n.fraction)
  {
    if n.fraction.Some? {
      AtConcat(input, pos, [DOT], n.fraction.value);
      AtByte(input, pos, DOT);
      assert input[pos + 1 + 0] == n.fraction.value[0];
      DigitsAt(input, pos + 1, n.fraction.value);
    }
  }

  lemma ScanExponentOf(input: seq<Byte>, pos: nat, n: Number)
    requires n.Valid() && At(input, pos, n.ExponentText())
    requires EndsNumber(Current(input, pos + |n.ExponentText()|))
    ensures ScanExponent(input, pos) == Some(n.exponent)
  {
    if n.exponent.Some? {
      var e := n.exponent.value;
      var sign := if e.sign.Some? then [e.sign.value] else [];
      AtConcat(input, pos, [e.mark] + sign, e.digits);
      AtConcat(input, pos, [e.mark], sign);
      AtByte(input, pos, e.mark);
      if e.sign.Some? {
        AtByte(input, pos + 1, e.sign.value);
      }
      var start := pos + 1 + |sign|;
      assert input[start + 0] == e.digits[0];
      DigitsAt(input, start, e.digits);
    }
  }

  lemma FirstOfExponent(input: seq<Byte>, pos: nat, n: Number)
    requires n.Valid() && At(input, pos, n.ExponentText())
    requires EndsNumber(Current(input, pos + |n.ExponentText()|))
    ensures !IsDigit(Current(input, pos)) && Current(input, pos) != DOT
  {
    if n.exponent.Some? {
      assert n.ExponentText()[0] == n.exponent.value.mark;
      assert input[pos + 0] == n.ExponentText()[0];
    }
  }

  lemma FirstOfFraction(input: seq<Byte>, pos: nat, n: Number)
    requires n.Valid() && At(input, pos, n.FractionText())
    requires !IsDigit(Current(input, pos + |n.FractionText()|))
    ensures !IsDigit(Current(input, pos))
  {
    if n.fraction.Some? {
      assert input[pos + 0] == n.FractionText()[0];
    }
  }

  /** A number is spelled at `pos` when each of its parts is spelled where the part before it ends. */
  ghost predicate PartsAt(input: seq<Byte>, pos: nat, n: Number) {
    var start := pos + (if n.minus then 1 else 0);
    var middle := start + |n.whole|;
    && (n.minus ==> At(input, pos, [MINUS]))
    && At(input, start, n.whole)
    && At(input, middle, n.FractionText())
    && At(input, middle + |n.FractionText()|, n.ExponentText())
  }

  lemma TextInParts(input: seq<Byte>, pos: nat, n: Number)
    ensures At(input, pos, n.Text()) <==> pos + |n.Text()| <= |input| && PartsAt(input, pos, n)
  {
    AtConcat(input, pos, n.Head() + n.FractionText(), n.ExponentText());
    AtConcat(input, pos, n.Head(), n.FractionText());
    AtConcat(input, pos, if n.minus then [MINUS] else [], n.whole);
  }

  /** Scanning where a number was written gives the number, if what follows cannot be part of it. */
  lemma ScanOfText(input: seq<Byte>, pos: nat, n: Number)
    requires n.Valid() && At(input, pos, n.Text())
    requires EndsNumber(Current(input, pos + |n.Text()|))
    ensures ScanNumber(input, pos) == Some(n)
  {
    TextInParts(input, pos, n);
    ScanOfParts(input, pos, n);
  }

  lemma ScanOfParts(input: seq<Byte>, pos: nat, n: Number)
    requires n.Valid() && PartsAt(input, pos, n)
    requires EndsNumber(Current(input, pos + |n.Text()|))
    ensures ScanNumber(input, pos) == Some(n)
  {
    var start := pos + (if n.minus then 1 else 0);
    var middle := start + |n.whole|;
    var last := middle + |n.FractionText()|;
    assert pos + |n.Text()| == last + |n.ExponentText()|;
    FirstOfExponent(input, last, n);
    FirstOfFraction(input, middle, n);
    SignOf(input, pos, n);
    ScanWholeOf(input, start, n.whole);
    ScanFractionOf(input, middle, n);
    ScanExponentOf(input, last, n);
    ScanNumberOf(input, pos, n);
  }

  lemma SignOf(input: seq<Byte>, pos: nat, n: Number)
    requires n.Valid() && PartsAt(input, pos, n)
    ensures Current(input, pos) == MINUS <==> n.minus
  {
    if n.minus {
      AtByte(input, pos, MINUS);
    } else {
      assert input[pos + 0] == n.whole[0];
    }
  }

  lemma ScanNumberOf(input: seq<Byte>, pos: nat, n: Number)
    requires Current(input, pos) == MINUS <==> n.minus
    requires var start := pos + (if n.minus then 1 else 0);
             var middle := start + |n.whole|;
             && ScanWhole(input, start) == Some(n.whole)
             && ScanFraction(input, middle) == Some(n.fraction)
             && ScanExponent(input, middle + |n.FractionText()|) == Some(n.exponent)
    ensures ScanNumber(input, pos) == Some(n)
  {
    hide ScanWhole, ScanFraction, ScanExponent, Exponent.Text;
  }

  /** A scanned number is spelled at `pos`. */
  lemma TextOfScan(input: seq<Byte>, pos: nat)
    requires pos <= |input| && ScanNumber(input, pos).Some?
    ensures At(input, pos, ScanNumber(input, pos).value.Text())
  {
    var n := ScanNumber(input, pos).value;
    PartsOfScan(input, pos, n);
    TextInParts(input, pos, n);
  }

  /** The converse of `ScanNumberOf`. */
  lemma ScannedParts(input: seq<Byte>, pos: nat, n: Number)
    requires ScanNumber(input, pos) == Some(n)
    ensures Current(input, pos) == MINUS <==> n.minus
    ensures var start := pos + (if n.minus then 1 else 0);
            var middle := start + |n.whole|;
            && ScanWhole(input, start) == Some(n.whole)
            && ScanFraction(input, middle) == Some(n.fraction)
            && ScanExponent(input, middle + |n.FractionText()|) == Some(n.exponent)
  {
    hide ScanWhole, ScanFraction, ScanExponent, Exponent.Text;
  }

  lemma PartsOfScan(input: seq<Byte>, pos: nat, n: Number)
    requires ScanNumber(input, pos) == Some(n) && pos + |n.Text()| <= |input|
    ensures PartsAt(input, pos, n)
  {
    hide ScanNumber, ScanWhole, ScanFraction, ScanExponent, Exponent.Text, Number.FractionText, At;
    ScannedParts(input, pos, n);
    TextLength(n);
    var start := pos + (if n.minus then 1 else 0);
    var middle := start + |n.whole|;
    if n.minus {
      AtByte(input, pos, MINUS);
    }
    WholeAt(input, start, n.whole);
    FractionAt(input, middle, n);
    ExponentAt(input, middle + |n.FractionText()|, n);
  }

  lemma WholeAt(input: seq<Byte>, pos: nat, whole: seq<Byte>)
    requires pos <= |input| && ScanWhole(input, pos) == Some(whole)
    ensures At(input, pos, whole)
  {
    AtByte(input, pos, ZERO);
    AtDigits(input, pos);
  }

  lemma FractionAt(input: seq<Byte>, pos: nat, n: Number)
    requires pos <= |input| && ScanFraction(input, pos) == Some(n.fraction)
    ensures At(input, pos, n.FractionText())
  {
    if n.fraction.Some? {
      AtByte(input, pos, DOT);
      AtDigits(input, pos + 1);
      AtConcat(input, pos, [DOT], n.fraction.value);
    }
  }

  lemma ExponentAt(input: seq<Byte>, pos: nat, n: Number)
    requires pos <= |input| && ScanExponent(input, pos) == Some(n.exponent)
    ensures At(input, pos, n.ExponentText())
  {
    if n.exponent.Some? {
      var e := n.exponent.value;
      var sign := if e.sign.Some? then [e.sign.value] else [];
      AtByte(input, pos, e.mark);
      if e.sign.Some? {
        AtByte(input, pos + 1, e.sign.value);
      }
      AtDigits(input, pos + 1 + |sign|);
      AtConcat(input, pos, [e.mark], sign);
      AtConcat(input, pos, [e.mark] + sign, e.digits);
    }
  }

  // Integers

  function Decimal(v: nat): (digits: seq<Byte>)
    ensures IsDigits(digits)
    ensures digits[0] == ZERO ==> |digits| == 1
    ensures v > 0 ==> digits[0] != ZERO
  {
    if v < 10 then [ZERO + v] else Decimal(v / 10) + [ZERO + v % 10]
  }

  function DecimalValue(digits: seq<Byte>): int {
    if digits == [] then 0
    else 10 * DecimalValue(digits[..|digits| - 1]) + (digits[|digits| - 1] - ZERO)
  }

  lemma {:induction false} ValueOfDecimal(v: nat)
    ensures DecimalValue(Decimal(v)) == v
  {
    if v < 10 {
      assert [ZERO + v][..0] == [];
    } else {
      ValueOfDecimal(v / 10);
      assert Decimal(v)[..|Decimal(v)| - 1] == Decimal(v / 10);
    }
  }

  /** The text of an integer, as a number. */
  function IntegerNumber(v: int): (n: Number)
    ensures n.Valid() && n.IsInteger()
  {
    Number(v < 0, Decimal(if v < 0 then -v else v), None, None)
  }

  lemma ValueOfIntegerNumber(v: int)
    ensures IntegerNumber(v).IntegerValue() == v
  {
    ValueOfDecimal(if v < 0 then -v else v);
  }
}
