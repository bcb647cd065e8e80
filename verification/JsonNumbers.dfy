// What parse_number of packages/cJSON-v1.0.2/cJSON.c makes of a number in the
// grammar of section 6 of RFC 8259: its digits as an integer, and where the
// point and the exponent put the decimal place.
module JsonNumbers {
  import opened Bytes
  import opened JsonPrint
  import opened JsonParse
  import opened JsonRoundTrip

  // The number that decimal digits spell
  function Decimal(s: seq<byte>): nat
    requires AllDigits(s)
  {
    if s == [] then 0 else Decimal(s[..|s| - 1]) * 10 + (s[|s| - 1] - '0' as int)
  }

  predicate AllDigits(s: seq<byte>) {
    forall i :: 0 <= i < |s| ==> '0' as int <= s[i] <= '9' as int
  }

  // A number as it is written: sign, integer part, digits behind the point, and the exponent
  datatype Written = Written(
    negative: bool, whole: seq<byte>, fraction: seq<byte>, exponent: Option<Power>)

  datatype Power = Power(mark: byte, sign: seq<byte>, digits: seq<byte>)

  predicate WellWritten(w: Written) {
    && AllDigits(w.whole) && w.whole != [] && (w.whole[0] == '0' as int ==> |w.whole| == 1) && AllDigits(w.fraction)
    && match w.exponent
       case None => true
       case Some(p) =>
         && (p.mark == 'e' as int || p.mark == 'E' as int) && AllDigits(p.digits) && p.digits != []
         && (p.sign == [] || p.sign == ['+' as int] || p.sign == ['-' as int])
  }

  function PowerText(e: Option<Power>): seq<byte> {
    match e case None => [] case Some(p) => [p.mark] + p.sign + p.digits
  }

  function FractionText(fraction: seq<byte>): seq<byte> {
    if fraction == [] then [] else ['.' as int] + fraction
  }

  function Numeral(w: Written): seq<byte> {
    (if w.negative then ['-' as int] else []) + w.whole + FractionText(w.fraction) + PowerText(w.exponent)
  }

  function PowerValue(e: Option<Power>): int
    requires e.Some? ==> AllDigits(e.value.digits)
  {
    match e
    case None => 0
    case Some(p) => if p.sign == ['-' as int] then 0 - Decimal(p.digits) as int else Decimal(p.digits)
  }

  // Nothing in c could belong to a number.
  predicate Ends(c: byte) {
    !('0' as int <= c <= '9' as int) && c != '.' as int && c != 'e' as int && c != 'E' as int
  }

  // ----------------------------------------------------------- its parts

  lemma DecimalMore(a: seq<byte>, d: byte)
    requires AllDigits(a) && '0' as int <= d <= '9' as int
    ensures AllDigits(a + [d]) && Decimal(a + [d]) == Decimal(a) * 10 + (d - '0' as int)
  {
    assert (a + [d])[..|a|] == a;
  }

  // Digits s are read onto those of a.
  lemma {:induction false} DigitsRead(t: seq<byte>, i: nat, a: seq<byte>, s: seq<byte>)
    requires AllDigits(a) && AllDigits(s) && StartsWith(t, i, s) && !IsDigit(At(t, i + |s|))
    ensures AllDigits(a + s) && ReadDigits(t, i, Decimal(a)) == Parsed(Decimal(a + s), i + |s|)
    decreases |s|
  {
    hide Decimal;
    if s == [] {
      assert a + s == a;
    } else {
      DecimalMore(a, s[0]);
      assert t[i] == s[0];
      assert forall k :: 0 <= k < |s| - 1 ==> s[1..][k] == s[k + 1];
      DigitsRead(t, i + 1, a + [s[0]], s[1..]);
      assert a + [s[0]] + s[1..] == a + s;
    }
  }

  lemma NoDigits()
    ensures AllDigits([]) && Decimal([]) == 0
  {}

  lemma PowerRead(t: seq<byte>, i: nat, e: Option<Power>)
    requires WellWritten(Written(false, ['0' as int], [], e)) && StartsWith(t, i, PowerText(e))
    requires Ends(At(t, i + |PowerText(e)|))
    ensures ParseExponent(t, i) == Parsed(PowerValue(e), i + |PowerText(e)|)
  {
    hide Decimal, ReadDigits;
    NoDigits();
    match e
    case None =>
    case Some(p) =>
      var from := i + 1 + |p.sign|;
      Splits(t, i, [p.mark] + p.sign, p.digits);
      Splits(t, i, [p.mark], p.sign);
      DigitsRead(t, from, [], p.digits);
      assert [] + p.digits == p.digits;
      assert t[i] == p.mark && t[from] == p.digits[0];
      if p.sign != [] {
        assert t[i + 1] == p.sign[0];
      }
  }

  // The integer part
  lemma WholeRead(t: seq<byte>, i: nat, whole: seq<byte>)
    requires WellWritten(Written(false, whole, [], None)) && StartsWith(t, i, whole) && !IsDigit(At(t, i + |whole|))
    ensures var i2 := if At(t, i) == DIGIT_0 then i + 1 else i;
            (if IsDigit(At(t, i2)) && At(t, i2) != DIGIT_0 then ReadDigits(t, i2, 0) else Parsed(0, i2))
            == Parsed(Decimal(whole), i + |whole|)
    ensures IsDigit(At(t, i))
  {
    NoDigits();
    assert t[i] == whole[0];
    if whole[0] == '0' as int {
      assert whole == [] + [whole[0]];
      DecimalMore([], whole[0]);
    } else {
      DigitsRead(t, i, [], whole);
      assert [] + whole == whole;
    }
  }

  // The fraction, read onto the integer part
  lemma FractionRead(t: seq<byte>, i: nat, whole: seq<byte>, fraction: seq<byte>)
    requires AllDigits(whole) && AllDigits(fraction) && StartsWith(t, i, FractionText(fraction))
    requires !IsDigit(At(t, i + |FractionText(fraction)|)) && (fraction == [] ==> At(t, i) != DOT)
    ensures AllDigits(whole + fraction)
    ensures (if At(t, i) == DOT && IsDigit(At(t, i + 1)) then ReadDigits(t, i + 1, Decimal(whole))
             else Parsed(Decimal(whole), i))
            == Parsed(Decimal(whole + fraction), i + |FractionText(fraction)|)
  {
    hide Decimal, ReadDigits;
    if fraction == [] {
      assert whole + fraction == whole;
    } else {
      Splits(t, i, ['.' as int], fraction);
      assert t[i] == ['.' as int][0] && t[i + 1] == fraction[0];
      DigitsRead(t, i + 1, whole, fraction);
    }
  }

  // Its value is the digits of both parts as one integer, times ten to the exponent less the
  // number of digits behind the point.
  lemma NumberRead(t: seq<byte>, i: nat, w: Written)
    requires WellWritten(w) && StartsWith(t, i, Numeral(w)) && Ends(At(t, i + |Numeral(w)|))
    ensures AllDigits(w.whole + w.fraction)
    ensures var n := Decimal(w.whole + w.fraction);
            ParseNumber(t, i) ==
            Parsed(Number(if w.negative then 0 - n as int else n, PowerValue(w.exponent) - |w.fraction|),
                   i + |Numeral(w)|)
  {
    hide Decimal, ReadDigits, ParseExponent, PowerText, FractionText, PowerValue, StartsWith, At, IsDigit;
    var sign: seq<byte> := if w.negative then ['-' as int] else [];
    var i1 := i + |sign|;
    var i2 := i1 + |w.whole|;
    var i3 := i2 + |FractionText(w.fraction)|;
    Splits(t, i, sign + w.whole + FractionText(w.fraction), PowerText(w.exponent));
    Splits(t, i, sign + w.whole, FractionText(w.fraction));
    Splits(t, i, sign, w.whole);
    PowerStart(t, i3, w.exponent);
    PowerRead(t, i3, w.exponent);
    FractionStart(t, i2, w.fraction);
    FractionRead(t, i2, w.whole, w.fraction);
    WholeRead(t, i1, w.whole);
    SignRead(t, i, w.negative);
  }

  lemma SignRead(t: seq<byte>, i: nat, negative: bool)
    requires StartsWith(t, i, if negative then ['-' as int] else [])
    requires !negative ==> IsDigit(At(t, i))
    ensures At(t, i) == MINUS <==> negative
  {
    if negative {
      assert t[i] == ['-' as int][0];
    }
  }

  lemma FractionStart(t: seq<byte>, i: nat, fraction: seq<byte>)
    requires AllDigits(fraction) && StartsWith(t, i, FractionText(fraction))
    requires !IsDigit(At(t, i + |FractionText(fraction)|)) && At(t, i + |FractionText(fraction)|) != DOT
    ensures !IsDigit(At(t, i)) && (fraction == [] ==> At(t, i) != DOT)
    ensures |FractionText(fraction)| == if fraction == [] then 0 else |fraction| + 1
  {
    if fraction != [] {
      assert t[i] == FractionText(fraction)[0];
    }
  }

  // What stands where the exponent would start is no digit, and no point.
  lemma PowerStart(t: seq<byte>, i: nat, e: Option<Power>)
    requires WellWritten(Written(false, ['0' as int], [], e)) && StartsWith(t, i, PowerText(e))
    requires Ends(At(t, i + |PowerText(e)|))
    ensures !IsDigit(At(t, i)) && At(t, i) != DOT
  {
    if e.Some? {
      assert t[i] == PowerText(e)[0];
    }
  }
}
