/** Numbers by their grammar (section 6 of RFC 8259), and what the decoder makes of them. */
module Numerals {
  import opened Bytes
  import opened Integers
  import opened Values
  import opened Parsing
  import opened RoundTrip

  /** The parts of a number (section 6 of RFC 8259). */
  datatype Numeral = Numeral(minus: bool, whole: Text, fraction: Option<Text>, exponent: Option<Exponent>)

  datatype Exponent = Exponent(upper: bool, sign: Option<byte>, digits: Text)

  predicate IsDigits(t: Text) {
    t != [] && forall i | 0 <= i < |t| :: 0x30 <= t[i] <= 0x39
  }

  predicate NumeralOk(n: Numeral) {
    && IsDigits(n.whole) && (n.whole[0] == 0x30 ==> |n.whole| == 1)
    && (n.fraction.Some? ==> IsDigits(n.fraction.value))
    && (n.exponent.Some? ==> ExponentOk(n.exponent.value))
  }

  predicate ExponentOk(e: Exponent) {
    IsDigits(e.digits) && (e.sign.Some? ==> e.sign.value == 0x2B || e.sign.value == 0x2D)
  }

  function FractionText(n: Numeral): Text {
    if n.fraction.Some? then [0x2E] + n.fraction.value else []
  }

  function ExponentText(n: Numeral): Text {
    match n.exponent
    case None => []
    case Some(e) => [if e.upper then 0x45 else 0x65] + (if e.sign.Some? then [e.sign.value] else []) + e.digits
  }

  function IntegerText(n: Numeral): Text {
    (if n.minus then [0x2D] else []) + n.whole
  }

  function NumeralText(n: Numeral): Text {
    IntegerText(n) + FractionText(n) + ExponentText(n)
  }

  ghost predicate IsNumeral(t: Text) {
    exists n :: NumeralOk(n) && NumeralText(n) == t
  }

  lemma PartHeads(n: Numeral)
    requires NumeralOk(n)
    ensures IntegerText(n) != [] && StartsNumber(IntegerText(n)[0])
    ensures FractionText(n) != [] ==> FractionText(n)[0] == DOT
    ensures ExponentText(n) != [] ==> ExponentText(n)[0] == 0x65 || ExponentText(n)[0] == 0x45
  {
  }

  lemma FirstByte(b: Text, p: nat, t: Text)
    requires Has(b, p, t)
    ensures t != [] ==> p < |b| && b[p] == t[0]
  {
  }

  /** The bytes numbers are made of. */
  predicate OfNumber(b: byte) {
    0x30 <= b <= 0x39 || b == 0x2B || b == 0x2D || b == 0x2E || b == 0x65 || b == 0x45
  }

  lemma NumeralBytes(n: Numeral)
    requires NumeralOk(n)
    ensures forall i | 0 <= i < |NumeralText(n)| :: OfNumber(NumeralText(n)[i])
    ensures IsInteger(NumeralText(n)) <==> n.fraction.None? && n.exponent.None?
  {
    var x, y, z := IntegerText(n), FractionText(n), ExponentText(n);
    PartHeads(n);
    assert forall i | 0 <= i < |x| :: OfNumber(x[i]) && x[i] != DOT && x[i] != 0x65 && x[i] != 0x45;
    assert forall i | 0 <= i < |y| :: OfNumber(y[i]);
    assert forall i | 0 <= i < |z| :: OfNumber(z[i]);
    var t := NumeralText(n);
    if y != [] {
      assert t[|x|] == y[0];
    } else if z != [] {
      assert t[|x|] == z[0];
    }
  }

  /** What the decoder makes of a number, with the whole of its text, under every option: its text
      under UseNumber; otherwise an integer when it has neither fraction nor exponent and fits, and
      else what the library parses, which becomes an integer only under UseInt64 and only when it
      survives the conversion. */
  lemma NumeralIsRead(data: Text, pos: nat, depth: nat, opt: Options, n: Numeral)
    requires NumeralOk(n) && Has(data, pos, NumeralText(n))
    requires pos + |NumeralText(n)| < |data| ==> !OfNumber(data[pos + |NumeralText(n)|])
    ensures var t, end := NumeralText(n), pos + |NumeralText(n)|;
            ParseValue(data, pos, depth, opt) ==
            if opt.useNumber then Ok(Num(t), end)
            else if n.fraction.None? && n.exponent.None? then
              match ParseInt(t)
              case None => Fail(InvalidNumber)
              case Some(i) => Ok(Int(i), end)
            else
              match opt.floats.parse(t)
              case NoFloat => Fail(InvalidNumber)
              case Fraction => Ok(Num(t), end)
              case Whole(i) => if opt.floats.useInt64 then Ok(Int(i), end) else Ok(Num(t), end)
  {
    hide NumeralText, NumeralOk, Has, ParseInt, NumberEnd, IsInteger;
    var t := NumeralText(n);
    NumeralBytes(n);
    NumeralHead(n);
    FirstByte(data, pos, t);
    NumberToken(data, pos, t);
    NumberValue(data, pos, depth, opt);
  }

  lemma NumeralHead(n: Numeral)
    requires NumeralOk(n)
    ensures NumeralText(n) != [] && StartsNumber(NumeralText(n)[0])
  {
    PartHeads(n);
  }

  lemma NumberValue(data: Text, pos: nat, depth: nat, opt: Options)
    requires pos < |data| && StartsNumber(data[pos])
    ensures ParseValue(data, pos, depth, opt) == ParseNumber(data, pos, opt)
  {
    hide ParseNumber, ParseObject, ParseArray;
    assert SkipSpace(data, pos) == pos;
  }

  /** Printed integers are numbers of the grammar. */
  lemma DecimalIsNumeral(i: int)
    ensures IsNumeral(Decimal(i))
  {
    var n := if i < 0 then -i else i;
    DigitsValue(n);
    var m := Numeral(i < 0, Digits(n), None, None);
    assert n == 0 ==> Digits(n) == [ZERO];
    assert NumeralOk(m) by {
      if n == 0 {
        assert Digits(0) == [ZERO];
      }
    }
    assert NumeralText(m) == Decimal(i);
  }
}
