/** Integer formatting and parsing: the reverse-fill-and-shift formatters and the
    small-integer table of the encoder, and the integer parser the decoder calls. */
module Integers {
  import opened Bytes

  const MIN_INT64: int := -0x8000_0000_0000_0000
  const MAX_INT64: int := 0x7FFF_FFFF_FFFF_FFFF
  const MAX_UINT64: int := 0xFFFF_FFFF_FFFF_FFFF

  /** The decimal digits of `n`, without leading zeros. */
  function Digits(n: nat): (t: Text)
    ensures |t| > 0 && forall i | 0 <= i < |t| :: IsDigit(t[i])
  {
    if n < 10 then [(0x30 + n) as byte] else Digits(n / 10) + [(0x30 + n % 10) as byte]
  }

  /** Canonical decimal text of an integer; what the vector library's FormatInt64 produces. */
  function Decimal(i: int): (t: Text)
    ensures |t| > 0 && (t[0] == MINUS || IsDigit(t[0]))
    ensures forall k | 0 < k < |t| :: IsDigit(t[k])
  {
    if i < 0 then [MINUS] + Digits(-i) else Digits(i)
  }

  predicate AllDigits(t: Text) {
    forall i | 0 <= i < |t| :: IsDigit(t[i])
  }

  /** Positional value of a digit string. */
  function Value(t: Text): nat
    requires AllDigits(t)
  {
    if t == [] then 0 else Value(t[..|t| - 1]) * 10 + (t[|t| - 1] as int - 0x30)
  }

  /** RFC 8259 section 6, integer part: no leading zero unless the text is "0". */
  predicate CanonicalDigits(t: Text) {
    AllDigits(t) && |t| > 0 && (t[0] == ZERO ==> |t| == 1)
  }

  lemma {:induction false} DigitsValue(n: nat)
    ensures CanonicalDigits(Digits(n)) && Value(Digits(n)) == n
    ensures n > 0 ==> Digits(n)[0] != ZERO
  {
    if n >= 10 {
      DigitsValue(n / 10);
      var t := Digits(n);
      assert t[..|t| - 1] == Digits(n / 10);
    } else {
      assert Digits(n)[..0] == [];
    }
  }

  lemma {:induction false} CanonicalPositive(t: Text)
    requires CanonicalDigits(t) && t[0] != ZERO
    ensures Value(t) > 0
  {
    if |t| > 1 {
      CanonicalPositive(t[..|t| - 1]);
    }
  }

  /** The canonical text of a natural number is unique. */
  lemma {:induction false} CanonicalUnique(t: Text)
    requires CanonicalDigits(t)
    ensures t == Digits(Value(t))
  {
    if |t| == 1 {
      assert t[..0] == [];
    } else {
      var front := t[..|t| - 1];
      CanonicalPositive(front);
      CanonicalUnique(front);
      assert Value(t) / 10 == Value(front) && Value(t) % 10 == t[|t| - 1] as int - 0x30;
      assert t == front + [t[|t| - 1]];
    }
  }

  /** The vector library's ParseIntSIMD: an optional minus, at least one digit, and a value
      that fits 64 bits; anything else is an error. */
  function ParseInt(t: Text): Option<int> {
    var neg := |t| > 0 && t[0] == MINUS;
    var digits := if neg then t[1..] else t;
    if digits == [] || !AllDigits(digits) then None
    else
      var i: int := if neg then -(Value(digits) as int) else Value(digits);
      if MIN_INT64 <= i <= MAX_INT64 then Some(i) else None
  }

  /** Parsing undoes formatting on every 64-bit integer, and refuses the text of any other. */
  lemma ParseDecimal(i: int)
    ensures ParseInt(Decimal(i)) == if -0x8000_0000_0000_0000 <= i <= 0x7FFF_FFFF_FFFF_FFFF then Some(i) else None
  {
    if i < 0 {
      DigitsValue(-i);
      assert Decimal(i)[1..] == Digits(-i);
    } else {
      DigitsValue(i);
      assert Digits(i)[0] != MINUS;
    }
  }

  /** Formatting is injective: two integers never share a text. */
  lemma DecimalInjective(i: int, j: int)
    requires Decimal(i) == Decimal(j)
    ensures i == j
  {
    DigitsValue(if i < 0 then -i else i);
    DigitsValue(if j < 0 then -j else j);
    if i < 0 && j < 0 {
      assert Decimal(i)[1..] == Digits(-i) && Decimal(j)[1..] == Digits(-j);
    }
  }

  function Pow10(k: nat): nat {
    if k == 0 then 1 else 10 * Pow10(k - 1)
  }

  /** The formatter loop for unsigned integers: fill from the back, then shift to the front. */
  method FormatUint64Fast(u: int, buf: array<byte>) returns (n: nat)
    requires 0 <= u <= MAX_UINT64
    requires buf.Length == 20
    modifies buf
    ensures n <= buf.Length && buf[..n] == Decimal(u)
  {
    if u == 0 {
      buf[0] := ZERO;
      return 1;
    }
    var pos := FillDigits(u, buf);
    n := Shift(buf, pos);
  }

  /** int64 negation: the least value is its own negation. */
  function Negate64(i: int): (r: int)
    requires MIN_INT64 <= i <= MAX_INT64
    ensures MIN_INT64 <= r <= MAX_INT64
  {
    if i == MIN_INT64 then MIN_INT64 else -i
  }

  /** What formatInt64Fast leaves in the buffer. */
  function FastText(i: int): Text {
    if i == MIN_INT64 then [MINUS] else Decimal(i)
  }

  /** The signed formatter. Negating the least int64 overflows back to it, the digit loop
      then never runs and only the sign is written. */
  method FormatInt64Fast(i: int, buf: array<byte>) returns (n: nat)
    requires MIN_INT64 <= i <= MAX_INT64
    requires buf.Length == 20
    modifies buf
    ensures n <= buf.Length && buf[..n] == FastText(i)
  {
    if i == 0 {
      buf[0] := ZERO;
      return 1;
    }
    var neg := i < 0;
    var m := if neg then Negate64(i) else i;
    var pos := 20;
    if m > 0 {
      pos := FillDigits(m, buf);
    }
    if neg {
      pos := pos - 1;
      buf[pos] := MINUS;
    }
    n := Shift(buf, pos);
  }

  /** The fast signed formatter is right on exactly the int64 values other than the least. */
  lemma FastTextExact(i: int)
    requires MIN_INT64 <= i <= MAX_INT64
    ensures FastText(i) == Decimal(i) <==> i != MIN_INT64
    ensures ParseInt(FastText(i)) == Some(i) <==> i != MIN_INT64
  {
    ParseDecimal(i);
    assert |Decimal(MIN_INT64)| > 1;
    if i == MIN_INT64 {
      assert FastText(i)[1..] == [];
    }
  }

  lemma Pow10Covers()
    ensures MAX_UINT64 < Pow10(20) && MAX_INT64 < Pow10(19)
  {
    assert Pow10(4) == 10000;
    assert Pow10(8) == 100000000;
    assert Pow10(12) == 1000000000000;
    assert Pow10(16) == 10000000000000000;
    assert Pow10(19) == 10000000000000000000;
  }

  /** The digit loop shared by both formatters: writes Digits(m) at the end of the buffer. */
  method FillDigits(m: int, buf: array<byte>) returns (pos: int)
    requires 0 < m <= MAX_UINT64
    requires buf.Length == 20
    modifies buf
    ensures 0 <= pos < 20 && buf[pos..] == Digits(m)
    ensures m <= MAX_INT64 ==> pos > 0
  {
    Pow10Covers();
    pos := buf.Length;
    var i := m;
    ghost var floor := if m <= MAX_INT64 then 1 else 0;
    while i > 0
      invariant 0 <= i && floor <= pos <= 20
      invariant i < Pow10(pos - floor)
      invariant i > 0 ==> Digits(i) + buf[pos..] == Digits(m)
      invariant i == 0 ==> buf[pos..] == Digits(m)
    {
      ghost var tail := buf[pos..];
      pos := pos - 1;
      buf[pos] := (0x30 + i % 10) as byte;
      assert buf[pos..] == [(0x30 + i % 10) as byte] + tail;
      if i >= 10 {
        assert Digits(i) + tail == Digits(i / 10) + buf[pos..];
      }
      i := i / 10;
    }
  }

  /** Moves buf[pos..] to the front and returns its length. */
  method Shift(buf: array<byte>, pos: int) returns (n: nat)
    requires 0 <= pos <= buf.Length
    modifies buf
    ensures n == buf.Length - pos && buf[..n] == old(buf[pos..])
  {
    n := buf.Length - pos;
    if pos > 0 {
      forall k | 0 <= k < n {
        buf[k] := buf[pos + k];
      }
    }
  }

  /** The precomputed table of the texts of 0..9999. */
  const SMALL_INTS: seq<Text> := seq(10000, (i: nat) => Digits(i))
}
