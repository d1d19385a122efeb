/** Code points as bytes (section 3 of RFC 3629) and as escapes (section 7 of RFC 8259): which
    texts are well-formed, and which literals mean which string. */
module Escapes {
  import opened Bytes
  import opened Strings
  import opened U = Utf8

  /** A code point that is no surrogate. */
  predicate IsScalar(p: int) {
    0 <= p < 0xD800 || 0xE000 <= p < 0x11_0000
  }

  /** The payload bits of one character. */
  function DecodePoint(t: Text): int
    requires 1 <= |t| <= 4
  {
    if |t| == 1 then t[0] as int
    else if |t| == 2 then (t[0] as int - 0xC0) * 0x40 + (t[1] as int - 0x80)
    else if |t| == 3 then (t[0] as int - 0xE0) * 0x1000 + (t[1] as int - 0x80) * 0x40 + (t[2] as int - 0x80)
    else
      (t[0] as int - 0xF0) * 0x4_0000 + (t[1] as int - 0x80) * 0x1000 + (t[2] as int - 0x80) * 0x40
      + (t[3] as int - 0x80)
  }

  lemma Split3(p: int)
    requires 0x800 <= p < 0x1_0000 && IsScalar(p)
    ensures var a, b, c := p / 0x1000, p / 0x40 % 0x40, p % 0x40;
            && 0 <= a < 0x10 && 0 <= b < 0x40 && 0 <= c < 0x40 && a * 0x1000 + b * 0x40 + c == p
            && (a == 0 ==> b >= 0x20) && (a == 0xD ==> b < 0x20)
  {
  }

  lemma Split4(p: int)
    requires 0x1_0000 <= p < 0x11_0000
    ensures var a, b, c, d := p / 0x4_0000, p / 0x1000 % 0x40, p / 0x40 % 0x40, p % 0x40;
            && 0 <= a < 5 && 0 <= b < 0x40 && 0 <= c < 0x40 && 0 <= d < 0x40
            && a * 0x4_0000 + b * 0x1000 + c * 0x40 + d == p && (a == 0 ==> b >= 0x10) && (a == 4 ==> b < 0x10)
  {
    assert p / 0x40 / 0x40 == p / 0x1000 && p / 0x1000 / 0x40 == p / 0x4_0000;
  }

  /** Every code point but the surrogates is written as one well-formed character, which decodes
      to it, whatever follows. */
  lemma PointRoundTrip(p: int, rest: Text)
    requires IsScalar(p)
    ensures var t := Utf8(p); 1 <= |t| <= 4 && DecodePoint(t) == p && HeadLength(t + rest) == |t|
  {
    var t, all := Utf8(p), Utf8(p) + rest;
    assert forall i | 0 <= i < |t| :: all[i] == t[i];
    if 0x800 <= p < 0x1_0000 {
      Split3(p);
    } else if p >= 0x1_0000 {
      Split4(p);
    }
  }

  /** And every well-formed character is written for a code point. */
  lemma HeadIsPoint(t: Text)
    requires t != [] && HeadLength(t) > 0
    ensures var c := t[..HeadLength(t)]; |c| <= 4 && IsScalar(DecodePoint(c)) && Utf8(DecodePoint(c)) == c
  {
    var n := HeadLength(t);
    if n == 2 {
      Head2(t[..n]);
    } else if n == 3 {
      Head3(t[..n]);
    } else if n == 4 {
      Head4(t[..n]);
    }
  }

  lemma Head2(c: Text)
    requires |c| == 2 && 0xC2 <= c[0] <= 0xDF && IsTail(c[1])
    ensures IsScalar(DecodePoint(c)) && Utf8(DecodePoint(c)) == c
  {
    Join3(0, c[0] as int - 0xC0, c[1] as int - 0x80);
  }

  lemma Head3(c: Text)
    requires |c| == 3 && 0xE0 <= c[0] <= 0xEF && IsTail(c[1]) && IsTail(c[2])
    requires (c[0] == 0xE0 ==> c[1] >= 0xA0) && (c[0] == 0xED ==> c[1] <= 0x9F)
    ensures IsScalar(DecodePoint(c)) && Utf8(DecodePoint(c)) == c
  {
    Join3(c[0] as int - 0xE0, c[1] as int - 0x80, c[2] as int - 0x80);
  }

  lemma Head4(c: Text)
    requires |c| == 4 && 0xF0 <= c[0] <= 0xF4 && IsTail(c[1]) && IsTail(c[2]) && IsTail(c[3])
    requires (c[0] == 0xF0 ==> c[1] >= 0x90) && (c[0] == 0xF4 ==> c[1] <= 0x8F)
    ensures IsScalar(DecodePoint(c)) && Utf8(DecodePoint(c)) == c
  {
    Join4(c[0] as int - 0xF0, c[1] as int - 0x80, c[2] as int - 0x80, c[3] as int - 0x80);
  }

  lemma Join3(a: int, b: int, c: int)
    requires 0 <= a < 0x40 && 0 <= b < 0x40 && 0 <= c < 0x40
    ensures var p := a * 0x1000 + b * 0x40 + c; p / 0x1000 == a && p / 0x40 % 0x40 == b && p % 0x40 == c
    ensures a == 0 ==> (b * 0x40 + c) / 0x40 == b
  {
    var p := a * 0x1000 + b * 0x40 + c;
    assert p / 0x40 == a * 0x40 + b;
  }

  lemma Join4(a: int, b: int, c: int, d: int)
    requires 0 <= a < 0x40 && 0 <= b < 0x40 && 0 <= c < 0x40 && 0 <= d < 0x40
    ensures var p := a * 0x4_0000 + b * 0x1000 + c * 0x40 + d;
            p / 0x4_0000 == a && p / 0x1000 % 0x40 == b && p / 0x40 % 0x40 == c && p % 0x40 == d
  {
    var p := a * 0x4_0000 + b * 0x1000 + c * 0x40 + d;
    assert p / 0x40 == a * 0x1000 + b * 0x40 + c;
    assert p / 0x1000 == a * 0x40 + b;
  }

  predicate AllScalar(ps: seq<int>) {
    forall i | 0 <= i < |ps| :: IsScalar(ps[i])
  }

  function Encoded(ps: seq<int>): Text
    requires AllScalar(ps)
  {
    if ps == [] then [] else Utf8(ps[0]) + Encoded(ps[1..])
  }

  lemma {:induction false} EncodedIsValid(ps: seq<int>)
    requires AllScalar(ps)
    ensures ValidUtf8(Encoded(ps))
  {
    hide Utf8, HeadLength;
    if ps != [] {
      var c, rest := Utf8(ps[0]), Encoded(ps[1..]);
      PointRoundTrip(ps[0], rest);
      EncodedIsValid(ps[1..]);
      assert (c + rest)[|c|..] == rest;
    }
  }

  lemma {:induction false} PointsOf(t: Text) returns (ps: seq<int>)
    requires ValidUtf8(t)
    ensures AllScalar(ps) && Encoded(ps) == t
    decreases |t|
  {
    hide Utf8, HeadLength;
    ps := [];
    if t != [] {
      var n := HeadLength(t);
      HeadIsPoint(t);
      var rest := PointsOf(t[n..]);
      ps := [DecodePoint(t[..n])] + rest;
      assert ps[1..] == rest && t == t[..n] + t[n..];
    }
  }

  /** Well-formed texts are exactly the concatenations of encoded code points. */
  lemma ValidIsEncoded(t: Text)
    ensures ValidUtf8(t) <==> exists ps :: AllScalar(ps) && Encoded(ps) == t
  {
    if ValidUtf8(t) {
      var ps := PointsOf(t);
    }
    if ps :| AllScalar(ps) && Encoded(ps) == t {
      EncodedIsValid(ps);
    }
  }

  // ----- the ways of writing a literal -----

  /** What each letter after a backslash stands for. */
  const SHORT_FORMS: map<byte, byte> :=
    map[0x22 := 0x22, 0x5C := 0x5C, 0x2F := 0x2F, 0x62 := 0x08, 0x66 := 0x0C, 0x6E := 0x0A, 0x72 := 0x0D, 0x74 := 0x09]

  /** One unit of a literal's contents: a byte as it is, a two-character escape, or a code point
      in hexadecimal, with the positions of its digits that are in upper case. */
  datatype Item = Raw(b: byte) | Short(letter: byte) | Coded(code: int, upper: set<nat>)

  predicate ItemOk(i: Item) {
    match i
    case Raw(b) => b != 0x5C
    case Short(letter) => letter in SHORT_FORMS
    case Coded(code, _) => IsScalar(code)
  }

  function HexDigit(n: int, upper: bool): byte
    requires 0 <= n < 16
  {
    if n < 10 then (0x30 + n) as byte else if upper then (0x41 + n - 10) as byte else (0x61 + n - 10) as byte
  }

  /** `\uXXXX` for a code unit, whose digits have the positions from `from` on. */
  function UnitText(u: int, upper: set<nat>, from: nat): (t: Text)
    requires 0 <= u < 0x1_0000
    ensures |t| == 6
  {
    [0x5C, 0x75, HexDigit(u / 0x1000, from in upper), HexDigit(u / 0x100 % 0x10, from + 1 in upper),
     HexDigit(u / 0x10 % 0x10, from + 2 in upper), HexDigit(u % 0x10, from + 3 in upper)]
  }

  function Written(i: Item): (t: Text)
    requires ItemOk(i)
    ensures t != []
  {
    match i
    case Raw(b) => [b]
    case Short(letter) => [0x5C, letter]
    case Coded(code, upper) =>
      if code < 0x1_0000 then UnitText(code, upper, 0)
      else
        UnitText(0xD800 + (code - 0x1_0000) / 0x400, upper, 0) + UnitText(0xDC00 + (code - 0x1_0000) % 0x400, upper, 4)
  }

  function Meant(i: Item): Text
    requires ItemOk(i)
  {
    match i
    case Raw(b) => [b]
    case Short(letter) => [SHORT_FORMS[letter]]
    case Coded(code, _) => Utf8(code)
  }

  predicate AllOk(items: seq<Item>) {
    forall k | 0 <= k < |items| :: ItemOk(items[k])
  }

  function WrittenAll(items: seq<Item>): Text
    requires AllOk(items)
  {
    if items == [] then [] else Written(items[0]) + WrittenAll(items[1..])
  }

  function MeantAll(items: seq<Item>): Text
    requires AllOk(items)
  {
    if items == [] then [] else Meant(items[0]) + MeantAll(items[1..])
  }

  lemma HexDigitValue(n: int, upper: bool)
    requires 0 <= n < 16
    ensures HexValue(HexDigit(n, upper)) == Some(n)
  {
  }

  lemma Nibbles(u: int)
    requires 0 <= u < 0x1_0000
    ensures var a, b, c, d := u / 0x1000, u / 0x100 % 0x10, u / 0x10 % 0x10, u % 0x10;
            && 0 <= a < 16 && 0 <= b < 16 && 0 <= c < 16 && 0 <= d < 16 && ((a * 16 + b) * 16 + c) * 16 + d == u
  {
    assert u / 0x10 / 0x10 == u / 0x100 && u / 0x100 / 0x10 == u / 0x1000;
  }

  lemma UnitOf(t: Text, a: int, b: int, c: int, d: int)
    requires |t| >= 4 && HexValue(t[0]) == Some(a) && HexValue(t[1]) == Some(b) && HexValue(t[2]) == Some(c)
        && HexValue(t[3]) == Some(d)
    ensures CodeUnit(t) == Some(((a * 16 + b) * 16 + c) * 16 + d)
  {
    hide HexValue;
  }

  lemma UnitValue(u: int, upper: set<nat>, from: nat, rest: Text)
    requires 0 <= u < 0x1_0000
    ensures var t := UnitText(u, upper, from) + rest;
            t[0] == BACKSLASH && t[1] == 0x75 && t[6..] == rest && CodeUnit(t[2..]) == Some(u)
  {
    hide HexDigit, HexValue, CodeUnit;
    Nibbles(u);
    var a, b, c, d := u / 0x1000, u / 0x100 % 0x10, u / 0x10 % 0x10, u % 0x10;
    HexDigitValue(a, from in upper);
    HexDigitValue(b, from + 1 in upper);
    HexDigitValue(c, from + 2 in upper);
    HexDigitValue(d, from + 3 in upper);
    var t := UnitText(u, upper, from) + rest;
    UnitOf(t[2..], a, b, c, d);
  }

  lemma UnescapeCoded(code: int, upper: set<nat>, rest: Text)
    requires IsScalar(code)
    ensures Unescape(Written(Coded(code, upper)) + rest) == Prepend(Utf8(code), Unescape(rest))
  {
    hide CodeUnit, UnitText, Utf8;
    if code < 0x1_0000 {
      UnitValue(code, upper, 0, rest);
    } else {
      var high, low := 0xD800 + (code - 0x1_0000) / 0x400, 0xDC00 + (code - 0x1_0000) % 0x400;
      var a, b := UnitText(high, upper, 0), UnitText(low, upper, 4);
      UnitValue(high, upper, 0, b + rest);
      UnitValue(low, upper, 4, rest);
      assert a + b + rest == a + (b + rest);
      PairText(a + (b + rest), b + rest, rest);
    }
  }

  lemma PairText(t: Text, u: Text, rest: Text)
    requires |t| >= 6 && |u| >= 6 && t[6..] == u && u[6..] == rest
    ensures |t| >= 12 && t[6] == u[0] && t[7] == u[1] && t[8..] == u[2..] && t[12..] == rest
  {
  }

  lemma UnescapeItem(i: Item, rest: Text)
    requires ItemOk(i)
    ensures Unescape(Written(i) + rest) == Prepend(Meant(i), Unescape(rest))
  {
    var t := Written(i) + rest;
    match i
    case Raw(_) => assert t[1..] == rest;
    case Short(_) => assert t[2..] == rest;
    case Coded(code, upper) => UnescapeCoded(code, upper, rest);
  }

  /** However a string is written, with short escapes, with hexadecimal ones in digits of either
      case and surrogate pairs, or byte by byte: unescaping gives what was meant. */
  lemma {:induction false} UnescapeWritten(items: seq<Item>)
    requires AllOk(items)
    ensures Unescape(WrittenAll(items)) == Some(MeantAll(items))
  {
    hide Unescape, Written, Meant;
    if items != [] {
      UnescapeWritten(items[1..]);
      UnescapeItem(items[0], WrittenAll(items[1..]));
    } else {
      UnescapeNothing();
    }
  }

  lemma UnescapeNothing()
    ensures Unescape([]) == Some([])
  {
  }

  // ----- there is no other way -----

  function UpperAt(t: Text, from: nat): set<nat>
    requires |t| >= 4
  {
    set k: nat | 0 <= k < 4 && 0x41 <= t[k] <= 0x46 :: from + k
  }

  lemma DigitOf(c: byte)
    requires HexValue(c).Some?
    ensures HexDigit(HexValue(c).value, 0x41 <= c <= 0x46) == c
  {
  }

  /** Four hexadecimal digits are those of their code unit. */
  lemma DigitsOf(t: Text, upper: set<nat>, from: nat)
    requires |t| >= 4 && CodeUnit(t).Some?
    requires forall k: nat | k < 4 :: from + k in upper <==> 0x41 <= t[k] <= 0x46
    ensures UnitText(CodeUnit(t).value, upper, from) == [0x5C, 0x75] + t[..4]
  {
    hide HexDigit, HexValue;
    var a, b, c, d := HexValue(t[0]).value, HexValue(t[1]).value, HexValue(t[2]).value, HexValue(t[3]).value;
    NibblesBack(a, b, c, d);
    assert from + 0 in upper <==> 0x41 <= t[0] <= 0x46;
    DigitOf(t[0]);
    DigitOf(t[1]);
    DigitOf(t[2]);
    DigitOf(t[3]);
  }

  lemma NibblesBack(a: int, b: int, c: int, d: int)
    requires 0 <= a < 16 && 0 <= b < 16 && 0 <= c < 16 && 0 <= d < 16
    ensures var u := ((a * 16 + b) * 16 + c) * 16 + d;
            u / 0x1000 == a && u / 0x100 % 0x10 == b && u / 0x10 % 0x10 == c && u % 0x10 == d
  {
  }

  /** A low surrogate comes after a high one. */
  lemma PairOf(high: int, low: int)
    requires 0xD800 <= high < 0xDC00 && 0xDC00 <= low < 0xE000
    ensures var code := 0x1_0000 + (high - 0xD800) * 0x400 + (low - 0xDC00);
            && 0x1_0000 <= code < 0x11_0000
            && 0xD800 + (code - 0x1_0000) / 0x400 == high && 0xDC00 + (code - 0x1_0000) % 0x400 == low
  {
  }

  /** The first unit of contents that can be unescaped. */
  lemma FirstItem(t: Text) returns (i: Item, rest: Text)
    requires t != [] && Unescape(t).Some?
    ensures ItemOk(i) && t == Written(i) + rest && |rest| < |t| && Unescape(rest).Some?
  {
    if t[0] != BACKSLASH {
      i, rest := Raw(t[0]), t[1..];
    } else if t[1] != 0x75 {
      i, rest := Short(t[1]), t[2..];
    } else {
      i, rest := FirstCoded(t);
    }
  }

  lemma FirstCoded(t: Text) returns (i: Item, rest: Text)
    requires |t| >= 2 && t[0] == BACKSLASH && t[1] == 0x75 && Unescape(t).Some?
    ensures ItemOk(i) && t == Written(i) + rest && |rest| < |t| && Unescape(rest).Some?
  {
    hide CodeUnit, UnitText, Utf8, HexValue;
    var u := CodeUnit(t[2..]).value;
    var low := UpperAt(t[2..], 0);
    assert t[2..][..4] == t[2..6] && t[..6] == [0x5C, 0x75] + t[2..6];
    if u < 0xD800 || 0xE000 <= u {
      i, rest := Coded(u, low), t[6..];
      DigitsOf(t[2..], low, 0);
    } else {
      var l := CodeUnit(t[8..]).value;
      var upper := low + UpperAt(t[8..], 4);
      PairOf(u, l);
      i, rest := Coded(0x1_0000 + (u - 0xD800) * 0x400 + (l - 0xDC00), upper), t[12..];
      DigitsOf(t[2..], upper, 0);
      DigitsOf(t[8..], upper, 4);
      assert t[8..][..4] == t[8..12] && t[6..12] == [0x5C, 0x75] + t[8..12];
      assert t == t[..6] + t[6..12] + rest;
    }
  }

  lemma {:induction false} WritingOf(t: Text) returns (items: seq<Item>)
    requires Unescape(t).Some?
    ensures AllOk(items) && WrittenAll(items) == t
    decreases |t|
  {
    hide Unescape, Written;
    items := [];
    if t != [] {
      var i, rest := FirstItem(t);
      var more := WritingOf(rest);
      items := [i] + more;
      assert items[1..] == more;
    }
  }

  /** The contents of a literal mean a string exactly when they are one of the ways of writing it. */
  lemma UnescapeExact(t: Text, s: Text)
    ensures Unescape(t) == Some(s) <==> exists items :: AllOk(items) && WrittenAll(items) == t && MeantAll(items) == s
  {
    hide Unescape;
    if Unescape(t) == Some(s) {
      var items := WritingOf(t);
      UnescapeWritten(items);
    }
    if items :| AllOk(items) && WrittenAll(items) == t && MeantAll(items) == s {
      UnescapeWritten(items);
    }
  }
}
