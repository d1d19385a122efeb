/** JSON string literals: escaping with and without the HTML option, section 7 unescaping,
    and the scan for the closing quote. */
module Strings {
  import opened Bytes

  const HEX_DIGITS: Text := [0x30, 0x31, 0x32, 0x33, 0x34, 0x35, 0x36, 0x37, 0x38, 0x39,
                             0x61, 0x62, 0x63, 0x64, 0x65, 0x66]

  /** The bytes the encoder never copies into a literal unchanged. */
  predicate Special(html: bool, c: byte) {
    c == QUOTE || c == BACKSLASH || c == SLASH || c < 0x20 || (html && IsHtml(c))
  }

  predicate IsHtml(c: byte) {
    c == 0x3C || c == 0x3E || c == 0x26
  }

  /** `\u00xy` for a byte. */
  function HexEscape(c: byte): Text {
    [BACKSLASH, 0x75, ZERO, ZERO, HEX_DIGITS[(c as int) / 16], HEX_DIGITS[(c as int) % 16]]
  }

  function EscapeByte(html: bool, c: byte): (t: Text)
    ensures |t| > 0
  {
    if c == QUOTE || c == BACKSLASH || c == SLASH then [BACKSLASH, c]
    else if c == 0x08 then [BACKSLASH, 0x62]
    else if c == 0x0C then [BACKSLASH, 0x66]
    else if c == LF then [BACKSLASH, 0x6E]
    else if c == CR then [BACKSLASH, 0x72]
    else if c == TAB then [BACKSLASH, 0x74]
    else if Special(html, c) then HexEscape(c)
    else [c]
  }

  function Escape(html: bool, s: Text): Text {
    if s == [] then [] else EscapeByte(html, s[0]) + Escape(html, s[1..])
  }

  /** The literal of a string, quotes included. */
  function Quote(html: bool, s: Text): Text {
    [QUOTE] + Escape(html, s) + [QUOTE]
  }

  predicate Plain(html: bool, s: Text) {
    forall i | 0 <= i < |s| :: !Special(html, s[i])
  }

  /** The encoder's fast path: a string without special bytes is its own escape. */
  lemma {:induction false} EscapePlain(html: bool, s: Text)
    requires Plain(html, s)
    ensures Escape(html, s) == s
  {
    if s != [] {
      EscapePlain(html, s[1..]);
      assert s == [s[0]] + s[1..];
    }
  }

  /** Escaping distributes over concatenation. */
  lemma {:induction false} EscapeConcat(html: bool, a: Text, b: Text)
    ensures Escape(html, a + b) == Escape(html, a) + Escape(html, b)
  {
    if a == [] {
      assert a + b == b;
    } else {
      assert (a + b)[1..] == a[1..] + b;
      EscapeConcat(html, a[1..], b);
    }
  }

  /** What never appears in a literal's contents: control bytes, and with HTML escaping the three
      bytes less-than, greater-than and ampersand. */
  lemma {:induction false} EscapeIsSafe(html: bool, s: Text)
    ensures forall i | 0 <= i < |Escape(html, s)| :: Escape(html, s)[i] >= 0x20
    ensures html ==> forall i | 0 <= i < |Escape(html, s)| ::
              Escape(html, s)[i] != 0x3C && Escape(html, s)[i] != 0x3E && Escape(html, s)[i] != 0x26
  {
    if s != [] {
      EscapeIsSafe(html, s[1..]);
      EscapeByteIsSafe(html, s[0]);
      hide EscapeByte;
    }
  }

  lemma EscapeByteIsSafe(html: bool, c: byte)
    ensures forall k | 0 <= k < |EscapeByte(html, c)| :: EscapeByte(html, c)[k] >= 0x20
    ensures html ==> forall k | 0 <= k < |EscapeByte(html, c)| ::
              EscapeByte(html, c)[k] != 0x3C && EscapeByte(html, c)[k] != 0x3E && EscapeByte(html, c)[k] != 0x26
  {
    NibbleValue((c as int) / 16);
    NibbleValue((c as int) % 16);
  }

  /** The strings that are their own escape: no control byte, no quotation mark, backslash or slash,
      and with HTML escaping none of its three bytes. */
  lemma {:induction false} EscapeIsSame(html: bool, s: Text)
    ensures |Escape(html, s)| >= |s|
    ensures Escape(html, s) == s <==>
              forall i | 0 <= i < |s| ::
                && s[i] >= 0x20 && s[i] != 0x22 && s[i] != 0x5C && s[i] != 0x2F
                && (html ==> s[i] != 0x3C && s[i] != 0x3E && s[i] != 0x26)
  {
    if s != [] {
      var e, rest := EscapeByte(html, s[0]), Escape(html, s[1..]);
      EscapeIsSame(html, s[1..]);
      ShortestEscape(html, s[0]);
      assert s == [s[0]] + s[1..];
      assert |e| == 1 && e + rest == s ==> rest == (e + rest)[1..] == s[1..];
      assert forall i | 0 < i < |s| :: s[i] == s[1..][i - 1];
    }
  }

  /** A byte is copied, or escaped in the shortest way there is: in two bytes when some letter stands
      for it, otherwise as `\u00xy` in lower case. */
  lemma ShortestEscape(html: bool, c: byte)
    ensures var e := EscapeByte(html, c);
      if c >= 0x20 && c != 0x22 && c != 0x5C && c != 0x2F
          && !(html && (c == 0x3C || c == 0x3E || c == 0x26)) then e == [c]
      else
        && e[0] == 0x5C
        && (if exists d :: ShortEscape(d) == Some(c) then |e| == 2 else |e| == 6)
        && forall k | 0 <= k < |e| :: !(0x41 <= e[k] <= 0x5A)
  {
    NibbleValue((c as int) / 16);
    NibbleValue((c as int) % 16);
    assert forall d, b :: ShortEscape(d) == Some(b) ==>
        b == QUOTE || b == BACKSLASH || b == SLASH || b == 0x08 || b == 0x0C || b == LF || b == CR || b == TAB;
    assert ShortEscape(QUOTE) == Some(QUOTE) && ShortEscape(BACKSLASH) == Some(BACKSLASH)
        && ShortEscape(SLASH) == Some(SLASH) && ShortEscape(0x62) == Some(0x08) && ShortEscape(0x66) == Some(0x0C)
        && ShortEscape(0x6E) == Some(LF) && ShortEscape(0x72) == Some(CR) && ShortEscape(0x74) == Some(TAB);
  }

  lemma EscapeSnoc(html: bool, o: Text, s: Text, i: nat)
    requires i < |s|
    ensures o + Escape(html, s[..i + 1]) == o + Escape(html, s[..i]) + EscapeByte(html, s[i])
  {
    assert s[..i + 1] == s[..i] + [s[i]];
    EscapeConcat(html, s[..i], [s[i]]);
    assert Escape(html, [s[i]]) == EscapeByte(html, s[i]) + [];
    assert o + (Escape(html, s[..i]) + EscapeByte(html, s[i])) == o + Escape(html, s[..i]) + EscapeByte(html, s[i]);
  }

  /** The vector library's FindQuote: the next quote not preceded by an escaping backslash,
      or a negative number. */
  function FindQuote(data: Text, pos: nat): (r: int)
    requires pos <= |data|
    ensures r < 0 || (pos <= r < |data| && data[r] == QUOTE)
    decreases |data| - pos
  {
    if pos == |data| then -1
    else if data[pos] == QUOTE then pos
    else if data[pos] != BACKSLASH then FindQuote(data, pos + 1)
    else if pos + 1 == |data| then -1
    else FindQuote(data, pos + 2)
  }

  /** The scanner passes over the escape of one byte. */
  lemma SkipEscape(html: bool, data: Text, pos: nat, c: byte)
    requires Has(data, pos, EscapeByte(html, c))
    ensures pos + |EscapeByte(html, c)| <= |data|
    ensures FindQuote(data, pos) == FindQuote(data, pos + |EscapeByte(html, c)|)
  {
    var e := EscapeByte(html, c);
    HasSlice(data, pos, e);
    assert data[pos] == data[pos..pos + |e|][0] == e[0];
    if |e| == 2 {
      assert data[pos + 1] == data[pos..pos + |e|][1] == e[1];
    } else if |e| == 6 {
      forall i | 1 <= i < 6
        ensures data[pos + i] == e[i]
      {
        assert data[pos..pos + 6][i] == data[pos + i];
      }
      assert data[pos + 1] == e[1] && data[pos + 2] == e[2] && data[pos + 3] == e[3];
      assert data[pos + 4] == e[4] && data[pos + 5] == e[5];
      NibbleValue((c as int) / 16);
      NibbleValue((c as int) % 16);
      PlainRun(data, pos + 2, 4);
    }
  }

  lemma {:induction false} PlainRun(data: Text, pos: nat, n: nat)
    requires pos + n <= |data|
    requires forall i | pos <= i < pos + n :: data[i] != QUOTE && data[i] != BACKSLASH
    ensures FindQuote(data, pos) == FindQuote(data, pos + n)
    decreases n
  {
    if n > 0 {
      PlainRun(data, pos + 1, n - 1);
    }
  }

  /** Scanning an escaped string stops at the quote that closes it, whatever follows. */
  lemma {:induction false} FindClosingQuote(html: bool, data: Text, pos: nat, s: Text)
    requires Has(data, pos, Escape(html, s) + [QUOTE])
    ensures pos <= |data|
    ensures FindQuote(data, pos) == pos + |Escape(html, s)|
    decreases |s|
  {
    var t := Escape(html, s) + [QUOTE];
    if s != [] {
      var e := EscapeByte(html, s[0]);
      var rest := Escape(html, s[1..]) + [QUOTE];
      assert t == e + rest;
      HasConcat(data, pos, e, rest);
      SkipEscape(html, data, pos, s[0]);
      FindClosingQuote(html, data, pos + |e|, s[1..]);
    }
  }

  function HexValue(c: byte): (r: Option<int>)
    ensures r.Some? ==> 0 <= r.value < 16
  {
    if IsDigit(c) then Some(c as int - 0x30)
    else if 0x61 <= c <= 0x66 then Some(c as int - 0x57)
    else if 0x41 <= c <= 0x46 then Some(c as int - 0x37)
    else None
  }

  /** The code unit of four hexadecimal digits. */
  function CodeUnit(t: Text): (r: Option<int>)
    requires |t| >= 4
    ensures r.Some? ==> 0 <= r.value < 0x1_0000
  {
    match (HexValue(t[0]), HexValue(t[1]), HexValue(t[2]), HexValue(t[3]))
    case (Some(a), Some(b), Some(c), Some(d)) => Some(((a * 16 + b) * 16 + c) * 16 + d)
    case _ => None
  }

  /** UTF-8 encoding of a code point (section 3 of RFC 3629). */
  function Utf8(p: int): Text
    requires 0 <= p < 0x11_0000
  {
    if p < 0x80 then [p as byte]
    else if p < 0x800 then [(0xC0 + p / 0x40) as byte, (0x80 + p % 0x40) as byte]
    else if p < 0x1_0000 then
      [(0xE0 + p / 0x1000) as byte, (0x80 + p / 0x40 % 0x40) as byte, (0x80 + p % 0x40) as byte]
    else
      [(0xF0 + p / 0x4_0000) as byte, (0x80 + p / 0x1000 % 0x40) as byte,
       (0x80 + p / 0x40 % 0x40) as byte, (0x80 + p % 0x40) as byte]
  }

  function ShortEscape(c: byte): Option<byte> {
    if c == QUOTE || c == BACKSLASH || c == SLASH then Some(c)
    else if c == 0x62 then Some(0x08)
    else if c == 0x66 then Some(0x0C)
    else if c == 0x6E then Some(LF)
    else if c == 0x72 then Some(CR)
    else if c == 0x74 then Some(TAB)
    else None
  }

  function Prepend(head: Text, rest: Option<Text>): Option<Text> {
    match rest
    case None => None
    case Some(t) => Some(head + t)
  }

  /** The vector library's UnescapeString, after section 7 of RFC 8259: two-character
      escapes, \uXXXX, and surrogate pairs; a lone surrogate is an error. */
  function Unescape(t: Text): Option<Text> {
    if t == [] then Some([])
    else if t[0] != BACKSLASH then Prepend([t[0]], Unescape(t[1..]))
    else if |t| < 2 then None
    else if t[1] != 0x75 then
      match ShortEscape(t[1])
      case None => None
      case Some(c) => Prepend([c], Unescape(t[2..]))
    else if |t| < 6 then None
    else
      match CodeUnit(t[2..])
      case None => None
      case Some(u) =>
        if u < 0xD800 || 0xE000 <= u then Prepend(Utf8(u), Unescape(t[6..]))
        else if 0xDC00 <= u || |t| < 12 || t[6] != BACKSLASH || t[7] != 0x75 then None
        else
          match CodeUnit(t[8..])
          case None => None
          case Some(l) =>
            if 0xDC00 <= l < 0xE000
            then Prepend(Utf8(0x1_0000 + (u - 0xD800) * 0x400 + (l - 0xDC00)), Unescape(t[12..]))
            else None
  }

  lemma UnescapeByte(html: bool, c: byte, rest: Text)
    ensures Unescape(EscapeByte(html, c) + rest) == Prepend([c], Unescape(rest))
  {
    var e := EscapeByte(html, c);
    var t := e + rest;
    assert t[|e|..] == rest;
    if |e| == 6 {
      HexRoundTrip(c, t[2..]);
    }
  }

  lemma HexRoundTrip(c: byte, t: Text)
    requires |t| >= 4 && c < 0x80
    requires t[0] == t[1] == ZERO
    requires t[2] == HEX_DIGITS[(c as int) / 16] && t[3] == HEX_DIGITS[(c as int) % 16]
    ensures CodeUnit(t) == Some(c as int)
  {
    NibbleValue((c as int) / 16);
    NibbleValue((c as int) % 16);
  }

  lemma NibbleValue(n: int)
    requires 0 <= n < 16
    ensures HexValue(HEX_DIGITS[n]) == Some(n)
    ensures HEX_DIGITS[n] != QUOTE && HEX_DIGITS[n] != BACKSLASH
  {
  }

  /** Unescaping recovers every string from its literal's contents. */
  lemma {:induction false} UnescapeEscape(html: bool, s: Text)
    ensures Unescape(Escape(html, s)) == Some(s)
  {
    if s != [] {
      UnescapeEscape(html, s[1..]);
      UnescapeByte(html, s[0], Escape(html, s[1..]));
      assert s == [s[0]] + s[1..];
    }
  }

  /** Without backslashes there is nothing to unescape. */
  lemma {:induction false} UnescapeRaw(t: Text)
    requires BACKSLASH !in t
    ensures Unescape(t) == Some(t)
  {
    if t != [] {
      UnescapeRaw(t[1..]);
      assert t == [t[0]] + t[1..];
    }
  }
}
