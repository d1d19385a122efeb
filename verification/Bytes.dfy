/** Bytes, byte strings, white space and the "x stands at pos in data" relation that
    every reader and printer of this project is stated with. */
module Bytes {
  newtype byte = b: int | 0 <= b < 0x100

  type Text = seq<byte>

  datatype Option<+T> = None | Some(value: T)

  const TAB: byte := 0x09
  const LF: byte := 0x0A
  const CR: byte := 0x0D
  const SPACE: byte := 0x20
  const QUOTE: byte := 0x22
  const PLUS: byte := 0x2B
  const COMMA: byte := 0x2C
  const MINUS: byte := 0x2D
  const DOT: byte := 0x2E
  const SLASH: byte := 0x2F
  const ZERO: byte := 0x30
  const NINE: byte := 0x39
  const COLON: byte := 0x3A
  const LBRACKET: byte := 0x5B
  const BACKSLASH: byte := 0x5C
  const RBRACKET: byte := 0x5D
  const LBRACE: byte := 0x7B
  const RBRACE: byte := 0x7D

  const NULL_TEXT: Text := [0x6E, 0x75, 0x6C, 0x6C]
  const TRUE_TEXT: Text := [0x74, 0x72, 0x75, 0x65]
  const FALSE_TEXT: Text := [0x66, 0x61, 0x6C, 0x73, 0x65]

  predicate IsSpace(b: byte) {
    b == SPACE || b == TAB || b == LF || b == CR
  }

  predicate IsDigit(b: byte) {
    ZERO <= b <= NINE
  }

  predicate AllSpace(t: Text) {
    t == [] || (IsSpace(t[0]) && AllSpace(t[1..]))
  }

  /** Each byte is a space, a tab, a line feed or a carriage return. */
  predicate White(t: Text) {
    forall i | 0 <= i < |t| :: t[i] == 0x20 || t[i] == 0x09 || t[i] == 0x0A || t[i] == 0x0D
  }

  lemma {:induction false} WhiteIsSpace(t: Text)
    ensures White(t) <==> AllSpace(t)
  {
    if t != [] {
      WhiteIsSpace(t[1..]);
      assert White(t) ==> White(t[1..]);
      assert White(t[1..]) && IsSpace(t[0]) ==> White(t);
    }
  }

  /** The vector library's SkipWhitespace: the first index from `pos` that is not white space. */
  function SkipSpace(data: Text, pos: nat): (r: nat)
    requires pos <= |data|
    ensures pos <= r <= |data|
    ensures r < |data| ==> !IsSpace(data[r])
    decreases |data| - pos
  {
    if pos < |data| && IsSpace(data[pos]) then SkipSpace(data, pos + 1) else pos
  }

  lemma {:induction false} SkippedIsSpace(t: Text, i: nat)
    requires i <= |t|
    ensures AllSpace(t[i..SkipSpace(t, i)])
    decreases |t| - i
  {
    if i < |t| && IsSpace(t[i]) {
      SkippedIsSpace(t, i + 1);
      var g := t[i..SkipSpace(t, i)];
      assert g[0] == t[i] && g[1..] == t[i + 1..SkipSpace(t, i + 1)];
    }
  }

  /** `x` stands in `data` from `pos` on. */
  predicate Has(data: Text, pos: nat, x: Text): (b: bool)
    ensures b ==> pos + |x| <= |data|
    decreases |x|
  {
    if x == [] then pos <= |data|
    else pos < |data| && data[pos] == x[0] && Has(data, pos + 1, x[1..])
  }

  lemma {:induction false} HasSlice(data: Text, pos: nat, x: Text)
    ensures Has(data, pos, x) <==> pos + |x| <= |data| && data[pos..pos + |x|] == x
    decreases |x|
  {
    if x != [] {
      HasSlice(data, pos + 1, x[1..]);
      if pos + |x| <= |data| {
        var t := data[pos..pos + |x|];
        assert t == [data[pos]] + data[pos + 1..pos + |x|];
        assert x == [x[0]] + x[1..];
        assert t[0] == data[pos] && t[1..] == data[pos + 1..pos + |x|];
      }
    }
  }

  lemma {:induction false} HasConcat(data: Text, pos: nat, x: Text, y: Text)
    ensures Has(data, pos, x + y) <==> Has(data, pos, x) && Has(data, pos + |x|, y)
    decreases |x|
  {
    if x == [] {
      assert x + y == y;
    } else {
      assert (x + y)[1..] == x[1..] + y;
      HasConcat(data, pos + 1, x[1..], y);
    }
  }

  /** A whole document stands in itself. */
  lemma HasAll(data: Text)
    ensures Has(data, 0, data)
  {
    HasSlice(data, 0, data);
    assert data[0..|data|] == data;
  }

  /** White space standing at `pos` is skipped exactly, up to the byte that follows it. */
  lemma {:induction false} SkipSpaceOver(data: Text, pos: nat, w: Text)
    requires Has(data, pos, w) && AllSpace(w)
    requires pos + |w| < |data| ==> !IsSpace(data[pos + |w|])
    ensures pos + |w| <= |data| && SkipSpace(data, pos) == pos + |w|
    decreases |w|
  {
    if w != [] {
      SkipSpaceOver(data, pos + 1, w[1..]);
    }
  }

  lemma {:induction false} AllSpaceConcat(a: Text, b: Text)
    requires AllSpace(a) && AllSpace(b)
    ensures AllSpace(a + b)
  {
    if a == [] {
      assert a + b == b;
    } else {
      assert (a + b)[1..] == a[1..] + b;
      AllSpaceConcat(a[1..], b);
    }
  }

  /** Appending pieces one by one appends their concatenation. */
  lemma Glue3(o: Text, a: Text, b: Text, c: Text)
    ensures o + a + b + c == o + (a + b + c)
  {
    assert o + a + b == o + (a + b);
  }

  lemma Glue5(o: Text, a: Text, b: Text, c: Text, d: Text, e: Text)
    ensures o + a + b + c + d + e == o + (a + b + c + d + e)
  {
    Glue3(o, a, b, c);
    Glue3(o, a + b + c, d, e);
  }

  lemma Regroup(o: Text, a: Text, b: Text, c: Text, d: Text)
    ensures o + (a + (b + c + d)) == o + (a + b) + c + d
  {
    Glue3(o, a + b, c, d);
    assert a + (b + c + d) == a + b + c + d;
  }
}
