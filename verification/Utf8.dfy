/** Well-formed UTF-8 (section 4 of RFC 3629), which the decoder demands of a document unless it
    is told not to, and what it means for printed values. */
module Utf8 {
  import opened Bytes
  import opened Integers
  import opened Strings
  import opened Values

  predicate IsTail(c: byte) {
    0x80 <= c <= 0xBF
  }

  /** The length of the character at the start, or zero when there is none. */
  function HeadLength(t: Text): (n: nat)
    requires t != []
    ensures n <= |t|
  {
    var c := t[0];
    if c < 0x80 then 1
    else if 0xC2 <= c <= 0xDF then if |t| >= 2 && IsTail(t[1]) then 2 else 0
    else if 0xE0 <= c <= 0xEF then
      if |t| >= 3 && IsTail(t[1]) && IsTail(t[2]) && (c == 0xE0 ==> t[1] >= 0xA0) && (c == 0xED ==> t[1] <= 0x9F) then 3
      else 0
    else if 0xF0 <= c <= 0xF4 then
      if |t| >= 4 && IsTail(t[1]) && IsTail(t[2]) && IsTail(t[3])
         && (c == 0xF0 ==> t[1] >= 0x90) && (c == 0xF4 ==> t[1] <= 0x8F) then 4
      else 0
    else 0
  }

  /** The vector library's ValidateUTF8. */
  predicate ValidUtf8(t: Text) {
    t == [] || (HeadLength(t) > 0 && ValidUtf8(t[HeadLength(t)..]))
  }

  predicate Ascii(t: Text) {
    forall i | 0 <= i < |t| :: t[i] < 0x80
  }

  /** An ASCII byte stands between characters. */
  lemma {:induction false} SplitAscii(a: Text, c: byte, b: Text)
    requires c < 0x80
    ensures ValidUtf8(a + [c] + b) <==> ValidUtf8(a) && ValidUtf8(b)
    decreases |a|
  {
    var t := a + [c] + b;
    if a == [] {
      assert t[1..] == b;
    } else {
      var n := HeadLength(a);
      SameHead(a, c, b);
      if n > 0 {
        assert t[n..] == a[n..] + [c] + b;
        SplitAscii(a[n..], c, b);
      }
    }
  }

  lemma SameHead(a: Text, c: byte, b: Text)
    requires a != [] && c < 0x80
    ensures HeadLength(a + [c] + b) == HeadLength(a)
  {
    var t := a + [c] + b;
    assert forall i | 0 <= i < |a| :: t[i] == a[i];
    assert t[|a|] == c;
  }

  lemma {:induction false} AsciiThen(x: Text, b: Text)
    requires Ascii(x)
    ensures ValidUtf8(x + b) <==> ValidUtf8(b)
  {
    if x == [] {
      assert x + b == b;
    } else {
      assert (x + b)[1..] == x[1..] + b;
      AsciiThen(x[1..], b);
    }
  }

  lemma AsciiIsValid(x: Text)
    requires Ascii(x)
    ensures ValidUtf8(x)
  {
    assert x + [] == x;
    AsciiThen(x, []);
  }

  /** Texts on the two sides of an ASCII text. */
  lemma Between(a: Text, x: Text, b: Text)
    requires Ascii(x) && x != []
    ensures ValidUtf8(a + x + b) <==> ValidUtf8(a) && ValidUtf8(b)
  {
    assert a + x + b == a + [x[0]] + (x[1..] + b);
    SplitAscii(a, x[0], x[1..] + b);
    AsciiThen(x[1..], b);
  }

  /** A text inside ASCII brackets. */
  lemma Inside(x: Text, t: Text, y: Text)
    requires Ascii(x) && Ascii(y) && y != []
    ensures ValidUtf8(x + t + y) <==> ValidUtf8(t)
  {
    assert x + t + y == x + (t + y + []);
    AsciiThen(x, t + y + []);
    Between(t, y, []);
  }

  // ----- escaping -----

  function HighRun(s: Text): (k: nat)
    ensures k <= |s| && (forall i | 0 <= i < k :: s[i] >= 0x80) && (k < |s| ==> s[k] < 0x80)
  {
    if s == [] || s[0] < 0x80 then 0 else 1 + HighRun(s[1..])
  }

  lemma EscapeIsAscii(html: bool, c: byte)
    requires c < 0x80
    ensures Ascii(EscapeByte(html, c))
  {
  }

  /** Escaping keeps well-formedness and does not produce it. */
  lemma {:induction false} EscapeKeeps(html: bool, s: Text)
    ensures ValidUtf8(Escape(html, s)) <==> ValidUtf8(s)
    decreases |s|
  {
    hide ValidUtf8, HeadLength, EscapeByte, Escape, HighRun, Special;
    var k := HighRun(s);
    EscapeRun(html, s, k);
    if k < |s| {
      var e, rest := EscapeByte(html, s[k]), s[k + 1..];
      EscapeIsAscii(html, s[k]);
      EscapeKeeps(html, rest);
      Between(s[..k], e, Escape(html, rest));
      assert s == s[..k] + [s[k]] + rest;
      Between(s[..k], [s[k]], rest);
    }
  }

  /** Bytes outside ASCII stay, and the next one is escaped by itself. */
  lemma EscapeRun(html: bool, s: Text, k: nat)
    requires k <= |s| && forall i | 0 <= i < k :: s[i] >= 0x80
    ensures Escape(html, s)
         == if k == |s| then s else s[..k] + EscapeByte(html, s[k]) + Escape(html, s[k + 1..])
  {
    hide EscapeByte;
    var a, r := s[..k], s[k..];
    assert s == a + r;
    EscapeConcat(html, a, r);
    EscapePlain(html, a);
    if k == |s| {
      assert a + [] == s;
    } else {
      assert r[1..] == s[k + 1..];
      assert a + (EscapeByte(html, s[k]) + Escape(html, r[1..])) == a + EscapeByte(html, s[k]) + Escape(html, r[1..]);
    }
  }

  lemma QuoteKeeps(html: bool, s: Text)
    ensures ValidUtf8(Quote(html, s)) <==> ValidUtf8(s)
  {
    EscapeKeeps(html, s);
    Inside([QUOTE], Escape(html, s), [QUOTE]);
  }

  // ----- printed values -----

  /** Every string and every key of a tree is well-formed. */
  predicate Utf8Val(v: Val)
    decreases v, 1
  {
    match v
    case Str(s) => ValidUtf8(s)
    case Num(t) => ValidUtf8(t)
    case Arr(items) => Utf8Items(items)
    case Obj(members) => Utf8Members(members)
    case _ => true
  }

  predicate Utf8Items(items: seq<Val>)
    decreases items, 0
  {
    items != [] ==> Utf8Val(items[0]) && Utf8Items(items[1..])
  }

  predicate Utf8Members(members: seq<Member>)
    decreases members, 0
  {
    members != [] ==> Utf8Member(members[0]) && Utf8Members(members[1..])
  }

  predicate Utf8Member(m: Member)
    decreases m, 2
  {
    ValidUtf8(KeyText(m.key)) && Utf8Val(m.value)
  }

  lemma {:induction false} SpaceIsAscii(t: Text)
    requires AllSpace(t)
    ensures Ascii(t)
  {
    if t != [] {
      SpaceIsAscii(t[1..]);
    }
  }

  lemma NewLineIsAscii(cfg: Config, level: nat)
    requires SpaceIndent(cfg)
    ensures Ascii(NewLine(cfg, level)) && Ascii(Separator(cfg, level)) && Separator(cfg, level) != []
    ensures Ascii(ColonText(cfg)) && ColonText(cfg) != []
  {
    NewLineSpace(cfg, level);
    SpaceIsAscii(NewLine(cfg, level));
  }

  lemma DecimalIsAscii(i: int)
    ensures Ascii(Decimal(i))
  {
    DigitsValue(if i < 0 then -i else i);
  }

  /** The text of a tree is well-formed exactly when its strings and keys are. */
  lemma {:induction false} PrintIsUtf8(cfg: Config, v: Val, level: nat)
    requires SpaceIndent(cfg) && IsTree(v)
    ensures ValidUtf8(Print(cfg, v, level)) <==> Utf8Val(v)
    decreases v, 1
  {
    NewLineIsAscii(cfg, level);
    NewLineIsAscii(cfg, level + 1);
    match v
    case Int(i) =>
      DecimalIsAscii(i);
      AsciiIsValid(Decimal(i));
    case Str(s) => QuoteKeeps(cfg.escapeHTML, s);
    case Num(_) =>
    case Arr(items) =>
      if items != [] {
        ItemsAreUtf8(cfg, items, level + 1);
        Bracketed(cfg, LBRACKET, PrintItems(cfg, items, level + 1), RBRACKET, level);
      } else {
        AsciiIsValid([LBRACKET, RBRACKET]);
      }
    case Obj(members) =>
      if members != [] {
        MembersAreUtf8(cfg, members, level + 1);
        Bracketed(cfg, LBRACE, PrintMembers(cfg, members, level + 1), RBRACE, level);
      } else {
        AsciiIsValid([LBRACE, RBRACE]);
      }
    case _ => AsciiIsValid(Print(cfg, v, level));
  }

  lemma Bracketed(cfg: Config, open: byte, body: Text, close: byte, level: nat)
    requires SpaceIndent(cfg) && open < 0x80 && close < 0x80
    ensures ValidUtf8([open] + NewLine(cfg, level + 1) + body + NewLine(cfg, level) + [close]) <==> ValidUtf8(body)
  {
    NewLineIsAscii(cfg, level);
    NewLineIsAscii(cfg, level + 1);
    var x, y := [open] + NewLine(cfg, level + 1), NewLine(cfg, level) + [close];
    assert x + body + NewLine(cfg, level) + [close] == x + body + y;
    Inside(x, body, y);
  }

  lemma {:induction false} ItemsAreUtf8(cfg: Config, items: seq<Val>, level: nat)
    requires SpaceIndent(cfg) && forall i | 0 <= i < |items| :: IsTree(items[i])
    ensures ValidUtf8(PrintItems(cfg, items, level)) <==> Utf8Items(items)
    decreases items, 0
  {
    if items != [] {
      PrintIsUtf8(cfg, items[0], level);
      ItemsAreUtf8(cfg, items[1..], level);
      NewLineIsAscii(cfg, level);
      Between(Print(cfg, items[0], level), Separator(cfg, level), PrintItems(cfg, items[1..], level));
    }
  }

  lemma {:induction false} MembersAreUtf8(cfg: Config, members: seq<Member>, level: nat)
    requires SpaceIndent(cfg) && forall i | 0 <= i < |members| :: members[i].key.Name? && IsTree(members[i].value)
    ensures ValidUtf8(PrintMembers(cfg, members, level)) <==> Utf8Members(members)
    decreases members, 0
  {
    if members != [] {
      MemberIsUtf8(cfg, members[0], level);
      MembersAreUtf8(cfg, members[1..], level);
      NewLineIsAscii(cfg, level);
      Between(PrintMember(cfg, members[0], level), Separator(cfg, level), PrintMembers(cfg, members[1..], level));
    }
  }

  lemma {:induction false} MemberIsUtf8(cfg: Config, m: Member, level: nat)
    requires SpaceIndent(cfg) && m.key.Name? && IsTree(m.value)
    ensures ValidUtf8(PrintMember(cfg, m, level)) <==> Utf8Member(m)
    decreases m, 2
  {
    NewLineIsAscii(cfg, level);
    QuoteKeeps(cfg.escapeHTML, KeyText(m.key));
    PrintIsUtf8(cfg, m.value, level);
    Between(Quote(cfg.escapeHTML, KeyText(m.key)), ColonText(cfg), Print(cfg, m.value, level));
  }
}
