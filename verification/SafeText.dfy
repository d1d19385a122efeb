/** Bytes that a printed document keeps out, wherever they stand in its strings and keys: those that
    HTML escaping is for, anywhere in the document, and control bytes, anywhere inside one of its
    literals. */
module SafeText {
  import opened Bytes
  import opened Integers
  import opened Strings
  import opened Values
  import opened Parsing
  import opened Scanning

  /** Without less-than, greater-than and ampersand. */
  predicate NoHtml(t: Text) {
    forall i | 0 <= i < |t| :: t[i] != 0x3C && t[i] != 0x3E && t[i] != 0x26
  }

  predicate NumbersNoHtml(v: Val)
    decreases v, 1
  {
    match v
    case Num(t) => NoHtml(t)
    case Arr(items) => forall i | 0 <= i < |items| :: NumbersNoHtml(items[i])
    case Obj(members) => forall i | 0 <= i < |members| :: NumbersNoHtml(members[i].value)
    case _ => true
  }

  predicate Harmless(cfg: Config) {
    cfg.escapeHTML && NoHtml(cfg.prefix) && NoHtml(cfg.indent)
  }

  lemma QuoteNoHtml(s: Text)
    ensures NoHtml(Quote(true, s))
  {
    hide Escape;
    EscapeIsSafe(true, s);
  }

  lemma DecimalNoHtml(i: int)
    ensures NoHtml(Decimal(i))
  {
    hide Decimal;
    assert forall k | 0 <= k < |Decimal(i)| :: Decimal(i)[k] == MINUS || IsDigit(Decimal(i)[k]);
  }

  lemma {:induction false} RepeatNoHtml(t: Text, n: nat)
    requires NoHtml(t)
    ensures NoHtml(Repeat(t, n))
  {
    if n > 0 {
      RepeatNoHtml(t, n - 1);
    }
  }

  lemma NewLineNoHtml(cfg: Config, level: nat)
    requires Harmless(cfg)
    ensures NoHtml(NewLine(cfg, level)) && NoHtml(Separator(cfg, level)) && NoHtml(ColonText(cfg))
  {
    RepeatNoHtml(cfg.indent, level);
  }

  lemma ConcatNoHtml(a: Text, b: Text)
    requires NoHtml(a) && NoHtml(b)
    ensures NoHtml(a + b)
  {
  }

  lemma FiveNoHtml(a: Text, b: Text, c: Text, d: Text, e: Text)
    requires NoHtml(a) && NoHtml(b) && NoHtml(c) && NoHtml(d) && NoHtml(e)
    ensures NoHtml(a + b + c + d + e)
  {
    ConcatNoHtml(a, b);
    ConcatNoHtml(a + b, c);
    ConcatNoHtml(a + b + c, d);
    ConcatNoHtml(a + b + c + d, e);
  }

  /** With HTML escaping a document has none of the three bytes anywhere, whatever its strings and
      keys are, if its numbers, the prefix and the indent have none. */
  lemma {:induction false} PrintNoHtml(cfg: Config, v: Val, level: nat)
    requires Harmless(cfg) && NumbersNoHtml(v)
    ensures NoHtml(Print(cfg, v, level))
    decreases v, 1
  {
    hide NewLine, Quote, Decimal;
    NewLineNoHtml(cfg, level);
    NewLineNoHtml(cfg, level + 1);
    match v
    case Str(s) => QuoteNoHtml(s);
    case Int(i) => DecimalNoHtml(i);
    case Arr(items) =>
      ItemsNoHtml(cfg, items, level + 1);
      FiveNoHtml([LBRACKET], NewLine(cfg, level + 1), PrintItems(cfg, items, level + 1), NewLine(cfg, level),
          [RBRACKET]);
    case Obj(members) =>
      MembersNoHtml(cfg, members, level + 1);
      FiveNoHtml([LBRACE], NewLine(cfg, level + 1), PrintMembers(cfg, members, level + 1), NewLine(cfg, level),
          [RBRACE]);
    case _ =>
  }

  lemma {:induction false} ItemsNoHtml(cfg: Config, items: seq<Val>, level: nat)
    requires Harmless(cfg) && NumbersNoHtml(Arr(items))
    ensures NoHtml(PrintItems(cfg, items, level))
    decreases items, 0
  {
    hide Print, Separator;
    if items != [] {
      NewLineNoHtml(cfg, level);
      PrintNoHtml(cfg, items[0], level);
      ItemsNoHtml(cfg, items[1..], level);
    }
  }

  lemma {:induction false} MembersNoHtml(cfg: Config, members: seq<Member>, level: nat)
    requires Harmless(cfg) && NumbersNoHtml(Obj(members))
    ensures NoHtml(PrintMembers(cfg, members, level))
    decreases members, 0
  {
    hide PrintMember, Separator;
    if members != [] {
      NewLineNoHtml(cfg, level);
      MemberNoHtml(cfg, members[0], level);
      MembersNoHtml(cfg, members[1..], level);
    }
  }

  lemma {:induction false} MemberNoHtml(cfg: Config, m: Member, level: nat)
    requires Harmless(cfg) && NumbersNoHtml(m.value)
    ensures NoHtml(PrintMember(cfg, m, level))
    decreases m, 2
  {
    hide Print, Quote, ColonText;
    NewLineNoHtml(cfg, level);
    QuoteNoHtml(KeyText(m.key));
    PrintNoHtml(cfg, m.value, level);
  }

  // ----- control bytes -----

  /** No byte inside a literal is a control byte, when the text starts in this mode. */
  ghost predicate Sober(m: Mode, t: Text) {
    forall i | 0 <= i < |t| && !EndMode(m, t[..i]).Plain? :: t[i] >= 0x20
  }

  lemma SoberConcat(m: Mode, a: Text, b: Text)
    requires Sober(m, a) && Sober(EndMode(m, a), b)
    ensures Sober(m, a + b)
  {
    hide EndMode;
    var t := a + b;
    forall i | 0 <= i < |t| && !EndMode(m, t[..i]).Plain?
      ensures t[i] >= 0x20
    {
      if i < |a| {
        assert t[..i] == a[..i];
      } else {
        assert t[..i] == a + b[..i - |a|];
        EraseConcat(m, a, b[..i - |a|]);
      }
    }
  }

  /** A text in which literals are whole and have no control byte. */
  ghost predicate Whole(t: Text) {
    Sober(Mode.Plain, t) && EndMode(Mode.Plain, t).Plain?
  }

  lemma WholeConcat(a: Text, b: Text)
    requires Whole(a) && Whole(b)
    ensures Whole(a + b)
  {
    EraseConcat(Mode.Plain, a, b);
    hide EndMode;
    SoberConcat(Mode.Plain, a, b);
  }

  /** Texts without quotation marks stay outside literals. */
  lemma {:induction false} OutsideIsWhole(t: Text)
    requires QUOTE !in t
    ensures Whole(t)
    decreases |t|
  {
    forall i | 0 <= i < |t|
      ensures EndMode(Mode.Plain, t[..i]).Plain?
    {
      StaysPlain(t[..i]);
    }
    StaysPlain(t);
  }

  lemma {:induction false} StaysPlain(t: Text)
    requires QUOTE !in t
    ensures EndMode(Mode.Plain, t).Plain?
  {
    if t != [] {
      StaysPlain(t[1..]);
    }
  }

  lemma QuoteIsWhole(html: bool, s: Text)
    ensures Whole(Quote(html, s))
  {
    hide Escape;
    var e, q := Escape(html, s), Quote(html, s);
    EscapeIsSafe(html, s);
    EscapedInside(html, s);
    assert q == [QUOTE] + (e + [QUOTE]);
    assert q[1..] == e + [QUOTE];
    assert Sober(Mode.Plain, q);
  }

  lemma DecimalIsWhole(i: int)
    ensures Whole(Decimal(i))
  {
    hide Decimal;
    assert forall k | 0 <= k < |Decimal(i)| :: Decimal(i)[k] == MINUS || IsDigit(Decimal(i)[k]);
    OutsideIsWhole(Decimal(i));
  }

  lemma {:induction false} SpaceIsWhole(t: Text)
    requires AllSpace(t)
    ensures Whole(t)
  {
    NoQuote(t);
    OutsideIsWhole(t);
  }

  lemma {:induction false} NoQuote(t: Text)
    requires AllSpace(t)
    ensures QUOTE !in t
  {
    if t != [] {
      NoQuote(t[1..]);
      assert t == [t[0]] + t[1..];
    }
  }

  lemma SeparatorsAreWhole(cfg: Config, level: nat)
    requires SpaceIndent(cfg)
    ensures Whole(NewLine(cfg, level)) && Whole(Separator(cfg, level)) && Whole(ColonText(cfg))
  {
    NewLineSpace(cfg, level);
    SpaceIsWhole(NewLine(cfg, level));
    OutsideIsWhole([COMMA]);
    WholeConcat([COMMA], NewLine(cfg, level));
    OutsideIsWhole(ColonText(cfg));
  }

  lemma FiveWhole(a: byte, b: Text, c: Text, d: Text, e: byte)
    requires a != QUOTE && e != QUOTE && Whole(b) && Whole(c) && Whole(d)
    ensures Whole([a] + b + c + d + [e])
  {
    hide Whole;
    OutsideIsWhole([a]);
    OutsideIsWhole([e]);
    WholeConcat([a], b);
    WholeConcat([a] + b, c);
    WholeConcat([a] + b + c, d);
    WholeConcat([a] + b + c + d, [e]);
  }

  /** No literal of a document has a control byte in it. */
  lemma {:induction false} LiteralsAreSober(cfg: Config, v: Val, level: nat)
    requires SpaceIndent(cfg) && NumbersClean(v)
    ensures Whole(Print(cfg, v, level))
    decreases v, 1
  {
    hide Whole, NewLine, Quote, Decimal;
    SeparatorsAreWhole(cfg, level);
    SeparatorsAreWhole(cfg, level + 1);
    match v
    case Str(s) => QuoteIsWhole(cfg.escapeHTML, s);
    case Int(i) => DecimalIsWhole(i);
    case Arr(items) =>
      ItemsAreSober(cfg, items, level + 1);
      if items == [] {
        OutsideIsWhole([LBRACKET, RBRACKET]);
      } else {
        FiveWhole(LBRACKET, NewLine(cfg, level + 1), PrintItems(cfg, items, level + 1), NewLine(cfg, level), RBRACKET);
      }
    case Obj(members) =>
      MembersAreSober(cfg, members, level + 1);
      if members == [] {
        OutsideIsWhole([LBRACE, RBRACE]);
      } else {
        FiveWhole(LBRACE, NewLine(cfg, level + 1), PrintMembers(cfg, members, level + 1), NewLine(cfg, level), RBRACE);
      }
    case _ => OutsideIsWhole(Print(cfg, v, level));
  }

  lemma {:induction false} ItemsAreSober(cfg: Config, items: seq<Val>, level: nat)
    requires SpaceIndent(cfg) && NumbersClean(Arr(items))
    ensures Whole(PrintItems(cfg, items, level))
    decreases items, 0
  {
    hide Whole, Print, Separator;
    if items == [] {
      OutsideIsWhole([]);
    } else {
      var sep := Separator(cfg, level);
      SeparatorsAreWhole(cfg, level);
      LiteralsAreSober(cfg, items[0], level);
      ItemsAreSober(cfg, items[1..], level);
      WholeConcat(Print(cfg, items[0], level), sep);
      WholeConcat(Print(cfg, items[0], level) + sep, PrintItems(cfg, items[1..], level));
    }
  }

  lemma {:induction false} MembersAreSober(cfg: Config, members: seq<Member>, level: nat)
    requires SpaceIndent(cfg) && NumbersClean(Obj(members))
    ensures Whole(PrintMembers(cfg, members, level))
    decreases members, 0
  {
    hide Whole, PrintMember, Separator;
    if members == [] {
      OutsideIsWhole([]);
    } else {
      var sep := Separator(cfg, level);
      SeparatorsAreWhole(cfg, level);
      MemberIsSober(cfg, members[0], level);
      MembersAreSober(cfg, members[1..], level);
      WholeConcat(PrintMember(cfg, members[0], level), sep);
      WholeConcat(PrintMember(cfg, members[0], level) + sep, PrintMembers(cfg, members[1..], level));
    }
  }

  lemma {:induction false} MemberIsSober(cfg: Config, m: Member, level: nat)
    requires SpaceIndent(cfg) && NumbersClean(m.value)
    ensures Whole(PrintMember(cfg, m, level))
    decreases m, 2
  {
    hide Whole, Print, Quote, ColonText;
    var q := Quote(cfg.escapeHTML, KeyText(m.key));
    SeparatorsAreWhole(cfg, level);
    QuoteIsWhole(cfg.escapeHTML, KeyText(m.key));
    LiteralsAreSober(cfg, m.value, level);
    WholeConcat(q, ColonText(cfg));
    WholeConcat(q + ColonText(cfg), Print(cfg, m.value, level));
  }
}
