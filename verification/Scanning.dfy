/** String-aware scanning of documents: erasing insignificant white space and matching
    brackets outside string literals (sections 2 and 7 of RFC 8259); what is printed is balanced,
    and erases to its compact text. */
module Scanning {
  import opened Bytes
  import opened Integers
  import opened Strings
  import opened Values
  import opened Parsing

  datatype Mode = Plain | Quoted | Escaped

  function NextMode(m: Mode, b: byte): Mode {
    match m
    case Plain => if b == QUOTE then Quoted else Plain
    case Quoted => if b == QUOTE then Plain else if b == BACKSLASH then Escaped else Quoted
    case Escaped => Quoted
  }

  function EndMode(m: Mode, t: Text): Mode
    decreases |t|
  {
    if t == [] then m else EndMode(NextMode(m, t[0]), t[1..])
  }

  /** The text without the white space outside string literals. */
  function Erase(m: Mode, t: Text): Text
    decreases |t|
  {
    if t == [] then []
    else (if m.Plain? && IsSpace(t[0]) then [] else [t[0]]) + Erase(NextMode(m, t[0]), t[1..])
  }

  datatype Kind = Array | Object

  /** The open brackets outside string literals, innermost last; `balanced` is lost when a
      closing bracket does not match. */
  datatype Brackets = Brackets(mode: Mode, open: seq<Kind>, balanced: bool)

  function Close(s: Brackets, k: Kind): Brackets {
    if |s.open| > 0 && s.open[|s.open| - 1] == k then s.(open := s.open[..|s.open| - 1])
    else s.(balanced := false)
  }

  function NextBrackets(s: Brackets, b: byte): Brackets {
    var r := s.(mode := NextMode(s.mode, b));
    if !s.mode.Plain? then r
    else if b == LBRACKET then r.(open := s.open + [Array])
    else if b == LBRACE then r.(open := s.open + [Object])
    else if b == RBRACKET then Close(r, Array)
    else if b == RBRACE then Close(r, Object)
    else r
  }

  function Scan(s: Brackets, t: Text): Brackets
    decreases |t|
  {
    if t == [] then s else Scan(NextBrackets(s, t[0]), t[1..])
  }

  const START: Brackets := Brackets(Plain, [], true)

  lemma {:induction false} EraseConcat(m: Mode, a: Text, b: Text)
    ensures EndMode(m, a + b) == EndMode(EndMode(m, a), b)
    ensures Erase(m, a + b) == Erase(m, a) + Erase(EndMode(m, a), b)
    decreases |a|
  {
    if a == [] {
      assert a + b == b;
    } else {
      assert (a + b)[1..] == a[1..] + b;
      EraseConcat(NextMode(m, a[0]), a[1..], b);
    }
  }

  lemma {:induction false} ScanConcat(s: Brackets, a: Text, b: Text)
    ensures Scan(s, a + b) == Scan(Scan(s, a), b)
    decreases |a|
  {
    if a == [] {
      assert a + b == b;
    } else {
      assert (a + b)[1..] == a[1..] + b;
      ScanConcat(NextBrackets(s, a[0]), a[1..], b);
    }
  }

  /** A piece of text whose significant part is `kept` and which contains whole literals and
      no unmatched bracket. */
  ghost predicate Piece(t: Text, kept: Text) {
    && EndMode(Plain, t) == Plain && Erase(Plain, t) == kept
    && forall open, ok :: Scan(Brackets(Plain, open, ok), t) == Brackets(Plain, open, ok)
  }

  lemma PieceConcat(a: Text, ka: Text, b: Text, kb: Text)
    requires Piece(a, ka) && Piece(b, kb)
    ensures Piece(a + b, ka + kb)
  {
    EraseConcat(Plain, a, b);
    forall open, ok
      ensures Scan(Brackets(Plain, open, ok), a + b) == Brackets(Plain, open, ok)
    {
      ScanConcat(Brackets(Plain, open, ok), a, b);
    }
  }

  lemma {:induction false} SpacePiece(t: Text)
    requires AllSpace(t)
    ensures Piece(t, [])
  {
    if t != [] {
      SpacePiece(t[1..]);
    }
  }

  /** Bytes that mean nothing to the scanner and are kept by the eraser. */
  predicate IsQuiet(b: byte) {
    !IsSpace(b) && b != QUOTE && b != LBRACKET && b != RBRACKET && b != LBRACE && b != RBRACE
  }

  predicate Quiet(t: Text) {
    forall i | 0 <= i < |t| :: IsQuiet(t[i])
  }

  lemma {:induction false} QuietPiece(t: Text)
    requires Quiet(t)
    ensures Piece(t, t)
  {
    if t != [] {
      QuietPiece(t[1..]);
      assert t == [t[0]] + t[1..];
    }
  }

  /** Inside a literal the escape of a byte is passed over and kept. */
  lemma EscapeInside(html: bool, c: byte, rest: Text)
    ensures var e := EscapeByte(html, c);
            && EndMode(Quoted, e + rest) == EndMode(Quoted, rest)
            && Erase(Quoted, e + rest) == e + Erase(Quoted, rest)
            && forall open, ok :: Scan(Brackets(Quoted, open, ok), e + rest) == Scan(Brackets(Quoted, open, ok), rest)
  {
    var e := EscapeByte(html, c);
    EraseConcat(Quoted, e, rest);
    NibbleValue((c as int) / 16);
    NibbleValue((c as int) % 16);
    EscapeKept(e);
    forall open, ok
      ensures Scan(Brackets(Quoted, open, ok), e + rest) == Scan(Brackets(Quoted, open, ok), rest)
    {
      ScanConcat(Brackets(Quoted, open, ok), e, rest);
    }
  }

  lemma EscapeKept(e: Text)
    requires (|e| == 1 && e[0] != QUOTE && e[0] != BACKSLASH) || (|e| == 2 && e[0] == BACKSLASH)
             || (|e| == 6 && e[0] == BACKSLASH && forall i | 2 <= i < 6 :: e[i] != QUOTE && e[i] != BACKSLASH)
    ensures EndMode(Quoted, e) == Quoted && Erase(Quoted, e) == e
    ensures forall open, ok :: Scan(Brackets(Quoted, open, ok), e) == Brackets(Quoted, open, ok)
  {
    assert e == [e[0]] + e[1..];
    if |e| > 1 {
      var tail := e[2..];
      assert e[1..] == [e[1]] + tail && e[1..][1..] == tail;
      InsideKept(tail);
    }
  }

  lemma {:induction false} InsideKept(t: Text)
    requires forall i | 0 <= i < |t| :: t[i] != QUOTE && t[i] != BACKSLASH
    ensures EndMode(Quoted, t) == Quoted && Erase(Quoted, t) == t
    ensures forall open, ok :: Scan(Brackets(Quoted, open, ok), t) == Brackets(Quoted, open, ok)
  {
    if t != [] {
      InsideKept(t[1..]);
      assert t == [t[0]] + t[1..];
    }
  }

  lemma {:induction false} EscapedInside(html: bool, s: Text)
    ensures var t := Escape(html, s) + [QUOTE];
            && EndMode(Quoted, t) == Plain && Erase(Quoted, t) == t
            && forall open, ok :: Scan(Brackets(Quoted, open, ok), t) == Brackets(Plain, open, ok)
  {
    if s != [] {
      EscapedInside(html, s[1..]);
      var rest := Escape(html, s[1..]) + [QUOTE];
      assert Escape(html, s) + [QUOTE] == EscapeByte(html, s[0]) + rest;
      EscapeInside(html, s[0], rest);
    }
  }

  /** A string literal is kept as it is, whatever the string contains. */
  lemma QuotePiece(html: bool, s: Text)
    ensures Piece(Quote(html, s), Quote(html, s))
  {
    var inner := Escape(html, s) + [QUOTE];
    EscapedInside(html, s);
    assert Quote(html, s) == [QUOTE] + inner;
    hide Quote, Escape;
    OpenQuote(inner);
  }

  lemma OpenQuote(inner: Text)
    requires EndMode(Quoted, inner) == Plain && Erase(Quoted, inner) == inner
    requires forall open, ok :: Scan(Brackets(Quoted, open, ok), inner) == Brackets(Plain, open, ok)
    ensures Piece([QUOTE] + inner, [QUOTE] + inner)
  {
    var t := [QUOTE] + inner;
    assert t[1..] == inner;
    forall open, ok
      ensures Scan(Brackets(Plain, open, ok), t) == Brackets(Plain, open, ok)
    {
      assert Scan(Brackets(Plain, open, ok), t) == Scan(Brackets(Quoted, open, ok), inner);
    }
  }

  /** Numbers given by their text contain number bytes only. */
  predicate NumbersClean(v: Val)
    decreases v, 1
  {
    match v
    case Num(t) => forall i | 0 <= i < |t| :: IsNumberByte(t[i])
    case Arr(items) => forall i | 0 <= i < |items| :: NumbersClean(items[i])
    case Obj(members) => forall i | 0 <= i < |members| :: NumbersClean(members[i].value)
    case _ => true
  }

  function Compact(cfg: Config): Config {
    cfg.(doIndent := false)
  }

  lemma NewLinePiece(cfg: Config, level: nat)
    requires SpaceIndent(cfg)
    ensures Piece(NewLine(cfg, level), [])
  {
    NewLineSpace(cfg, level);
    SpacePiece(NewLine(cfg, level));
  }

  lemma SeparatorPiece(cfg: Config, level: nat)
    requires SpaceIndent(cfg)
    ensures Piece(Separator(cfg, level), Separator(Compact(cfg), level))
  {
    QuietPiece([COMMA]);
    NewLinePiece(cfg, level);
    PieceConcat([COMMA], [COMMA], NewLine(cfg, level), []);
    assert [COMMA] + [] == [COMMA];
  }

  lemma ColonPiece(cfg: Config)
    ensures Piece(ColonText(cfg), ColonText(Compact(cfg)))
  {
    QuietPiece([COLON]);
    if cfg.doIndent {
      SpacePiece([SPACE]);
      PieceConcat([COLON], [COLON], [SPACE], []);
    }
  }

  lemma ScalarPiece(cfg: Config, v: Val, level: nat)
    requires NumbersClean(v) && !v.Arr? && !v.Obj?
    ensures Piece(Print(cfg, v, level), Print(Compact(cfg), v, level))
  {
    match v
    case Str(s) => QuotePiece(cfg.escapeHTML, s);
    case Bool(b) => QuietPiece(BoolText(b));
    case Int(i) => QuietPiece(Decimal(i));
    case Num(t) => QuietPiece(t);
    case _ => QuietPiece(NULL_TEXT);
  }

  /** A bracketed piece: the brackets are kept and match each other. */
  lemma BracketPiece(open: byte, inner: Text, kept: Text, close: byte)
    requires Piece(inner, kept)
    requires (open == LBRACKET && close == RBRACKET) || (open == LBRACE && close == RBRACE)
    ensures Piece([open] + inner + [close], [open] + kept + [close])
  {
    var t := [open] + inner + [close];
    assert t[1..] == inner + [close];
    EraseConcat(Plain, inner, [close]);
    forall o, ok
      ensures Scan(Brackets(Plain, o, ok), t) == Brackets(Plain, o, ok)
    {
      var k := if open == LBRACE then Object else Array;
      var s := Brackets(Plain, o + [k], ok);
      ScanConcat(s, inner, [close]);
      assert (o + [k])[..|o|] == o;
    }
  }

  lemma BodyPiece(cfg: Config, open: byte, body: Text, kept: Text, close: byte, level: nat)
    requires SpaceIndent(cfg) && Piece(body, kept)
    requires (open == LBRACKET && close == RBRACKET) || (open == LBRACE && close == RBRACE)
    ensures Piece([open] + NewLine(cfg, level + 1) + body + NewLine(cfg, level) + [close], [open] + kept + [close])
  {
    var nl, end := NewLine(cfg, level + 1), NewLine(cfg, level);
    NewLinePiece(cfg, level + 1);
    NewLinePiece(cfg, level);
    PieceConcat(nl, [], body, kept);
    PieceConcat(nl + body, [] + kept, end, []);
    assert [] + kept + [] == kept;
    BracketPiece(open, nl + body + end, kept, close);
    assert [open] + nl + body + end + [close] == [open] + (nl + body + end) + [close];
  }

  /** Indentation is free of meaning: erasing insignificant white space from the indented text
      of a value gives its compact text, at every level and whatever its strings contain. The
      text has balanced brackets and whole literals. */
  lemma {:induction false} PrintPiece(cfg: Config, v: Val, level: nat)
    requires SpaceIndent(cfg) && NumbersClean(v)
    ensures Piece(Print(cfg, v, level), Print(Compact(cfg), v, level))
    decreases v, 1
  {
    match v
    case Arr(items) =>
      if items == [] {
        QuietPiece([]);
        BracketPiece(LBRACKET, [], [], RBRACKET);
        assert [LBRACKET] + [] + [RBRACKET] == [LBRACKET, RBRACKET];
      } else {
        ItemsPiece(cfg, items, level + 1);
        ContainerPiece(cfg, LBRACKET, PrintItems(cfg, items, level + 1), PrintItems(Compact(cfg), items, level + 1),
            RBRACKET, level);
      }
    case Obj(members) =>
      if members == [] {
        QuietPiece([]);
        BracketPiece(LBRACE, [], [], RBRACE);
        assert [LBRACE] + [] + [RBRACE] == [LBRACE, RBRACE];
      } else {
        MembersPiece(cfg, members, level + 1);
        ContainerPiece(cfg, LBRACE, PrintMembers(cfg, members, level + 1),
            PrintMembers(Compact(cfg), members, level + 1), RBRACE, level);
      }
    case _ => ScalarPiece(cfg, v, level);
  }

  lemma ContainerPiece(cfg: Config, open: byte, body: Text, kept: Text, close: byte, level: nat)
    requires SpaceIndent(cfg) && Piece(body, kept)
    requires (open == LBRACKET && close == RBRACKET) || (open == LBRACE && close == RBRACE)
    ensures Piece([open] + NewLine(cfg, level + 1) + body + NewLine(cfg, level) + [close],
                  [open] + NewLine(Compact(cfg), level + 1) + kept + NewLine(Compact(cfg), level) + [close])
  {
    BodyPiece(cfg, open, body, kept, close, level);
    assert [open] + [] + kept + [] + [close] == [open] + kept + [close];
  }

  lemma {:induction false} ItemsPiece(cfg: Config, items: seq<Val>, level: nat)
    requires SpaceIndent(cfg) && NumbersClean(Arr(items))
    ensures Piece(PrintItems(cfg, items, level), PrintItems(Compact(cfg), items, level))
    decreases items, 0
  {
    if items == [] {
      QuietPiece([]);
    } else {
      PrintPiece(cfg, items[0], level);
      if |items| > 1 {
        var c := Compact(cfg);
        ItemsPiece(cfg, items[1..], level);
        SeparatorPiece(cfg, level);
        PieceConcat(Print(cfg, items[0], level), Print(c, items[0], level), Separator(cfg, level), Separator(c, level));
        PieceConcat(Print(cfg, items[0], level) + Separator(cfg, level),
            Print(c, items[0], level) + Separator(c, level),
                    PrintItems(cfg, items[1..], level), PrintItems(c, items[1..], level));
      }
    }
  }

  lemma {:induction false} MembersPiece(cfg: Config, members: seq<Member>, level: nat)
    requires SpaceIndent(cfg) && NumbersClean(Obj(members))
    ensures Piece(PrintMembers(cfg, members, level), PrintMembers(Compact(cfg), members, level))
    decreases members, 0
  {
    if members == [] {
      QuietPiece([]);
    } else {
      MemberPiece(cfg, members[0], level);
      if |members| > 1 {
        var c := Compact(cfg);
        MembersPiece(cfg, members[1..], level);
        SeparatorPiece(cfg, level);
        PieceConcat(PrintMember(cfg, members[0], level), PrintMember(c, members[0], level), Separator(cfg, level),
            Separator(c, level));
        PieceConcat(PrintMember(cfg, members[0], level) + Separator(cfg, level),
            PrintMember(c, members[0], level) + Separator(c, level),
                    PrintMembers(cfg, members[1..], level), PrintMembers(c, members[1..], level));
      }
    }
  }

  lemma {:induction false} MemberPiece(cfg: Config, m: Member, level: nat)
    requires SpaceIndent(cfg) && NumbersClean(m.value)
    ensures Piece(PrintMember(cfg, m, level), PrintMember(Compact(cfg), m, level))
    decreases m, 2
  {
    var q := Quote(cfg.escapeHTML, KeyText(m.key));
    QuotePiece(cfg.escapeHTML, KeyText(m.key));
    ColonPiece(cfg);
    PieceConcat(q, q, ColonText(cfg), ColonText(Compact(cfg)));
    PrintPiece(cfg, m.value, level);
    PieceConcat(q + ColonText(cfg), q + ColonText(Compact(cfg)), Print(cfg, m.value, level),
        Print(Compact(cfg), m.value, level));
  }

  /** Compact text does not depend on the level. */
  lemma {:induction false} CompactLevel(cfg: Config, v: Val, a: nat, b: nat)
    requires !cfg.doIndent
    ensures Print(cfg, v, a) == Print(cfg, v, b)
    decreases v, 1
  {
    match v
    case Arr(items) => CompactItemsLevel(cfg, items, a + 1, b + 1);
    case Obj(members) => CompactMembersLevel(cfg, members, a + 1, b + 1);
    case _ =>
  }

  lemma {:induction false} CompactItemsLevel(cfg: Config, items: seq<Val>, a: nat, b: nat)
    requires !cfg.doIndent
    ensures PrintItems(cfg, items, a) == PrintItems(cfg, items, b)
    decreases items, 0
  {
    if items != [] {
      CompactLevel(cfg, items[0], a, b);
      CompactItemsLevel(cfg, items[1..], a, b);
    }
  }

  lemma {:induction false} CompactMembersLevel(cfg: Config, members: seq<Member>, a: nat, b: nat)
    requires !cfg.doIndent
    ensures PrintMembers(cfg, members, a) == PrintMembers(cfg, members, b)
    decreases members, 0
  {
    if members != [] {
      CompactMemberLevel(cfg, members[0], a, b);
      CompactMembersLevel(cfg, members[1..], a, b);
    }
  }

  lemma {:induction false} CompactMemberLevel(cfg: Config, m: Member, a: nat, b: nat)
    requires !cfg.doIndent
    ensures PrintMember(cfg, m, a) == PrintMember(cfg, m, b)
    decreases m, 2
  {
    CompactLevel(cfg, m.value, a, b);
  }

  /** Erasing insignificant white space from a text that was indented with white space, at any
      level, gives the compact text of the same value. */
  lemma IndentationIsMeaningFree(cfg: Config, v: Val, level: nat)
    requires SpaceIndent(cfg) && NumbersClean(v)
    ensures Erase(Plain, Print(cfg, v, level)) == Print(Compact(cfg), v, 0)
  {
    PrintPiece(cfg, v, level);
    CompactLevel(Compact(cfg), v, level, 0);
  }
}
