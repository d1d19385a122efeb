/** Where the white space of a printed document stands, byte by byte: which gap belongs between two
    neighbouring bytes outside literals, and the proof that exactly this gap is there, in documents
    the encoder prints and in those the writer is driven with. */
module Layout {
  import opened Bytes
  import opened Integers
  import opened Strings
  import opened Values
  import opened Parsing
  import opened Scanning
  import opened WriterSpec

  predicate Opens(b: byte) {
    b == 0x5B || b == 0x7B
  }

  predicate Closes(b: byte) {
    b == 0x5D || b == 0x7D
  }

  function Joined(parts: seq<Text>): Text {
    if parts == [] then [] else parts[0] + Joined(parts[1..])
  }

  /** `d` times the same text. */
  function Copies(t: Text, d: nat): Text {
    Joined(seq(d, _ => t))
  }

  lemma {:induction false} CopiesRepeat(t: Text, d: nat)
    ensures Copies(t, d) == Repeat(t, d)
  {
    if d > 0 {
      CopiesRepeat(t, d - 1);
      assert seq(d, _ => t)[1..] == seq(d - 1, _ => t);
    }
  }

  /** A new line begins after a comma, after a bracket that does not close at once, and before a
      closing bracket that has something before it. */
  predicate Breaks(last: byte, next: byte) {
    last == 0x2C || Opens(last) != Closes(next)
  }

  /** The white space between two bytes outside literals, with so many open brackets. */
  function Gap(cfg: Config, open: nat, last: byte, next: byte): Text {
    if !cfg.doIndent then []
    else if last == 0x3A then [0x20]
    else if Breaks(last, next) then
      [0x0A] + cfg.prefix + Copies(cfg.indent, if Closes(next) && open > 0 then open - 1 else open)
    else []
  }

  /** The scanner's state at a position, where `open` were the open brackets at the start. */
  function At(open: seq<Kind>, t: Text, i: nat): Brackets
    requires i <= |t|
  {
    Scan(Brackets(Mode.Plain, open, true), t[..i])
  }

  /** The white space from `i` on, up to the next byte, is what belongs there. */
  predicate GapAt(cfg: Config, open: seq<Kind>, t: Text, i: nat)
    requires 0 < i < |t|
  {
    var j := SkipSpace(t, i);
    j < |t| && t[i..j] == Gap(cfg, |At(open, t, i).open|, t[i - 1], t[j])
  }

  /** Behind every byte outside literals stands exactly the white space that belongs there, and
      there is none at the two ends. */
  ghost predicate LaidOut(cfg: Config, open: seq<Kind>, t: Text) {
    && t != [] && !IsSpace(t[0]) && !IsSpace(t[|t| - 1])
    && forall i | 0 < i < |t| && At(open, t, i).mode.Plain? && !IsSpace(t[i - 1]) :: GapAt(cfg, open, t, i)
  }

  lemma {:induction false} SkipInside(a: Text, rest: Text, i: nat)
    requires i <= |a| && SkipSpace(a, i) < |a|
    ensures SkipSpace(a + rest, i) == SkipSpace(a, i)
    decreases |a| - i
  {
    assert (a + rest)[i] == a[i];
    if IsSpace(a[i]) {
      SkipInside(a, rest, i + 1);
    }
  }

  lemma {:induction false} SkipBehind(a: Text, b: Text, i: nat)
    requires i <= |b|
    ensures SkipSpace(a + b, |a| + i) == |a| + SkipSpace(b, i)
    decreases |b| - i
  {
    if i < |b| {
      assert (a + b)[|a| + i] == b[i];
      if IsSpace(b[i]) {
        SkipBehind(a, b, i + 1);
      }
    }
  }

  lemma {:induction false} SpaceBytes(t: Text, i: nat)
    requires AllSpace(t) && i < |t|
    ensures IsSpace(t[i])
  {
    if i > 0 {
      SpaceBytes(t[1..], i - 1);
    }
  }

  lemma ScanSpace(s: Brackets, t: Text)
    requires AllSpace(t) && s.mode.Plain?
    ensures Scan(s, t) == s
  {
    SpacePiece(t);
    assert s == Brackets(Mode.Plain, s.open, s.balanced);
  }

  /** Two laid out texts with the right white space between them. */
  lemma Chain(cfg: Config, open: seq<Kind>, a: Text, g: Text, b: Text, inner: seq<Kind>)
    requires LaidOut(cfg, open, a) && LaidOut(cfg, inner, b) && AllSpace(g)
    requires At(open, a, |a|) == Brackets(Mode.Plain, inner, true)
    requires g == Gap(cfg, |inner|, a[|a| - 1], b[0])
    ensures LaidOut(cfg, open, a + g + b)
  {
    hide Scan, Gap, SkipSpace;
    var t := a + g + b;
    forall i | 0 < i < |t| && At(open, t, i).mode.Plain? && !IsSpace(t[i - 1])
      ensures GapAt(cfg, open, t, i)
    {
      if i < |a| {
        assert t == a + (g + b);
        GapInFirst(cfg, open, a, g + b, i);
      } else if i == |a| {
        GapBetween(cfg, open, a, g, b, inner);
      } else {
        assert i <= |a| + |g| ==> t[i - 1] == g[i - 1 - |a|];
        if i <= |a| + |g| {
          SpaceBytes(g, i - 1 - |a|);
        }
        GapInSecond(cfg, open, a, g, b, inner, i - |a| - |g|);
      }
    }
    assert t[|t| - 1] == b[|b| - 1];
  }

  lemma GapInFirst(cfg: Config, open: seq<Kind>, a: Text, rest: Text, i: nat)
    requires LaidOut(cfg, open, a) && 0 < i < |a| && !IsSpace((a + rest)[i - 1])
    requires At(open, a + rest, i).mode.Plain?
    ensures GapAt(cfg, open, a + rest, i)
  {
    hide Scan, Gap, SkipSpace;
    var t := a + rest;
    assert t[..i] == a[..i];
    assert GapAt(cfg, open, a, i);
    SkipInside(a, rest, i);
    var j := SkipSpace(a, i);
    assert t[i..j] == a[i..j];
  }

  lemma GapBetween(cfg: Config, open: seq<Kind>, a: Text, g: Text, b: Text, inner: seq<Kind>)
    requires a != [] && b != [] && !IsSpace(b[0]) && AllSpace(g)
    requires At(open, a, |a|) == Brackets(Mode.Plain, inner, true)
    requires g == Gap(cfg, |inner|, a[|a| - 1], b[0])
    ensures GapAt(cfg, open, a + g + b, |a|)
  {
    hide Scan, Gap, SkipSpace;
    var t := a + g + b;
    assert t[..|a|] == a && a[..|a|] == a && t[|a|..|a| + |g|] == g && t[|a| + |g|] == b[0];
    HasSlice(t, |a|, g);
    SkipSpaceOver(t, |a|, g);
  }

  lemma StateBehind(open: seq<Kind>, p: Text, b: Text, inner: seq<Kind>, i: nat)
    requires Scan(Brackets(Mode.Plain, open, true), p) == Brackets(Mode.Plain, inner, true) && i <= |b|
    ensures At(open, p + b, |p| + i) == At(inner, b, i)
  {
    hide Scan;
    assert (p + b)[..|p| + i] == p + b[..i];
    ScanConcat(Brackets(Mode.Plain, open, true), p, b[..i]);
  }

  lemma GapShifted(cfg: Config, open: seq<Kind>, p: Text, b: Text, inner: seq<Kind>, i: nat)
    requires 0 < i < |b| && At(open, p + b, |p| + i) == At(inner, b, i) && GapAt(cfg, inner, b, i)
    ensures GapAt(cfg, open, p + b, |p| + i)
  {
    hide At, Gap, SkipSpace;
    SkipBehind(p, b, i);
    var j := SkipSpace(b, i);
    assert (p + b)[|p| + i..|p| + j] == b[i..j] && (p + b)[|p| + i - 1] == b[i - 1] && (p + b)[|p| + j] == b[j];
  }

  lemma GapInSecond(cfg: Config, open: seq<Kind>, a: Text, g: Text, b: Text, inner: seq<Kind>, i: nat)
    requires LaidOut(cfg, inner, b) && AllSpace(g) && 0 < i < |b| && !IsSpace(b[i - 1])
    requires At(open, a, |a|) == Brackets(Mode.Plain, inner, true)
    requires At(open, a + g + b, |a| + |g| + i).mode.Plain?
    ensures GapAt(cfg, open, a + g + b, |a| + |g| + i)
  {
    hide Scan, GapAt, AllSpace, LaidOut;
    assert a[..|a|] == a;
    ScanConcat(Brackets(Mode.Plain, open, true), a, g);
    ScanSpace(Brackets(Mode.Plain, inner, true), g);
    StateBehind(open, a + g, b, inner, i);
    GapOf(cfg, inner, b, i);
    GapShifted(cfg, open, a + g, b, inner, i);
  }

  lemma GapOf(cfg: Config, open: seq<Kind>, t: Text, i: nat)
    requires LaidOut(cfg, open, t) && 0 < i < |t| && At(open, t, i).mode.Plain? && !IsSpace(t[i - 1])
    ensures GapAt(cfg, open, t, i)
  {
    hide At, GapAt;
  }

  // ----- texts without white space -----

  /** Bytes around which no white space belongs. */
  predicate IsBare(b: byte) {
    IsQuiet(b) && b != COMMA && b != COLON
  }

  lemma BareLaidOut(cfg: Config, open: seq<Kind>, t: Text)
    requires t != [] && forall i | 0 <= i < |t| :: IsBare(t[i])
    ensures LaidOut(cfg, open, t)
  {
    hide Scan;
    forall i | 0 < i < |t| && At(open, t, i).mode.Plain? && !IsSpace(t[i - 1])
      ensures GapAt(cfg, open, t, i)
    {
      assert SkipSpace(t, i) == i;
    }
  }

  lemma ByteLaidOut(cfg: Config, open: seq<Kind>, b: byte)
    requires !IsSpace(b)
    ensures LaidOut(cfg, open, [b])
  {
  }

  /** No position inside the escape of a byte is outside the literal. */
  lemma EscapePrefix(html: bool, c: byte, k: nat)
    requires k < |EscapeByte(html, c)|
    ensures !EndMode(Quoted, EscapeByte(html, c)[..k]).Plain?
  {
    var e := EscapeByte(html, c);
    NibbleValue((c as int) / 16);
    NibbleValue((c as int) % 16);
    if k > 2 {
      assert |e| == 6 && e[2] == ZERO && e[3] == ZERO;
      assert forall i | 2 <= i < 6 :: e[i] != QUOTE && e[i] != BACKSLASH;
      assert e[..k] == e[..2] + e[2..k] && e[..2] == [e[0], e[1]];
      EraseConcat(Quoted, e[..2], e[2..k]);
      assert [e[0], e[1]][1..] == [e[1]];
      InsideKept(e[2..k]);
    } else if k == 2 {
      assert e[..k] == [e[0], e[1]] && [e[0], e[1]][1..] == [e[1]] && [e[1]][1..] == [];
      assert EndMode(Quoted, e[..k]) == EndMode(Escaped, [e[1]]) == EndMode(Quoted, []);
    } else if k == 1 {
      assert e[..k] == [e[0]];
    }
  }

  lemma {:induction false} ContentsPrefix(html: bool, s: Text, k: nat)
    requires k <= |Escape(html, s)|
    ensures !EndMode(Quoted, Escape(html, s)[..k]).Plain?
    decreases |s|
  {
    hide EscapeByte;
    if s != [] {
      var e, rest := EscapeByte(html, s[0]), Escape(html, s[1..]);
      if k < |e| {
        EscapePrefix(html, s[0], k);
        assert (e + rest)[..k] == e[..k];
      } else {
        assert (e + rest)[..k] == e + rest[..k - |e|];
        ContentsPrefix(html, s[1..], k - |e|);
        EscapeInside(html, s[0], rest[..k - |e|]);
      }
    }
  }

  lemma {:induction false} ScanMode(s: Brackets, t: Text)
    ensures Scan(s, t).mode == EndMode(s.mode, t)
    decreases |t|
  {
    if t != [] {
      ScanMode(NextBrackets(s, t[0]), t[1..]);
    }
  }

  lemma QuoteLaidOut(cfg: Config, open: seq<Kind>, s: Text)
    ensures LaidOut(cfg, open, Quote(cfg.escapeHTML, s))
  {
    hide Scan, Escape;
    var q, e := Quote(cfg.escapeHTML, s), Escape(cfg.escapeHTML, s);
    forall i | 0 < i < |q|
      ensures !At(open, q, i).mode.Plain?
    {
      ScanMode(Brackets(Mode.Plain, open, true), q[..i]);
      assert q[..i] == [QUOTE] + e[..i - 1] && ([QUOTE] + e[..i - 1])[1..] == e[..i - 1];
      ContentsPrefix(cfg.escapeHTML, s, i - 1);
    }
  }

  // ----- printed values -----

  /** No number is given by an empty text. */
  predicate NumbersThere(v: Val)
    decreases v, 1
  {
    match v
    case Num(t) => t != []
    case Arr(items) => forall i | 0 <= i < |items| :: NumbersThere(items[i])
    case Obj(members) => forall i | 0 <= i < |members| :: NumbersThere(members[i].value)
    case _ => true
  }

  /** Numbers are non-empty texts of number bytes. */
  predicate Numbered(v: Val) {
    NumbersClean(v) && NumbersThere(v)
  }

  /** A text that begins and ends like a value. */
  predicate Edged(t: Text) {
    && t != [] && !IsSpace(t[0]) && !Closes(t[0]) && !IsSpace(t[|t| - 1])
    && t[|t| - 1] != COMMA && t[|t| - 1] != COLON && !Opens(t[|t| - 1])
  }

  lemma EdgedConcat(a: Text, g: Text, b: Text)
    requires Edged(a) && Edged(b)
    ensures Edged(a + g + b)
  {
    var t := a + g + b;
    assert t[0] == a[0] && t[|t| - 1] == b[|b| - 1];
  }

  lemma PrintEdged(cfg: Config, v: Val, level: nat)
    requires Numbered(v)
    ensures Edged(Print(cfg, v, level))
  {
    var t := Print(cfg, v, level);
    match v
    case Arr(items) => assert t[0] == LBRACKET && t[|t| - 1] == RBRACKET;
    case Obj(members) => assert t[0] == LBRACE && t[|t| - 1] == RBRACE;
    case Int(i) => assert t[0] == MINUS || IsDigit(t[0]);
    case Num(_) => assert IsNumberByte(t[0]) && IsNumberByte(t[|t| - 1]);
    case _ =>
  }

  /** A piece leaves the open brackets as they were. */
  lemma PieceKeeps(open: seq<Kind>, t: Text, kept: Text)
    requires Piece(t, kept)
    ensures At(open, t, |t|) == Brackets(Mode.Plain, open, true)
  {
    hide Scan;
    assert t[..|t|] == t;
  }

  lemma NewLineGap(cfg: Config, level: nat, last: byte, next: byte)
    requires Breaks(last, next) && last != COLON
    ensures !Closes(next) ==> Gap(cfg, level, last, next) == NewLine(cfg, level)
    ensures Closes(next) ==> Gap(cfg, level + 1, last, next) == NewLine(cfg, level)
  {
    CopiesRepeat(cfg.indent, level);
  }

  function Bracket(k: Kind): (byte, byte) {
    if k.Array? then (LBRACKET, RBRACKET) else (LBRACE, RBRACE)
  }

  lemma Opened(open: seq<Kind>, k: Kind)
    ensures At(open, [Bracket(k).0], 1) == Brackets(Mode.Plain, open + [k], true)
  {
    var s, b := Brackets(Mode.Plain, open, true), Bracket(k).0;
    assert [b][..1] == [b] && [b][1..] == [];
    assert Scan(s, [b]) == Scan(NextBrackets(s, b), []);
  }

  /** A container around its contents. */
  lemma Wrap(cfg: Config, open: seq<Kind>, k: Kind, x: Text, kept: Text)
    requires SpaceIndent(cfg) && LaidOut(cfg, open + [k], x) && Piece(x, kept) && Edged(x)
    ensures LaidOut(cfg, open,
                    [Bracket(k).0] + NewLine(cfg, |open| + 1) + x + NewLine(cfg, |open|) + [Bracket(k).1])
  {
    hide LaidOut, Scan, Piece, NewLine, Gap;
    var inner, nl, end := open + [k], NewLine(cfg, |open| + 1), NewLine(cfg, |open|);
    var b, c := Bracket(k).0, Bracket(k).1;
    NewLineSpace(cfg, |open| + 1);
    NewLineSpace(cfg, |open|);
    NewLineGap(cfg, |open| + 1, b, x[0]);
    NewLineGap(cfg, |open|, x[|x| - 1], c);
    ByteLaidOut(cfg, open, b);
    ByteLaidOut(cfg, inner, c);
    Opened(open, k);
    Chain(cfg, open, [b], nl, x, inner);
    StateAfter(open, [b], nl, x, inner, kept);
    Chain(cfg, open, [b] + nl + x, end, [c], inner);
  }

  /** The brackets that are open behind a text, white space and a piece. */
  lemma StateAfter(open: seq<Kind>, a: Text, g: Text, b: Text, inner: seq<Kind>, kept: Text)
    requires At(open, a, |a|) == Brackets(Mode.Plain, inner, true) && AllSpace(g) && Piece(b, kept)
    ensures At(open, a + g + b, |a + g + b|) == Brackets(Mode.Plain, inner, true)
  {
    hide Scan;
    var t := a + g + b;
    assert t[..|t|] == t && a[..|a|] == a;
    ScanConcat(Brackets(Mode.Plain, open, true), a + g, b);
    ScanConcat(Brackets(Mode.Plain, open, true), a, g);
    ScanSpace(Brackets(Mode.Plain, inner, true), g);
  }

  lemma EmptyLaidOut(cfg: Config, open: seq<Kind>, k: Kind)
    ensures LaidOut(cfg, open, [Bracket(k).0, Bracket(k).1])
  {
    var b, c, inner := Bracket(k).0, Bracket(k).1, open + [k];
    ByteLaidOut(cfg, open, b);
    ByteLaidOut(cfg, inner, c);
    Opened(open, k);
    hide LaidOut, Scan;
    Chain(cfg, open, [b], [], [c], inner);
    assert [b] + [] + [c] == [b, c];
  }

  lemma ScalarLaidOut(cfg: Config, v: Val, open: seq<Kind>, level: nat)
    requires Numbered(v) && !v.Arr? && !v.Obj?
    ensures LaidOut(cfg, open, Print(cfg, v, level))
  {
    hide LaidOut;
    match v
    case Str(s) => QuoteLaidOut(cfg, open, s);
    case _ => BareLaidOut(cfg, open, Print(cfg, v, level));
  }

  /** The text of a value is laid out inside any brackets, at the level of their number. */
  lemma {:induction false} PrintLaidOut(cfg: Config, v: Val, open: seq<Kind>)
    requires SpaceIndent(cfg) && Numbered(v)
    ensures LaidOut(cfg, open, Print(cfg, v, |open|))
    decreases v, 1
  {
    hide LaidOut, Piece, Edged, SpaceIndent, NewLine;
    match v
    case Arr(items) =>
      if items == [] {
        EmptyLaidOut(cfg, open, Array);
      } else {
        ItemsLaidOut(cfg, items, open + [Array]);
        ItemsPiece(cfg, items, |open| + 1);
        Wrap(cfg, open, Array, PrintItems(cfg, items, |open| + 1), PrintItems(Compact(cfg), items, |open| + 1));
      }
    case Obj(members) =>
      if members == [] {
        EmptyLaidOut(cfg, open, Object);
      } else {
        MembersLaidOut(cfg, members, open + [Object]);
        MembersPiece(cfg, members, |open| + 1);
        Wrap(cfg, open, Object, PrintMembers(cfg, members, |open| + 1),
            PrintMembers(Compact(cfg), members, |open| + 1));
      }
    case _ => ScalarLaidOut(cfg, v, open, |open|);
  }

  /** A value, a comma, a new line and more values. */
  lemma Sequence(cfg: Config, open: seq<Kind>, a: Text, kept: Text, b: Text)
    requires SpaceIndent(cfg) && LaidOut(cfg, open, a) && LaidOut(cfg, open, b) && Piece(a, kept) && Edged(a)
        && Edged(b)
    ensures LaidOut(cfg, open, a + Separator(cfg, |open|) + b) && Edged(a + Separator(cfg, |open|) + b)
  {
    hide LaidOut, Scan, Piece, NewLine, Gap;
    var nl := NewLine(cfg, |open|);
    NewLineSpace(cfg, |open|);
    NewLineGap(cfg, |open|, COMMA, b[0]);
    ByteLaidOut(cfg, open, COMMA);
    PieceKeeps(open, a, kept);
    QuietPiece([COMMA]);
    NoGap(cfg, |open|, a[|a| - 1], COMMA);
    Chain(cfg, open, a, [], [COMMA], open);
    StateAfter(open, a, [], [COMMA], open, [COMMA]);
    Chain(cfg, open, a + [] + [COMMA], nl, b, open);
    assert a + [] + [COMMA] + nl + b == a + Separator(cfg, |open|) + b;
    EdgedConcat(a, Separator(cfg, |open|), b);
  }

  lemma NoGap(cfg: Config, n: nat, last: byte, next: byte)
    requires last != COLON && !Breaks(last, next)
    ensures Gap(cfg, n, last, next) == []
  {
  }

  lemma {:induction false} ItemsLaidOut(cfg: Config, items: seq<Val>, open: seq<Kind>)
    requires items != [] && SpaceIndent(cfg) && Numbered(Arr(items))
    ensures LaidOut(cfg, open, PrintItems(cfg, items, |open|)) && Edged(PrintItems(cfg, items, |open|))
    decreases items, 0
  {
    hide LaidOut, Piece, Edged, SpaceIndent, Separator;
    PrintLaidOut(cfg, items[0], open);
    PrintEdged(cfg, items[0], |open|);
    if |items| > 1 {
      PrintPiece(cfg, items[0], |open|);
      ItemsLaidOut(cfg, items[1..], open);
      Sequence(cfg, open, Print(cfg, items[0], |open|), Print(Compact(cfg), items[0], |open|),
          PrintItems(cfg, items[1..], |open|));
    }
  }

  lemma {:induction false} MembersLaidOut(cfg: Config, members: seq<Member>, open: seq<Kind>)
    requires members != [] && SpaceIndent(cfg) && Numbered(Obj(members))
    ensures LaidOut(cfg, open, PrintMembers(cfg, members, |open|)) && Edged(PrintMembers(cfg, members, |open|))
    decreases members, 0
  {
    hide LaidOut, Piece, Edged, SpaceIndent, Separator, PrintMember;
    MemberLaidOut(cfg, members[0], open);
    if |members| > 1 {
      MemberPiece(cfg, members[0], |open|);
      MembersLaidOut(cfg, members[1..], open);
      Sequence(cfg, open, PrintMember(cfg, members[0], |open|), PrintMember(Compact(cfg), members[0], |open|),
          PrintMembers(cfg, members[1..], |open|));
    }
  }

  lemma {:induction false} MemberLaidOut(cfg: Config, m: Member, open: seq<Kind>)
    requires SpaceIndent(cfg) && Numbered(m.value)
    ensures LaidOut(cfg, open, PrintMember(cfg, m, |open|)) && Edged(PrintMember(cfg, m, |open|))
    decreases m, 2
  {
    hide LaidOut, Piece, SpaceIndent, Scan, Print, Numbered;
    var q, t := Quote(cfg.escapeHTML, KeyText(m.key)), Print(cfg, m.value, |open|);
    var space: Text := if cfg.doIndent then [SPACE] else [];
    QuoteLaidOut(cfg, open, KeyText(m.key));
    QuotePiece(cfg.escapeHTML, KeyText(m.key));
    ByteLaidOut(cfg, open, COLON);
    PrintLaidOut(cfg, m.value, open);
    PrintEdged(cfg, m.value, |open|);
    hide Quote;
    QuoteEdged(cfg.escapeHTML, KeyText(m.key));
    PieceKeeps(open, q, q);
    QuietPiece([COLON]);
    Chain(cfg, open, q, [], [COLON], open);
    StateAfter(open, q, [], [COLON], open, [COLON]);
    Chain(cfg, open, q + [] + [COLON], space, t, open);
    assert q + [] + [COLON] + space + t == q + ColonText(cfg) + t;
    EdgedConcat(q, ColonText(cfg), t);
  }

  lemma QuoteEdged(html: bool, s: Text)
    ensures var q := Quote(html, s); Edged(q) && q[|q| - 1] == QUOTE
  {
  }

  // ----- whole documents -----

  predicate NoLineFeed(t: Text) {
    forall i | 0 <= i < |t| :: t[i] != 0x0A
  }

  /** The indented and the compact text of a document: between any two bytes outside literals there
      is exactly the white space that `Gap` says, with the brackets open at that place. */
  lemma DocumentLaidOut(cfg: Config, v: Val)
    requires White(cfg.prefix) && White(cfg.indent) && Numbered(v)
    ensures LaidOut(cfg, [], Print(cfg, v, 0))
  {
    WhiteIsSpace(cfg.prefix);
    WhiteIsSpace(cfg.indent);
    hide LaidOut, Print;
    PrintLaidOut(cfg, v, []);
  }

  /** Where the white space around a position outside literals begins. */
  lemma {:induction false} GapStart(open: seq<Kind>, t: Text, i: nat) returns (k: nat)
    requires i < |t| && IsSpace(t[i]) && !IsSpace(t[0]) && At(open, t, i).mode.Plain?
    ensures 0 < k <= i && !IsSpace(t[k - 1]) && At(open, t, k) == At(open, t, i)
    ensures SkipSpace(t, k) == SkipSpace(t, i) > i
  {
    k := i;
    if IsSpace(t[i - 1]) {
      var s := Brackets(Mode.Plain, open, true);
      assert t[..i] == t[..i - 1] + [t[i - 1]];
      ScanConcat(s, t[..i - 1], [t[i - 1]]);
      assert [t[i - 1]][1..] == [];
      assert Scan(At(open, t, i - 1), [t[i - 1]]) == NextBrackets(At(open, t, i - 1), t[i - 1]);
      k := GapStart(open, t, i - 1);
    }
  }

  lemma {:induction false} CopiesKeep(t: Text, d: nat)
    requires NoLineFeed(t)
    ensures NoLineFeed(Copies(t, d))
  {
    if d > 0 {
      CopiesKeep(t, d - 1);
      assert seq(d, _ => t)[1..] == seq(d - 1, _ => t);
    }
  }

  lemma PrintBalanced(cfg: Config, v: Val)
    requires SpaceIndent(cfg) && NumbersClean(v)
    ensures Scan(START, Print(cfg, v, 0)) == START
  {
    PrintPiece(cfg, v, 0);
    hide Print, Scan;
    assert START == Brackets(Mode.Plain, [], true);
  }

  /** The lines of an indented document. A line feed outside literals stands exactly where a new line
      has to begin: behind a comma, behind a bracket that does not close at once, and before a closing
      bracket with something before it. Behind it stand the prefix, as many indents as brackets are
      open there, one less before a closing bracket, and then a byte that is no white space. */
  lemma LineFeeds(cfg: Config, v: Val, i: nat)
    requires White(cfg.prefix) && White(cfg.indent) && NoLineFeed(cfg.prefix) && NoLineFeed(cfg.indent)
    requires cfg.doIndent && Numbered(v)
    requires var t := Print(cfg, v, 0); 0 < i < |t| && EndMode(Mode.Plain, t[..i]) == Mode.Plain
    ensures var t, j := Print(cfg, v, 0), SkipSpace(Print(cfg, v, 0), i);
            && j < |t|
            && (t[i] == 0x0A <==> !IsSpace(t[i - 1]) && t[i - 1] != 0x3A && Breaks(t[i - 1], t[j]))
            && (t[i] == 0x0A ==>
                  var d := |Scan(START, t[..i]).open| - if Closes(t[j]) then 1 else 0;
                  d >= 0 && t[i..j] == [0x0A] + cfg.prefix + Copies(cfg.indent, d))
  {
    hide Print, LaidOut, White, Copies, NumbersClean, NumbersThere;
    var t := Print(cfg, v, 0);
    DocumentLaidOut(cfg, v);
    ScanMode(START, t[..i]);
    WhiteIsSpace(cfg.prefix);
    WhiteIsSpace(cfg.indent);
    assert Scan(START, t).balanced by { PrintBalanced(cfg, v); }
    LaidOutLine(cfg, t, i);
  }

  lemma {:induction false} NeverBalanced(s: Brackets, t: Text)
    requires !s.balanced
    ensures !Scan(s, t).balanced
    decreases |t|
  {
    if t != [] {
      NeverBalanced(NextBrackets(s, t[0]), t[1..]);
    }
  }

  /** In a balanced text a bracket that closes has one to close. */
  lemma CloserHasOpener(t: Text, i: nat)
    requires i <= |t| && At([], t, i).mode.Plain? && Scan(START, t).balanced
    requires SkipSpace(t, i) < |t| && Closes(t[SkipSpace(t, i)])
    ensures At([], t, i).open != []
  {
    hide Scan;
    var s, j := At([], t, i), SkipSpace(t, i);
    SkippedIsSpace(t, i);
    assert t == t[..i] + t[i..j] + [t[j]] + t[j + 1..];
    ScanConcat(START, t[..i] + t[i..j] + [t[j]], t[j + 1..]);
    ScanConcat(START, t[..i] + t[i..j], [t[j]]);
    ScanConcat(START, t[..i], t[i..j]);
    ScanSpace(s, t[i..j]);
    OneByte(s, t[j]);
    if s.open == [] {
      NeverBalanced(Scan(s, [t[j]]), t[j + 1..]);
    }
  }

  lemma OneByte(s: Brackets, b: byte)
    ensures Scan(s, [b]) == NextBrackets(s, b)
  {
    assert [b][1..] == [];
    assert Scan(s, [b]) == Scan(NextBrackets(s, b), []);
  }

  lemma LaidOutLine(cfg: Config, t: Text, i: nat)
    requires Scan(START, t).balanced
    requires LaidOut(cfg, [], t) && cfg.doIndent && NoLineFeed(cfg.prefix) && NoLineFeed(cfg.indent)
    requires 0 < i < |t| && At([], t, i).mode.Plain?
    ensures var j := SkipSpace(t, i);
            && j < |t|
            && (t[i] == 0x0A <==> !IsSpace(t[i - 1]) && t[i - 1] != 0x3A && Breaks(t[i - 1], t[j]))
            && (t[i] == 0x0A ==>
                  var d := |Scan(START, t[..i]).open| - if Closes(t[j]) then 1 else 0;
                  d >= 0 && t[i..j] == [0x0A] + cfg.prefix + Copies(cfg.indent, d))
  {
    hide Scan;
    var j := SkipSpace(t, i);
    if IsSpace(t[i]) {
      var k := GapStart([], t, i);
      GapOf(cfg, [], t, k);
      var open := |At([], t, k).open|;
      CopiesKeep(cfg.indent, open);
      if open > 0 {
        CopiesKeep(cfg.indent, open - 1);
      }
      assert t[i] == t[k..j][i - k];
      if Closes(t[j]) {
        CloserHasOpener(t, i);
      }
    } else if !IsSpace(t[i - 1]) {
      GapOf(cfg, [], t, i);
    }
  }

  /** The text that the calls for a document append, in any run of documents. */
  function Appended(cfg: Config, docs: seq<Val>, v: Val): (t: Text)
  {
    var before, after := Run(cfg, EMPTY, DriveAll(docs)).log, Run(cfg, EMPTY, DriveAll(docs) + Drive(v)).log;
    var skip := |before| + if docs == [] then 0 else 1;
    if skip <= |after| then after[skip..] else []
  }

  lemma DrivenText(cfg: Config, docs: seq<Val>, v: Val)
    requires Drivable(cfg, v) && forall i | 0 <= i < |docs| :: Drivable(cfg, docs[i])
    ensures Run(cfg, EMPTY, DriveAll(docs) + Drive(v)).log
         == Run(cfg, EMPTY, DriveAll(docs)).log + (if docs == [] then [] else [0x0A]) + Print(cfg, v, 0)
  {
    hide Print, Run, Drivable, Drive;
    var all := docs + [v];
    assert all[..|docs|] == docs && DriveAll(all) == DriveAll(docs) + Drive(v);
    DocumentsAreLines(cfg, docs);
    DocumentsAreLines(cfg, all);
    assert docs == [] ==> [] + [] + Print(cfg, v, 0) == Print(cfg, v, 0);
  }

  /** What the Write* calls append for a document, behind the line feed after the document before
      it, is laid out by the same rule, in indented and in compact mode. */
  lemma DrivenIsLaidOut(cfg: Config, docs: seq<Val>, v: Val)
    requires White(cfg.prefix) && White(cfg.indent) && Numbered(v)
    requires Drivable(cfg, v) && forall i | 0 <= i < |docs| :: Drivable(cfg, docs[i])
    ensures Run(cfg, EMPTY, DriveAll(docs) + Drive(v)).log
         == Run(cfg, EMPTY, DriveAll(docs)).log + (if docs == [] then [] else [0x0A]) + Appended(cfg, docs, v)
    ensures LaidOut(cfg, [], Appended(cfg, docs, v)) && Scan(START, Appended(cfg, docs, v)) == START
  {
    hide LaidOut, Print, Run, Drivable, Drive, DriveAll, Scan, White, NumbersClean, NumbersThere;
    DrivenText(cfg, docs, v);
    WhiteIsSpace(cfg.prefix);
    WhiteIsSpace(cfg.indent);
    PrintBalanced(cfg, v);
    DocumentLaidOut(cfg, v);
    assert Appended(cfg, docs, v) == Print(cfg, v, 0);
  }

  /** The three words, byte by byte. */
  lemma Words(cfg: Config, level: nat)
    ensures Print(cfg, Null, level) == [0x6E, 0x75, 0x6C, 0x6C]
    ensures Print(cfg, Bool(true), level) == [0x74, 0x72, 0x75, 0x65]
    ensures Print(cfg, Bool(false), level) == [0x66, 0x61, 0x6C, 0x73, 0x65]
  {
  }
}
