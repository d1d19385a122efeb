/** The stream decoder's own scanner on a window of bytes: the end of a value that lies whole in
    the window, the window's end before that of the value, or text that no value goes on with;
    and what it does on printed values. */
module StreamScan {
  import opened Bytes
  import opened Integers
  import opened Strings
  import opened Values
  import opened Parsing
  import opened RoundTrip
  import opened Numerals

  /** What a scanner finds: the end of the value; the end of the window before that of the value;
      or text that no value goes on with. */
  datatype Scan = End(pos: nat) | Short | Bad

  function DigitsEnd(b: Text, p: nat): (r: nat)
    requires p <= |b|
    ensures p <= r <= |b|
    decreases |b| - p
  {
    if p < |b| && IsDigit(b[p]) then DigitsEnd(b, p + 1) else p
  }

  function ScanString(b: Text, p: nat): (r: Scan)
    requires p < |b|
    ensures r.End? ==> p < r.pos <= |b|
  {
    var q := FindQuote(b, p + 1);
    if q < 0 then Short else End(q + 1)
  }

  /** The first of these literals that stands here. */
  function ScanLiteral(b: Text, p: nat, literals: seq<Text>): (r: Scan)
    requires p < |b|
    ensures r.End? ==> p <= r.pos <= |b|
    ensures r.End? && Ascending(literals) ==> p < r.pos && literals != [] && p + |literals[0]| <= |b|
  {
    if literals == [] then Bad
    else if Has(b, p, literals[0]) then End(p + |literals[0]|)
    else if p + |literals[0]| > |b| then Short
    else ScanLiteral(b, p, literals[1..])
  }

  /** Literals that are tried in an order of growing length. */
  predicate Ascending(literals: seq<Text>) {
    literals != [] ==>
      && literals[0] != [] && (|literals| > 1 ==> |literals[0]| <= |literals[1]|)
      && Ascending(literals[1..])
  }

  const TRUE_OR_FALSE: seq<Text> := [TRUE_TEXT, FALSE_TEXT]

  lemma WordsAscend()
    ensures Ascending(TRUE_OR_FALSE) && Ascending([NULL_TEXT])
  {
    assert TRUE_OR_FALSE[1..] == [FALSE_TEXT];
  }

  function ScanInteger(b: Text, p: nat): (r: Scan)
    requires p < |b|
    ensures r.End? ==> p < r.pos <= |b|
  {
    var q := if b[p] == MINUS then p + 1 else p;
    if q == |b| then Short
    else if b[q] == ZERO then End(q + 1)
    else if !IsDigit(b[q]) then Bad
    else
      var end := DigitsEnd(b, q + 1);
      if end == |b| then Short else End(end)
  }

  function ScanFraction(b: Text, p: nat): (r: Scan)
    requires p <= |b|
    ensures r.End? ==> p <= r.pos <= |b|
  {
    if p == |b| || b[p] != DOT then End(p)
    else if p + 1 == |b| then Short
    else if !IsDigit(b[p + 1]) then Bad
    else
      var end := DigitsEnd(b, p + 1);
      if end == |b| then Short else End(end)
  }

  function ScanExponent(b: Text, p: nat): (r: Scan)
    requires p <= |b|
    ensures r.End? ==> p <= r.pos <= |b|
  {
    if p == |b| || !(b[p] == 0x65 || b[p] == 0x45) then End(p)
    else if p + 1 == |b| then Short
    else
      var q := if b[p + 1] == PLUS || b[p + 1] == MINUS then p + 2 else p + 1;
      if q == |b| then Short else if !IsDigit(b[q]) then Bad else End(DigitsEnd(b, q))
  }

  function ScanNumber(b: Text, p: nat): (r: Scan)
    requires p < |b|
    ensures r.End? ==> p < r.pos <= |b|
  {
    match ScanInteger(b, p)
    case End(i) =>
      (match ScanFraction(b, i)
       case End(f) => ScanExponent(b, f)
       case other => other)
    case other => other
  }

  function ScanValue(b: Text, p: nat): (r: Scan)
    requires p <= |b|
    ensures r.End? ==> p < r.pos <= |b|
    decreases |b| - p, 0
  {
    if p == |b| then Short
    else
      var c := b[p];
      if c == QUOTE then ScanString(b, p)
      else if c == LBRACE then ScanObject(b, SkipSpace(b, p + 1))
      else if c == LBRACKET then ScanArray(b, SkipSpace(b, p + 1))
      else if c == 0x74 || c == 0x66 then
        WordsAscend();
        ScanLiteral(b, p, TRUE_OR_FALSE)
      else if c == 0x6E then
        WordsAscend();
        ScanLiteral(b, p, [NULL_TEXT])
      else if StartsNumber(c) then ScanNumber(b, p)
      else Bad
  }

  function ScanArray(b: Text, p: nat): (r: Scan)
    requires p <= |b|
    ensures r.End? ==> p < r.pos <= |b|
    decreases |b| - p, 2
  {
    if At(b, p, RBRACKET) then End(p + 1) else ScanItems(b, p)
  }

  function ScanItems(b: Text, p: nat): (r: Scan)
    requires p <= |b|
    ensures r.End? ==> p < r.pos <= |b|
    decreases |b| - p, 1
  {
    match ScanValue(b, p)
    case End(q) =>
      var e := SkipSpace(b, q);
      if e == |b| then Short
      else if b[e] == RBRACKET then End(e + 1)
      else if b[e] == COMMA then ScanItems(b, SkipSpace(b, e + 1))
      else Bad
    case other => other
  }

  function ScanObject(b: Text, p: nat): (r: Scan)
    requires p <= |b|
    ensures r.End? ==> p < r.pos <= |b|
    decreases |b| - p, 2
  {
    if At(b, p, RBRACE) then End(p + 1) else ScanMembers(b, p)
  }

  function ScanMembers(b: Text, p: nat): (r: Scan)
    requires p <= |b|
    ensures r.End? ==> p < r.pos <= |b|
    decreases |b| - p, 1
  {
    match ScanMember(b, p)
    case End(q) =>
      var e := SkipSpace(b, q);
      if e == |b| then Short
      else if b[e] == RBRACE then End(e + 1)
      else if b[e] == COMMA then ScanMembers(b, SkipSpace(b, e + 1))
      else Bad
    case other => other
  }

  /** A key is skipped like a string whatever its first byte is. */
  function ScanMember(b: Text, p: nat): (r: Scan)
    requires p <= |b|
    ensures r.End? ==> p < r.pos <= |b|
    decreases |b| - p, 0
  {
    if p == |b| then Short
    else
      match ScanString(b, p)
      case End(q) =>
        var e := SkipSpace(b, q);
        if e == |b| then Short
        else if b[e] == COLON then ScanValue(b, SkipSpace(b, e + 1))
        else Bad
      case other => other
  }

  /** At the end of the window everything that is due is cut short. */
  lemma EndIsShort(b: Text)
    ensures ScanValue(b, |b|).Short? && ScanMember(b, |b|).Short? && ScanMembers(b, |b|).Short?
        && ScanItems(b, |b|).Short?
    ensures ScanObject(b, |b|).Short? && ScanArray(b, |b|).Short?
  {
    assert ScanValue(b, |b|).Short? && ScanMember(b, |b|).Short?;
    assert ScanMembers(b, |b|).Short? && ScanItems(b, |b|).Short?;
  }

  /** How a list of members that stays in the window goes on after its first one. */
  lemma MembersGoOn(b: Text, p: nat)
    requires p <= |b| && !ScanMembers(b, p).Short?
    ensures ScanMember(b, p).Bad? ==> ScanMembers(b, p).Bad?
    ensures !ScanMember(b, p).Short?
    ensures ScanMember(b, p).End? ==>
      var e := SkipSpace(b, ScanMember(b, p).pos);
      && e < |b|
      && (b[e] == RBRACE ==> ScanMembers(b, p) == End(e + 1))
      && (b[e] == COMMA ==> SkipSpace(b, e + 1) < |b| && ScanMembers(b, SkipSpace(b, e + 1)) == ScanMembers(b, p))
      && (b[e] != RBRACE && b[e] != COMMA ==> ScanMembers(b, p).Bad?)
  {
    hide SkipSpace;
    EndIsShort(b);
  }

  lemma ItemsGoOn(b: Text, p: nat)
    requires p <= |b| && !ScanItems(b, p).Short?
    ensures ScanValue(b, p).Bad? ==> ScanItems(b, p).Bad?
    ensures !ScanValue(b, p).Short?
    ensures ScanValue(b, p).End? ==>
      var e := SkipSpace(b, ScanValue(b, p).pos);
      && e < |b|
      && (b[e] == RBRACKET ==> ScanItems(b, p) == End(e + 1))
      && (b[e] == COMMA ==> SkipSpace(b, e + 1) < |b| && ScanItems(b, SkipSpace(b, e + 1)) == ScanItems(b, p))
      && (b[e] != RBRACKET && b[e] != COMMA ==> ScanItems(b, p).Bad?)
  {
    hide SkipSpace;
    EndIsShort(b);
  }

  // ----- printed values -----

  /** Numbers are written as the grammar wants them. */
  ghost predicate Numeric(v: Val)
    decreases v, 1
  {
    match v
    case Num(t) => IsNumeral(t)
    case Arr(items) => forall i | 0 <= i < |items| :: Numeric(items[i])
    case Obj(members) => forall i | 0 <= i < |members| :: Numeric(members[i].value)
    case _ => true
  }

  predicate IsNumber(v: Val) {
    v.Int? || v.Num?
  }

  /** A number is only recognised when a byte that ends it is in the window. */
  predicate Terminated(v: Val, b: Text, end: nat) {
    IsNumber(v) ==> end < |b| && !IsNumberByte(b[end])
  }

  lemma {:induction false} DigitsRun(b: Text, p: nat, t: Text)
    requires Has(b, p, t) && (forall i | 0 <= i < |t| :: IsDigit(t[i])) && p + |t| < |b| && !IsDigit(b[p + |t|])
    ensures DigitsEnd(b, p) == p + |t|
    decreases |t|
  {
    if t != [] {
      DigitsRun(b, p + 1, t[1..]);
    }
  }

  lemma ScanIntegerPart(b: Text, p: nat, n: Numeral)
    requires NumeralOk(n) && Has(b, p, IntegerText(n))
    requires p + |IntegerText(n)| < |b| && !IsDigit(b[p + |IntegerText(n)|])
    ensures p < |b| && ScanInteger(b, p) == End(p + |IntegerText(n)|)
  {
    var q := if n.minus then p + 1 else p;
    HasConcat(b, p, if n.minus then [0x2D] else [], n.whole);
    assert Has(b, q, n.whole) && b[q] == n.whole[0];
    DigitsRun(b, q + 1, n.whole[1..]);
  }

  lemma ScanFractionPart(b: Text, p: nat, n: Numeral)
    requires NumeralOk(n) && Has(b, p, FractionText(n)) && p + |FractionText(n)| < |b|
    requires !IsDigit(b[p + |FractionText(n)|]) && b[p + |FractionText(n)|] != DOT
    ensures ScanFraction(b, p) == End(p + |FractionText(n)|)
  {
    if n.fraction.Some? {
      var t := n.fraction.value;
      assert ([0x2E] + t)[1..] == t && Has(b, p + 1, t);
      assert b[p + 1] == t[0];
      DigitsRun(b, p + 1, t);
    }
  }

  lemma ScanExponentPart(b: Text, p: nat, n: Numeral)
    requires NumeralOk(n) && Has(b, p, ExponentText(n)) && p + |ExponentText(n)| < |b|
    requires !IsNumberByte(b[p + |ExponentText(n)|])
    ensures ScanExponent(b, p) == End(p + |ExponentText(n)|)
  {
    if n.exponent.Some? {
      var e := n.exponent.value;
      var head: Text := [if e.upper then 0x45 else 0x65];
      var sign := if e.sign.Some? then [e.sign.value] else [];
      HasConcat(b, p, head + sign, e.digits);
      HasConcat(b, p, head, sign);
      var q := p + 1 + |sign|;
      assert b[p] == head[0] && Has(b, q, e.digits) && b[q] == e.digits[0];
      DigitsRun(b, q, e.digits);
    }
  }

  /** Every number of the grammar, with fraction and exponent or without, is scanned to its end when a
      byte that belongs to no number stands behind it. */
  lemma ScanNumeral(b: Text, p: nat, n: Numeral)
    requires NumeralOk(n) && Has(b, p, NumeralText(n))
    requires p + |NumeralText(n)| < |b| && !IsNumberByte(b[p + |NumeralText(n)|])
    ensures p < |b| && StartsNumber(b[p]) && ScanNumber(b, p) == End(p + |NumeralText(n)|)
  {
    hide Has, IntegerText, FractionText, ExponentText, ScanInteger, ScanFraction, ScanExponent, NumeralOk;
    var x, y, z := IntegerText(n), FractionText(n), ExponentText(n);
    HasConcat(b, p, x + y, z);
    HasConcat(b, p, x, y);
    PartHeads(n);
    FirstByte(b, p, x);
    FirstByte(b, p + |x|, y);
    FirstByte(b, p + |x| + |y|, z);
    ScanIntegerPart(b, p, n);
    ScanFractionPart(b, p + |x|, n);
    ScanExponentPart(b, p + |x| + |y|, n);
  }

  lemma ScanDigits(b: Text, p: nat, n: nat)
    requires Has(b, p, Digits(n)) && p + |Digits(n)| < |b| && !IsNumberByte(b[p + |Digits(n)|])
    ensures p < |b| && ScanInteger(b, p) == End(p + |Digits(n)|)
  {
    var t := Digits(n);
    DigitsValue(n);
    DigitsRun(b, p + 1, t[1..]);
  }

  lemma ScanDecimal(b: Text, p: nat, i: int)
    requires Has(b, p, Decimal(i)) && p + |Decimal(i)| < |b| && !IsNumberByte(b[p + |Decimal(i)|])
    ensures p < |b| && ScanNumber(b, p) == End(p + |Decimal(i)|)
  {
    if i < 0 {
      HasConcat(b, p, [MINUS], Digits(-i));
      ScanDigits(b, p + 1, -i);
      assert !IsDigit(MINUS);
    } else {
      ScanDigits(b, p, i);
    }
  }

  /** An integer that runs to the end of the window: more of it may come, so the scanner reads on. */
  predicate CutInteger(b: Text, p: nat) {
    p < |b|
    && var q := if b[p] == MINUS then p + 1 else p;
       q < |b| && IsDigit(b[q]) && b[q] != ZERO && DigitsEnd(b, q + 1) == |b|
  }

  /** What takes a number on behind its integer part. */
  predicate GoesOn(c: byte) {
    c == DOT || c == 0x65 || c == 0x45
  }

  lemma {:induction false} DigitsToEnd(b: Text, p: nat)
    requires p <= |b| && forall i | p <= i < |b| :: IsDigit(b[i])
    ensures DigitsEnd(b, p) == |b|
    decreases |b| - p
  {
    if p < |b| {
      DigitsToEnd(b, p + 1);
    }
  }

  /** An integer at the end of the window is cut there, unless it is zero. */
  lemma ScanLastInteger(b: Text, p: nat, i: int)
    requires Has(b, p, Decimal(i)) && p + |Decimal(i)| == |b|
    ensures i == 0 ==> ScanValue(b, p) == End(|b|)
    ensures i != 0 ==> ScanValue(b, p) == Short && CutInteger(b, p)
  {
    var t := Decimal(i);
    HasSlice(b, p, t);
    DigitsValue(if i < 0 then -i else i);
    forall k | p < k < |b|
      ensures b[k] == t[k - p] && IsDigit(b[k])
    {
      assert b[p..][k - p] == t[k - p];
    }
    assert b[p] == t[0];
    if i < 0 {
      assert b[p + 1] == Digits(-i)[0];
      DigitsToEnd(b, p + 2);
    } else if i > 0 {
      DigitsToEnd(b, p + 1);
    }
  }

  lemma ScanWords(b: Text, p: nat)
    ensures Has(b, p, TRUE_TEXT) ==> ScanLiteral(b, p, TRUE_OR_FALSE) == End(p + 4)
    ensures Has(b, p, FALSE_TEXT) ==> ScanLiteral(b, p, TRUE_OR_FALSE) == End(p + 5)
    ensures Has(b, p, NULL_TEXT) ==> ScanLiteral(b, p, [NULL_TEXT]) == End(p + 4)
  {
    assert TRUE_OR_FALSE[1..] == [FALSE_TEXT];
    assert Has(b, p, FALSE_TEXT) ==> !Has(b, p, TRUE_TEXT);
    hide Has;
  }

  lemma ScanStart(b: Text, p: nat)
    requires p < |b| && StartsNumber(b[p])
    ensures ScanValue(b, p) == ScanNumber(b, p)
  {
    hide ScanNumber;
  }

  lemma ScanPrintedNumber(b: Text, p: nat, t: Text)
    requires IsNumeral(t) && Has(b, p, t) && p + |t| < |b| && !IsNumberByte(b[p + |t|])
    ensures ScanValue(b, p) == End(p + |t|)
  {
    hide ScanValue, ScanNumber, NumeralText, NumeralOk, Has;
    var n :| NumeralOk(n) && NumeralText(n) == t;
    ScanNumeral(b, p, n);
    ScanStart(b, p);
  }

  lemma ScanPrintedScalar(cfg: Config, v: Val, level: nat, b: Text, p: nat)
    requires IsTree(v) && Numeric(v) && !v.Arr? && !v.Obj?
    requires Has(b, p, Print(cfg, v, level)) && Terminated(v, b, p + |Print(cfg, v, level)|)
    ensures ScanValue(b, p) == End(p + |Print(cfg, v, level)|)
  {
    hide IsNumeral, ScanNumber, ScanString, Quote, Decimal;
    match v
    case Int(i) =>
      ScanDecimal(b, p, i);
      FirstByte(b, p, Decimal(i));
    case Num(t) => ScanPrintedNumber(b, p, t);
    case Str(s) => ScanQuoted(cfg, b, p, s);
    case _ => ScanWords(b, p);
  }

  lemma ScanQuoted(cfg: Config, b: Text, p: nat, s: Text)
    requires Has(b, p, Quote(cfg.escapeHTML, s))
    ensures At(b, p, QUOTE) && ScanString(b, p) == End(p + |Quote(cfg.escapeHTML, s)|)
  {
    var rest := Escape(cfg.escapeHTML, s) + [QUOTE];
    assert Quote(cfg.escapeHTML, s) == [QUOTE] + rest;
    HasConcat(b, p, [QUOTE], rest);
    FindClosingQuote(cfg.escapeHTML, b, p + 1, s);
  }

  ghost predicate Scannable(cfg: Config, v: Val) {
    SpaceIndent(cfg) && IsTree(v) && Numeric(v)
  }

  ghost predicate ItemsScannable(cfg: Config, items: seq<Val>) {
    items != [] ==> Scannable(cfg, items[0]) && ItemsScannable(cfg, items[1..])
  }

  ghost predicate MembersScannable(cfg: Config, members: seq<Member>) {
    members != [] ==> members[0].key.Name? && Scannable(cfg, members[0].value) && MembersScannable(cfg, members[1..])
  }

  lemma {:induction false} ArrayScannable(cfg: Config, items: seq<Val>)
    requires Scannable(cfg, Arr(items))
    ensures ItemsScannable(cfg, items)
  {
    if items != [] {
      ArrayScannable(cfg, items[1..]);
    }
  }

  lemma {:induction false} ObjectScannable(cfg: Config, members: seq<Member>)
    requires Scannable(cfg, Obj(members))
    ensures MembersScannable(cfg, members)
  {
    if members != [] {
      ObjectScannable(cfg, members[1..]);
    }
  }

  lemma ScanHead(cfg: Config, v: Val, level: nat)
    requires Scannable(cfg, v)
    ensures Print(cfg, v, level) != [] && StartsValue(Print(cfg, v, level)[0]) && SpaceIndent(cfg)
  {
    if v.Num? {
      var n :| NumeralOk(n) && NumeralText(n) == v.text;
      PartHeads(n);
    }
  }

  lemma ScanItemsHead(cfg: Config, items: seq<Val>, level: nat)
    requires items != [] && ItemsScannable(cfg, items)
    ensures PrintItems(cfg, items, level) != [] && StartsValue(PrintItems(cfg, items, level)[0]) && SpaceIndent(cfg)
  {
    ScanHead(cfg, items[0], level);
  }

  lemma ScanMembersHead(cfg: Config, members: seq<Member>, level: nat)
    requires members != [] && MembersScannable(cfg, members)
    ensures PrintMembers(cfg, members, level) != [] && PrintMembers(cfg, members, level)[0] == QUOTE && SpaceIndent(cfg)
  {
    assert PrintMember(cfg, members[0], level)[0] == QUOTE;
  }

  /** The scanner stops exactly at the end of a printed value, whatever follows it. */
  lemma {:induction false} ScanPrinted(cfg: Config, v: Val, level: nat, b: Text, p: nat)
    requires Scannable(cfg, v)
    requires Has(b, p, Print(cfg, v, level)) && Terminated(v, b, p + |Print(cfg, v, level)|)
    ensures ScanValue(b, p) == End(p + |Print(cfg, v, level)|)
    decreases v, 1
  {
    match v
    case Arr(items) =>
      ArrayScannable(cfg, items);
      ScanPrintedArray(cfg, items, level, b, p);
    case Obj(members) =>
      ObjectScannable(cfg, members);
      ScanPrintedObject(cfg, members, level, b, p);
    case _ => ScanPrintedScalar(cfg, v, level, b, p);
  }

  lemma EmptyScan(b: Text, p: nat)
    ensures Has(b, p, [LBRACKET, RBRACKET]) ==> ScanValue(b, p) == End(p + 2)
    ensures Has(b, p, [LBRACE, RBRACE]) ==> ScanValue(b, p) == End(p + 2)
  {
    assert [LBRACKET, RBRACKET] == [LBRACKET] + [RBRACKET] && [LBRACE, RBRACE] == [LBRACE] + [RBRACE];
    HasConcat(b, p, [LBRACKET], [RBRACKET]);
    HasConcat(b, p, [LBRACE], [RBRACE]);
    if Has(b, p, [LBRACKET, RBRACKET]) {
      assert At(b, p + 1, RBRACKET) && SkipSpace(b, p + 1) == p + 1;
    }
    if Has(b, p, [LBRACE, RBRACE]) {
      assert At(b, p + 1, RBRACE) && SkipSpace(b, p + 1) == p + 1;
    }
  }

  // ----- single steps of the scanner -----

  lemma ScanArrayStep(b: Text, p: nat, start: nat, end: nat)
    requires At(b, p, LBRACKET) && SkipSpace(b, p + 1) == start && start < |b| && b[start] != RBRACKET
    requires ScanItems(b, start) == End(end)
    ensures ScanValue(b, p) == End(end)
  {
    hide ScanItems;
  }

  lemma ScanObjectStep(b: Text, p: nat, start: nat, end: nat)
    requires At(b, p, LBRACE) && SkipSpace(b, p + 1) == start && start < |b| && b[start] != RBRACE
    requires ScanMembers(b, start) == End(end)
    ensures ScanValue(b, p) == End(end)
  {
    hide ScanMembers;
  }

  lemma ScanLastItem(b: Text, p: nat, q: nat)
    requires p <= |b| && ScanValue(b, p) == End(q) && At(b, SkipSpace(b, q), RBRACKET)
    ensures ScanItems(b, p) == End(SkipSpace(b, q) + 1)
  {
    hide ScanValue;
  }

  lemma ScanMoreItems(b: Text, p: nat, q: nat, next: nat, end: nat)
    requires p <= |b| && ScanValue(b, p) == End(q) && At(b, q, COMMA)
    requires SkipSpace(b, q + 1) == next && ScanItems(b, next) == End(end)
    ensures ScanItems(b, p) == End(end)
  {
    hide ScanValue;
    assert SkipSpace(b, q) == q;
  }

  lemma ScanLastMember(b: Text, p: nat, q: nat)
    requires p <= |b| && ScanMember(b, p) == End(q) && At(b, SkipSpace(b, q), RBRACE)
    ensures ScanMembers(b, p) == End(SkipSpace(b, q) + 1)
  {
    hide ScanMember;
  }

  lemma ScanMoreMembers(b: Text, p: nat, q: nat, next: nat, end: nat)
    requires p <= |b| && ScanMember(b, p) == End(q) && At(b, q, COMMA)
    requires SkipSpace(b, q + 1) == next && ScanMembers(b, next) == End(end)
    ensures ScanMembers(b, p) == End(end)
  {
    hide ScanMember;
    assert SkipSpace(b, q) == q;
  }

  lemma ScanMemberStep(b: Text, p: nat, q: nat, start: nat, end: nat)
    requires p < |b| && ScanString(b, p) == End(q) && At(b, q, COLON)
    requires SkipSpace(b, q + 1) == start && ScanValue(b, start) == End(end)
    ensures ScanMember(b, p) == End(end)
  {
    hide ScanValue, ScanString;
    assert SkipSpace(b, q) == q;
  }

  // ----- containers -----

  lemma {:induction false} ScanPrintedArray(cfg: Config, items: seq<Val>, level: nat, b: Text, p: nat)
    requires SpaceIndent(cfg) && ItemsScannable(cfg, items) && Has(b, p, Print(cfg, Arr(items), level))
    ensures ScanValue(b, p) == End(p + |Print(cfg, Arr(items), level)|)
    decreases items, 1
  {
    hide ScanValue, ScanItems, SkipSpace, Has, BodyAt, Print, PrintItems, NewLine, Scannable;
    ArrayText(cfg, items, level);
    EmptyScan(b, p);
    if items != [] {
      var body, start := PrintItems(cfg, items, level + 1), p + 1 + |NewLine(cfg, level + 1)|;
      ScanItemsHead(cfg, items, level + 1);
      Enter(cfg, b, p, LBRACKET, body, level, RBRACKET);
      ScanPrintedItems(cfg, items, level, b, start);
      ScanArrayStep(b, p, start, BodyEnd(cfg, start, body, level));
    }
  }

  lemma {:induction false} ScanPrintedItems(cfg: Config, items: seq<Val>, level: nat, b: Text, p: nat)
    requires items != [] && ItemsScannable(cfg, items)
    requires BodyAt(cfg, b, p, PrintItems(cfg, items, level + 1), level, RBRACKET)
    ensures ScanItems(b, p) == End(BodyEnd(cfg, p, PrintItems(cfg, items, level + 1), level))
    decreases items, 0
  {
    hide ScanValue, ScanItems, SkipSpace, Has, Scannable, NewLine;
    var head := Print(cfg, items[0], level + 1);
    var q := p + |head|;
    ScanItemsHead(cfg, items, level + 1);
    if |items| == 1 {
      Leave(cfg, b, p, head, level, RBRACKET);
      ScanPrinted(cfg, items[0], level + 1, b, p);
      ScanLastItem(b, p, q);
    } else {
      var rest := PrintItems(cfg, items[1..], level + 1);
      ScanItemsHead(cfg, items[1..], level + 1);
      Advance(cfg, b, p, head, rest, level, RBRACKET);
      ScanPrinted(cfg, items[0], level + 1, b, p);
      var next := q + |Separator(cfg, level + 1)|;
      ScanPrintedItems(cfg, items[1..], level, b, next);
      ScanMoreItems(b, p, q, next, BodyEnd(cfg, next, rest, level));
    }
  }

  lemma {:induction false} ScanPrintedObject(cfg: Config, members: seq<Member>, level: nat, b: Text, p: nat)
    requires SpaceIndent(cfg) && MembersScannable(cfg, members) && Has(b, p, Print(cfg, Obj(members), level))
    ensures ScanValue(b, p) == End(p + |Print(cfg, Obj(members), level)|)
    decreases members, 1
  {
    hide ScanValue, ScanMembers, SkipSpace, Has, BodyAt, Print, PrintMembers, NewLine, Scannable;
    ObjectText(cfg, members, level);
    EmptyScan(b, p);
    if members != [] {
      var body, start := PrintMembers(cfg, members, level + 1), p + 1 + |NewLine(cfg, level + 1)|;
      ScanMembersHead(cfg, members, level + 1);
      Enter(cfg, b, p, LBRACE, body, level, RBRACE);
      ScanPrintedMembers(cfg, members, level, b, start);
      ScanObjectStep(b, p, start, BodyEnd(cfg, start, body, level));
    }
  }

  lemma {:induction false} ScanPrintedMembers(cfg: Config, members: seq<Member>, level: nat, b: Text, p: nat)
    requires members != [] && MembersScannable(cfg, members)
    requires BodyAt(cfg, b, p, PrintMembers(cfg, members, level + 1), level, RBRACE)
    ensures ScanMembers(b, p) == End(BodyEnd(cfg, p, PrintMembers(cfg, members, level + 1), level))
    decreases members, 0
  {
    hide ScanValue, ScanMembers, ScanMember, SkipSpace, Has, Scannable, NewLine, PrintMember;
    var head := PrintMember(cfg, members[0], level + 1);
    var q := p + |head|;
    ScanMembersHead(cfg, members, level + 1);
    if |members| == 1 {
      Leave(cfg, b, p, head, level, RBRACE);
      ScanPrintedMember(cfg, members[0], level + 1, b, p);
      ScanLastMember(b, p, q);
    } else {
      var rest := PrintMembers(cfg, members[1..], level + 1);
      ScanMembersHead(cfg, members[1..], level + 1);
      Advance(cfg, b, p, head, rest, level, RBRACE);
      ScanPrintedMember(cfg, members[0], level + 1, b, p);
      var next := q + |Separator(cfg, level + 1)|;
      ScanPrintedMembers(cfg, members[1..], level, b, next);
      ScanMoreMembers(b, p, q, next, BodyEnd(cfg, next, rest, level));
    }
  }

  /** The key and its colon, and the white space after it. */
  lemma ScanKey(cfg: Config, key: Text, b: Text, p: nat)
    requires Has(b, p, Quote(cfg.escapeHTML, key) + ColonText(cfg))
    requires var next := p + |Quote(cfg.escapeHTML, key)| + |ColonText(cfg)|; next < |b| && !IsSpace(b[next])
    ensures var q := p + |Quote(cfg.escapeHTML, key)|;
            && p < |b| && ScanString(b, p) == End(q) && At(b, q, COLON)
            && SkipSpace(b, q + 1) == q + |ColonText(cfg)|
  {
    var q := Quote(cfg.escapeHTML, key);
    HasConcat(b, p, q, ColonText(cfg));
    ScanQuoted(cfg, b, p, key);
    KeyRoundTrip(cfg, key, b, p);
    hide Quote, ScanString;
  }

  lemma {:induction false} ScanPrintedMember(cfg: Config, m: Member, level: nat, b: Text, p: nat)
    requires m.key.Name? && Scannable(cfg, m.value)
    requires Has(b, p, PrintMember(cfg, m, level)) && Terminated(m.value, b, p + |PrintMember(cfg, m, level)|)
    ensures ScanMember(b, p) == End(p + |PrintMember(cfg, m, level)|)
    decreases m, 2
  {
    hide ScanValue, ScanString, ScanMember, Quote, SkipSpace, ColonText, Scannable, Print, Has, Terminated;
    var key, value := Quote(cfg.escapeHTML, m.key.s) + ColonText(cfg), Print(cfg, m.value, level);
    ScanHead(cfg, m.value, level);
    assert PrintMember(cfg, m, level) == key + value;
    hide PrintMember;
    HasConcat(b, p, key, value);
    FirstByte(b, p + |key|, value);
    ScanKey(cfg, m.key.s, b, p);
    ScanPrinted(cfg, m.value, level, b, p + |key|);
    ScanMemberStep(b, p, p + |key| - |ColonText(cfg)|, p + |key|, p + |key| + |value|);
  }
}
