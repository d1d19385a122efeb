/** Whatever the encoder prints, compact or indented with white space, is decoded to the same
    tree, consuming exactly the printed bytes. */
module RoundTrip {
  import opened Bytes
  import opened Integers
  import opened Strings
  import opened Values
  import opened Utf8
  import Reflection
  import opened Parsing

  /** The numbers of a tree survive: integers fit int64, other numbers are texts the decoder
      reads as one non-integer token. */
  predicate Decodable(v: Val, floats: Floats)
    decreases v, 1
  {
    match v
    case Int(i) => MIN_INT64 <= i <= MAX_INT64
    case Num(t) =>
      && t != [] && StartsNumber(t[0]) && (forall i | 0 <= i < |t| :: IsNumberByte(t[i]))
      && !IsInteger(t) && FloatValue(floats, t) == Some(Num(t))
    case Arr(items) => forall i | 0 <= i < |items| :: Decodable(items[i], floats)
    case Obj(members) => forall i | 0 <= i < |members| :: Decodable(members[i].value, floats)
    case _ => true
  }

  /** A number must not run into what follows it. */
  predicate EndsAt(v: Val, data: Text, end: nat) {
    v.Int? || v.Num? ==> end < |data| ==> !IsNumberByte(data[end])
  }

  /** Everything the round trip asks of a value that is printed and then decoded at `depth`. */
  predicate Ready(cfg: Config, v: Val, depth: nat, opt: Options) {
    && SpaceIndent(cfg) && !opt.useNumber
    && IsTree(v) && Decodable(v, opt.floats) && depth + Height(v) <= opt.maxDepth
  }

  predicate ItemsReady(cfg: Config, items: seq<Val>, depth: nat, opt: Options) {
    items != [] ==> Ready(cfg, items[0], depth, opt) && ItemsReady(cfg, items[1..], depth, opt)
  }

  predicate MembersReady(cfg: Config, members: seq<Member>, depth: nat, opt: Options) {
    members != [] ==>
      && members[0].key.Name? && Ready(cfg, members[0].value, depth, opt)
      && MembersReady(cfg, members[1..], depth, opt)
  }

  lemma {:induction false} ArrayReady(cfg: Config, items: seq<Val>, depth: nat, opt: Options)
    requires Ready(cfg, Arr(items), depth, opt)
    ensures ItemsReady(cfg, items, depth + 1, opt)
  {
    if items != [] {
      assert ItemsHeight(items) >= Height(items[0]) && ItemsHeight(items) >= ItemsHeight(items[1..]);
      ArrayReady(cfg, items[1..], depth, opt);
    }
  }

  lemma {:induction false} ObjectReady(cfg: Config, members: seq<Member>, depth: nat, opt: Options)
    requires Ready(cfg, Obj(members), depth, opt)
    ensures MembersReady(cfg, members, depth + 1, opt)
  {
    if members != [] {
      assert MembersHeight(members) >= MemberHeight(members[0])
          && MembersHeight(members) >= MembersHeight(members[1..]);
      ObjectReady(cfg, members[1..], depth, opt);
    }
  }

  predicate StartsValue(c: byte) {
    c == LBRACE || c == LBRACKET || c == QUOTE || c == 0x74 || c == 0x66 || c == 0x6E || StartsNumber(c)
  }

  lemma PrintHead(cfg: Config, v: Val, level: nat, depth: nat, opt: Options)
    requires Ready(cfg, v, depth, opt)
    ensures Print(cfg, v, level) != [] && StartsValue(Print(cfg, v, level)[0]) && SpaceIndent(cfg)
  {
  }

  lemma ItemsHead(cfg: Config, items: seq<Val>, level: nat, depth: nat, opt: Options)
    requires items != [] && ItemsReady(cfg, items, depth, opt)
    ensures PrintItems(cfg, items, level) != [] && StartsValue(PrintItems(cfg, items, level)[0]) && SpaceIndent(cfg)
  {
    PrintHead(cfg, items[0], level, depth, opt);
  }

  lemma MembersHead(cfg: Config, members: seq<Member>, level: nat, depth: nat, opt: Options)
    requires members != [] && MembersReady(cfg, members, depth, opt)
    ensures PrintMembers(cfg, members, level) != [] && PrintMembers(cfg, members, level)[0] == QUOTE && SpaceIndent(cfg)
  {
    assert PrintMember(cfg, members[0], level)[0] == QUOTE;
  }

  lemma HasSplit3(data: Text, pos: nat, a: Text, b: Text, c: Text)
    requires Has(data, pos, a + b + c)
    ensures Has(data, pos, a) && Has(data, pos + |a|, b) && Has(data, pos + |a| + |b|, c)
  {
    HasConcat(data, pos, a + b, c);
    HasConcat(data, pos, a, b);
  }

  lemma HasSplit5(data: Text, pos: nat, a: Text, b: Text, c: Text, d: Text, e: Text)
    requires Has(data, pos, a + b + c + d + e)
    ensures Has(data, pos, a) && Has(data, pos + |a|, b) && Has(data, pos + |a| + |b|, c)
    ensures Has(data, pos + |a| + |b| + |c|, d) && Has(data, pos + |a| + |b| + |c| + |d|, e)
  {
    HasSplit3(data, pos, a + b + c, d, e);
    HasSplit3(data, pos, a, b, c);
  }

  /** White space followed by a byte that is none. */
  lemma SkipTo(data: Text, pos: nat, w: Text, b: byte)
    requires Has(data, pos, w) && AllSpace(w) && At(data, pos + |w|, b) && !IsSpace(b)
    ensures SkipSpace(data, pos) == pos + |w|
  {
    SkipSpaceOver(data, pos, w);
  }

  lemma {:induction false} StringRoundTrip(html: bool, data: Text, pos: nat, s: Text)
    requires Has(data, pos, Quote(html, s))
    ensures At(data, pos, QUOTE) && ParseString(data, pos) == Ok(s, pos + |Quote(html, s)|)
  {
    hide Escape, Unescape, FindQuote;
    var e := Escape(html, s);
    assert Quote(html, s) == [QUOTE] + (e + [QUOTE]);
    HasConcat(data, pos, [QUOTE], e + [QUOTE]);
    FindClosingQuote(html, data, pos + 1, s);
    HasConcat(data, pos + 1, e, [QUOTE]);
    HasSlice(data, pos + 1, e);
    UnescapeEscape(html, s);
  }

  /** The text of an integer key is read back, and is the text of that integer. */
  lemma IntegerKeyRoundTrip(html: bool, data: Text, pos: nat, i: int)
    requires MIN_INT64 <= i <= MAX_INT64 && Has(data, pos, Quote(html, KeyText(IntKey(i))))
    ensures At(data, pos, QUOTE) && ParseString(data, pos).Ok? && ParseInt(ParseString(data, pos).value) == Some(i)
  {
    StringRoundTrip(html, data, pos, KeyText(IntKey(i)));
    ParseDecimal(i);
  }

  lemma {:induction false} NumberRun(data: Text, pos: nat, t: Text)
    requires Has(data, pos, t) && forall i | 0 <= i < |t| :: IsNumberByte(t[i])
    requires pos + |t| < |data| ==> !IsNumberByte(data[pos + |t|])
    ensures pos + |t| <= |data| && NumberEnd(data, pos) == pos + |t|
    decreases |t|
  {
    if t != [] {
      NumberRun(data, pos + 1, t[1..]);
    }
  }

  lemma NumberToken(data: Text, pos: nat, t: Text)
    requires Has(data, pos, t) && forall i | 0 <= i < |t| :: IsNumberByte(t[i])
    requires pos + |t| < |data| ==> !IsNumberByte(data[pos + |t|])
    ensures pos + |t| <= |data| && NumberEnd(data, pos) == pos + |t| && data[pos..NumberEnd(data, pos)] == t
  {
    NumberRun(data, pos, t);
    HasSlice(data, pos, t);
  }

  lemma StringStep(data: Text, pos: nat, depth: nat, opt: Options, s: Text, end: nat)
    requires At(data, pos, QUOTE) && ParseString(data, pos) == Ok(s, end)
    ensures ParseValue(data, pos, depth, opt) == Ok(Str(s), end)
  {
    hide ParseString, ParseObject, ParseArray;
    assert SkipSpace(data, pos) == pos;
  }

  lemma NumberStep(data: Text, pos: nat, depth: nat, opt: Options, v: Val, end: nat)
    requires pos < |data| && StartsNumber(data[pos]) && ParseNumber(data, pos, opt) == Ok(v, end)
    ensures ParseValue(data, pos, depth, opt) == Ok(v, end)
  {
    hide ParseNumber, ParseObject, ParseArray;
    assert SkipSpace(data, pos) == pos;
  }

  lemma IntegerRoundTrip(data: Text, pos: nat, depth: nat, opt: Options, i: int)
    requires MIN_INT64 <= i <= MAX_INT64 && !opt.useNumber && Has(data, pos, Decimal(i))
    requires pos + |Decimal(i)| < |data| ==> !IsNumberByte(data[pos + |Decimal(i)|])
    ensures ParseValue(data, pos, depth, opt) == Ok(Int(i), pos + |Decimal(i)|)
  {
    var t := Decimal(i);
    hide ParseValue, ParseInt, Decimal, NumberEnd;
    NumberToken(data, pos, t);
    ParseDecimal(i);
    assert IsInteger(t);
    NumberStep(data, pos, depth, opt, Int(i), pos + |t|);
  }

  lemma TokenRoundTrip(data: Text, pos: nat, depth: nat, opt: Options, t: Text)
    requires !opt.useNumber && Has(data, pos, t) && t != [] && StartsNumber(t[0])
    requires (forall i | 0 <= i < |t| :: IsNumberByte(t[i])) && !IsInteger(t)
        && FloatValue(opt.floats, t) == Some(Num(t))
    requires pos + |t| < |data| ==> !IsNumberByte(data[pos + |t|])
    ensures ParseValue(data, pos, depth, opt) == Ok(Num(t), pos + |t|)
  {
    hide ParseValue, ParseInt, NumberEnd, IsInteger;
    NumberToken(data, pos, t);
    NumberStep(data, pos, depth, opt, Num(t), pos + |t|);
  }

  lemma WordRoundTrip(data: Text, pos: nat, depth: nat, opt: Options)
    ensures Has(data, pos, TRUE_TEXT) ==> ParseValue(data, pos, depth, opt) == Ok(Bool(true), pos + 4)
    ensures Has(data, pos, FALSE_TEXT) ==> ParseValue(data, pos, depth, opt) == Ok(Bool(false), pos + 5)
    ensures Has(data, pos, NULL_TEXT) ==> ParseValue(data, pos, depth, opt) == Ok(Null, pos + 4)
  {
    hide ParseObject, ParseArray, ParseString, ParseNumber;
  }

  lemma ScalarRoundTrip(cfg: Config, v: Val, level: nat, data: Text, pos: nat, depth: nat, opt: Options)
    requires Ready(cfg, v, depth, opt) && !v.Arr? && !v.Obj?
    requires Has(data, pos, Print(cfg, v, level)) && EndsAt(v, data, pos + |Print(cfg, v, level)|)
    ensures ParseValue(data, pos, depth, opt) == Ok(v, pos + |Print(cfg, v, level)|)
  {
    hide ParseValue, ParseString, Has, Quote;
    match v
    case Str(s) =>
      StringRoundTrip(cfg.escapeHTML, data, pos, s);
      StringStep(data, pos, depth, opt, s, pos + |Quote(cfg.escapeHTML, s)|);
    case Int(i) => IntegerRoundTrip(data, pos, depth, opt, i);
    case Num(t) => TokenRoundTrip(data, pos, depth, opt, t);
    case _ => WordRoundTrip(data, pos, depth, opt);
  }

  /** The round trip at any place of any document. */
  lemma {:induction false} ValueRoundTrip(cfg: Config, v: Val, level: nat, data: Text, pos: nat, depth: nat,
      opt: Options)
    requires Ready(cfg, v, depth, opt)
    requires Has(data, pos, Print(cfg, v, level)) && EndsAt(v, data, pos + |Print(cfg, v, level)|)
    ensures ParseValue(data, pos, depth, opt) == Ok(v, pos + |Print(cfg, v, level)|)
    decreases v, 1
  {
    match v
    case Arr(items) =>
      ArrayReady(cfg, items, depth, opt);
      ArrayRoundTrip(cfg, items, level, data, pos, depth, opt);
    case Obj(members) =>
      ObjectReady(cfg, members, depth, opt);
      ObjectRoundTrip(cfg, members, level, data, pos, depth, opt);
    case _ => ScalarRoundTrip(cfg, v, level, data, pos, depth, opt);
  }

  // ----- single steps of the parser -----

  /** An opening bracket, white space, and elements. */
  lemma {:induction false} ArrayStep(data: Text, pos: nat, depth: nat, opt: Options, start: nat, vs: seq<Val>, end: nat)
    requires At(data, pos, LBRACKET) && depth < opt.maxDepth
    requires SkipSpace(data, pos + 1) == start && start < |data| && data[start] != RBRACKET
    requires ParseItems(data, start, depth + 1, opt) == Ok(vs, end)
    ensures ParseValue(data, pos, depth, opt) == Ok(Arr(vs), end)
  {
    hide ParseItems;
    assert ParseArray(data, pos + 1, depth + 1, opt) == Ok(vs, end);
  }

  lemma {:induction false} ObjectStep(data: Text, pos: nat, depth: nat, opt: Options, start: nat, ms: seq<Member>,
      end: nat)
    requires At(data, pos, LBRACE) && depth < opt.maxDepth
    requires SkipSpace(data, pos + 1) == start && start < |data| && data[start] != RBRACE
    requires ParseMembers(data, start, depth + 1, opt) == Ok(ms, end)
    ensures ParseValue(data, pos, depth, opt) == Ok(Obj(ms), end)
  {
    hide ParseMembers;
    assert ParseObject(data, pos + 1, depth + 1, opt) == Ok(ms, end);
  }

  lemma EmptyStep(data: Text, pos: nat, depth: nat, opt: Options)
    requires depth < opt.maxDepth
    ensures Has(data, pos, [LBRACKET, RBRACKET]) ==> ParseValue(data, pos, depth, opt) == Ok(Arr([]), pos + 2)
    ensures Has(data, pos, [LBRACE, RBRACE]) ==> ParseValue(data, pos, depth, opt) == Ok(Obj([]), pos + 2)
  {
    assert [LBRACKET, RBRACKET] == [LBRACKET] + [RBRACKET] && [LBRACE, RBRACE] == [LBRACE] + [RBRACE];
    HasConcat(data, pos, [LBRACKET], [RBRACKET]);
    HasConcat(data, pos, [LBRACE], [RBRACE]);
    if Has(data, pos, [LBRACKET, RBRACKET]) {
      assert At(data, pos + 1, RBRACKET) && SkipSpace(data, pos + 1) == pos + 1;
    }
    if Has(data, pos, [LBRACE, RBRACE]) {
      assert At(data, pos + 1, RBRACE) && SkipSpace(data, pos + 1) == pos + 1;
    }
  }

  lemma LastItem(data: Text, pos: nat, depth: nat, opt: Options, v: Val, p: nat)
    requires pos <= |data| && ParseValue(data, pos, depth, opt) == Ok(v, p)
    requires At(data, SkipSpace(data, p), RBRACKET)
    ensures ParseItems(data, pos, depth, opt) == Ok([v], SkipSpace(data, p) + 1)
  {
    hide ParseValue, SkipSpace;
  }

  lemma NoSpace(data: Text, p: nat)
    requires p < |data| && !IsSpace(data[p])
    ensures SkipSpace(data, p) == p
  {
  }

  lemma {:induction false} SameValueAt(data: Text, a: nat, b: nat, depth: nat, opt: Options)
    requires a <= |data| && b <= |data| && SkipSpace(data, a) == SkipSpace(data, b)
    ensures ParseValue(data, a, depth, opt) == ParseValue(data, b, depth, opt)
  {
    hide ParseObject, ParseArray, ParseString, ParseBool, ParseNull, ParseNumber;
  }

  /** White space before an element does not matter. */
  lemma {:induction false} SameItems(data: Text, a: nat, b: nat, depth: nat, opt: Options)
    requires a <= |data| && b <= |data| && SkipSpace(data, a) == SkipSpace(data, b)
    ensures ParseItems(data, a, depth, opt) == ParseItems(data, b, depth, opt)
  {
    hide ParseValue, SkipSpace;
    SameValueAt(data, a, b, depth, opt);
  }

  /** An element, a comma, and the other elements; white space after the comma does not matter. */
  lemma {:induction false} MoreItems(data: Text, pos: nat, depth: nat, opt: Options, v: Val, p: nat, next: nat,
      vs: seq<Val>, end: nat)
    requires pos <= |data| && ParseValue(data, pos, depth, opt) == Ok(v, p)
    requires At(data, p, COMMA) && next <= |data| && SkipSpace(data, p + 1) == SkipSpace(data, next)
    requires ParseItems(data, next, depth, opt) == Ok(vs, end)
    ensures ParseItems(data, pos, depth, opt) == Ok([v] + vs, end)
  {
    hide ParseValue, SkipSpace;
    SameItems(data, p + 1, next, depth, opt);
    NoSpace(data, p);
    hide ParseValue;
  }

  lemma LastMember(data: Text, pos: nat, depth: nat, opt: Options, m: Member, p: nat)
    requires pos <= |data| && ParseMember(data, pos, depth, opt) == Ok(m, p)
    requires At(data, SkipSpace(data, p), RBRACE)
    ensures ParseMembers(data, pos, depth, opt) == Ok([m], SkipSpace(data, p) + 1)
  {
    hide ParseMember, SkipSpace;
  }

  lemma SameKey(data: Text, a: nat, b: nat)
    requires a <= |data| && b <= |data| && SkipSpace(data, a) == SkipSpace(data, b)
    ensures ParseKey(data, a) == ParseKey(data, b)
  {
  }

  /** White space before a key does not matter. */
  lemma SameMembers(data: Text, a: nat, b: nat, depth: nat, opt: Options)
    requires a <= |data| && b <= |data| && SkipSpace(data, a) == SkipSpace(data, b)
    ensures ParseMembers(data, a, depth, opt) == ParseMembers(data, b, depth, opt)
  {
    hide ParseKey, ParseValue, SkipSpace;
    SameKey(data, a, b);
    assert ParseMember(data, a, depth, opt) == ParseMember(data, b, depth, opt);
  }

  lemma {:induction false} MoreMembers(data: Text, pos: nat, depth: nat, opt: Options, m: Member, p: nat, next: nat,
      ms: seq<Member>, end: nat)
    requires pos <= |data| && ParseMember(data, pos, depth, opt) == Ok(m, p)
    requires At(data, p, COMMA) && next <= |data| && SkipSpace(data, p + 1) == SkipSpace(data, next)
    requires ParseMembers(data, next, depth, opt) == Ok(ms, end)
    ensures ParseMembers(data, pos, depth, opt) == Ok([m] + ms, end)
  {
    hide ParseMember, SkipSpace;
    SameMembers(data, p + 1, next, depth, opt);
    NoSpace(data, p);
  }

  lemma MemberStep(data: Text, pos: nat, depth: nat, opt: Options, key: Text, p: nat, v: Val, end: nat)
    requires pos <= |data| && ParseKey(data, pos) == Ok(key, p)
    requires ParseValue(data, SkipSpace(data, p), depth, opt) == Ok(v, end)
    ensures ParseMember(data, pos, depth, opt) == Ok(Member(Name(key), v), end)
  {
    hide ParseKey, ParseValue, SkipSpace;
  }

  // ----- containers -----

  /** At `pos` stand the body of a container, its last line break and its closing bracket. */
  predicate BodyAt(cfg: Config, data: Text, pos: nat, body: Text, level: nat, b: byte) {
    && Has(data, pos, body)
    && Has(data, pos + |body|, NewLine(cfg, level))
    && Has(data, pos + |body| + |NewLine(cfg, level)|, [b])
  }

  /** Where the container with this body ends. */
  function BodyEnd(cfg: Config, pos: nat, body: Text, level: nat): nat {
    pos + |body| + |NewLine(cfg, level)| + 1
  }

  /** Entering a container that is not empty. */
  lemma Enter(cfg: Config, data: Text, pos: nat, open: byte, body: Text, level: nat, b: byte)
    requires SpaceIndent(cfg) && body != [] && !IsSpace(body[0])
    requires Has(data, pos, [open] + NewLine(cfg, level + 1) + body + NewLine(cfg, level) + [b])
    ensures var start := pos + 1 + |NewLine(cfg, level + 1)|;
            At(data, pos, open) && At(data, start, body[0]) && SkipSpace(data, pos + 1) == start
                && BodyAt(cfg, data, start, body, level, b)
  {
    var nl, close := NewLine(cfg, level + 1), NewLine(cfg, level);
    HasSplit5(data, pos, [open], nl, body, close, [b]);
    NewLineSpace(cfg, level + 1);
    SkipTo(data, pos + 1, nl, body[0]);
  }

  /** The element before a separator, and the body of the remaining elements. */
  lemma {:induction false} Advance(cfg: Config, data: Text, pos: nat, head: Text, rest: Text, level: nat, b: byte)
    requires SpaceIndent(cfg) && rest != [] && !IsSpace(rest[0])
    requires BodyAt(cfg, data, pos, head + Separator(cfg, level + 1) + rest, level, b)
    ensures var p, next := pos + |head|, pos + |head| + |Separator(cfg, level + 1)|;
            && Has(data, pos, head) && At(data, p, COMMA) && next <= |data|
            && SkipSpace(data, p + 1) == SkipSpace(data, next) == next
            && BodyAt(cfg, data, next, rest, level, b)
            && BodyEnd(cfg, next, rest, level) == BodyEnd(cfg, pos, head + Separator(cfg, level + 1) + rest, level)
  {
    var sep, nl := Separator(cfg, level + 1), NewLine(cfg, level + 1);
    var p := pos + |head|;
    HasSplit3(data, pos, head, sep, rest);
    HasConcat(data, p, [COMMA], nl);
    NewLineSpace(cfg, level + 1);
    SkipTo(data, p + 1, nl, rest[0]);
  }

  /** The last element and the end of the container. */
  lemma Leave(cfg: Config, data: Text, pos: nat, body: Text, level: nat, b: byte)
    requires SpaceIndent(cfg) && BodyAt(cfg, data, pos, body, level, b)
    requires b == RBRACKET || b == RBRACE
    ensures var p := pos + |body|;
            && p < |data| && (data[p] == b || IsSpace(data[p]))
            && At(data, SkipSpace(data, p), b) && SkipSpace(data, p) + 1 == BodyEnd(cfg, pos, body, level)
  {
    var p, nl := pos + |body|, NewLine(cfg, level);
    NewLineSpace(cfg, level);
    SkipTo(data, p, nl, b);
    assert nl != [] ==> IsSpace(nl[0]) && data[p] == nl[0];
  }

  lemma ArrayText(cfg: Config, items: seq<Val>, level: nat)
    ensures Print(cfg, Arr(items), level)
         == if items == [] then [LBRACKET, RBRACKET]
            else
              [LBRACKET] + NewLine(cfg, level + 1) + PrintItems(cfg, items, level + 1)
              + NewLine(cfg, level) + [RBRACKET]
  {
  }

  lemma ObjectText(cfg: Config, members: seq<Member>, level: nat)
    ensures Print(cfg, Obj(members), level)
         == if members == [] then [LBRACE, RBRACE]
            else
              [LBRACE] + NewLine(cfg, level + 1) + PrintMembers(cfg, members, level + 1)
              + NewLine(cfg, level) + [RBRACE]
  {
  }

  lemma {:induction false} ArrayRoundTrip(cfg: Config, items: seq<Val>, level: nat, data: Text, pos: nat, depth: nat,
      opt: Options)
    requires depth < opt.maxDepth && SpaceIndent(cfg) && ItemsReady(cfg, items, depth + 1, opt)
    requires Has(data, pos, Print(cfg, Arr(items), level))
    ensures ParseValue(data, pos, depth, opt) == Ok(Arr(items), pos + |Print(cfg, Arr(items), level)|)
    decreases items, 1
  {
    hide ParseValue, ParseItems, SkipSpace, Has, BodyAt, Print, PrintItems, NewLine, Ready;
    ArrayText(cfg, items, level);
    EmptyStep(data, pos, depth, opt);
    if items != [] {
      var body, start := PrintItems(cfg, items, level + 1), pos + 1 + |NewLine(cfg, level + 1)|;
      ItemsHead(cfg, items, level + 1, depth + 1, opt);
      Enter(cfg, data, pos, LBRACKET, body, level, RBRACKET);
      ItemsRoundTrip(cfg, items, level, data, start, depth + 1, opt);
      ArrayStep(data, pos, depth, opt, start, items, BodyEnd(cfg, start, body, level));
    }
  }

  lemma {:induction false} ItemsRoundTrip(cfg: Config, items: seq<Val>, level: nat, data: Text, pos: nat, depth: nat,
      opt: Options)
    requires items != [] && ItemsReady(cfg, items, depth, opt)
    requires BodyAt(cfg, data, pos, PrintItems(cfg, items, level + 1), level, RBRACKET)
    ensures ParseItems(data, pos, depth, opt) == Ok(items, BodyEnd(cfg, pos, PrintItems(cfg, items, level + 1), level))
    decreases items, 0
  {
    hide ParseValue, ParseItems, SkipSpace, Has, Ready, NewLine;
    var head := Print(cfg, items[0], level + 1);
    var p := pos + |head|;
    ItemsHead(cfg, items, level + 1, depth, opt);
    if |items| == 1 {
      Leave(cfg, data, pos, head, level, RBRACKET);
      ValueRoundTrip(cfg, items[0], level + 1, data, pos, depth, opt);
      LastItem(data, pos, depth, opt, items[0], p);
      assert items == [items[0]];
    } else {
      var rest := PrintItems(cfg, items[1..], level + 1);
      ItemsHead(cfg, items[1..], level + 1, depth, opt);
      Advance(cfg, data, pos, head, rest, level, RBRACKET);
      ValueRoundTrip(cfg, items[0], level + 1, data, pos, depth, opt);
      var next := p + |Separator(cfg, level + 1)|;
      ItemsRoundTrip(cfg, items[1..], level, data, next, depth, opt);
      MoreItems(data, pos, depth, opt, items[0], p, next, items[1..], BodyEnd(cfg, next, rest, level));
      assert items == [items[0]] + items[1..];
    }
  }

  lemma {:induction false} ObjectRoundTrip(cfg: Config, members: seq<Member>, level: nat, data: Text, pos: nat,
      depth: nat, opt: Options)
    requires depth < opt.maxDepth && SpaceIndent(cfg) && MembersReady(cfg, members, depth + 1, opt)
    requires Has(data, pos, Print(cfg, Obj(members), level))
    ensures ParseValue(data, pos, depth, opt) == Ok(Obj(members), pos + |Print(cfg, Obj(members), level)|)
    decreases members, 1
  {
    hide ParseValue, ParseMembers, SkipSpace, Has, BodyAt, Print, PrintMembers, NewLine, Ready;
    ObjectText(cfg, members, level);
    EmptyStep(data, pos, depth, opt);
    if members != [] {
      var body, start := PrintMembers(cfg, members, level + 1), pos + 1 + |NewLine(cfg, level + 1)|;
      MembersHead(cfg, members, level + 1, depth + 1, opt);
      Enter(cfg, data, pos, LBRACE, body, level, RBRACE);
      MembersRoundTrip(cfg, members, level, data, start, depth + 1, opt);
      ObjectStep(data, pos, depth, opt, start, members, BodyEnd(cfg, start, body, level));
    }
  }

  lemma {:induction false} MembersRoundTrip(cfg: Config, members: seq<Member>, level: nat, data: Text, pos: nat,
      depth: nat, opt: Options)
    requires members != [] && MembersReady(cfg, members, depth, opt)
    requires BodyAt(cfg, data, pos, PrintMembers(cfg, members, level + 1), level, RBRACE)
    ensures ParseMembers(data, pos, depth, opt)
        == Ok(members, BodyEnd(cfg, pos, PrintMembers(cfg, members, level + 1), level))
    decreases members, 0
  {
    hide ParseValue, ParseMembers, ParseMember, SkipSpace, Has, Ready, NewLine, PrintMember;
    var head := PrintMember(cfg, members[0], level + 1);
    var p := pos + |head|;
    MembersHead(cfg, members, level + 1, depth, opt);
    if |members| == 1 {
      Leave(cfg, data, pos, head, level, RBRACE);
      MemberRoundTrip(cfg, members[0], level + 1, data, pos, depth, opt);
      LastMember(data, pos, depth, opt, members[0], p);
      assert members == [members[0]];
    } else {
      var rest := PrintMembers(cfg, members[1..], level + 1);
      MembersHead(cfg, members[1..], level + 1, depth, opt);
      Advance(cfg, data, pos, head, rest, level, RBRACE);
      MemberRoundTrip(cfg, members[0], level + 1, data, pos, depth, opt);
      var next := p + |Separator(cfg, level + 1)|;
      MembersRoundTrip(cfg, members[1..], level, data, next, depth, opt);
      MoreMembers(data, pos, depth, opt, members[0], p, next, members[1..], BodyEnd(cfg, next, rest, level));
      assert members == [members[0]] + members[1..];
    }
  }

  /** A key and its colon; the next byte that is no white space follows the colon text. */
  lemma KeyRoundTrip(cfg: Config, key: Text, data: Text, pos: nat)
    requires Has(data, pos, Quote(cfg.escapeHTML, key) + ColonText(cfg))
    requires var next := pos + |Quote(cfg.escapeHTML, key)| + |ColonText(cfg)|; next < |data| && !IsSpace(data[next])
    ensures ParseKey(data, pos) == Ok(key, pos + |Quote(cfg.escapeHTML, key)| + 1)
    ensures SkipSpace(data, ParseKey(data, pos).pos) == pos + |Quote(cfg.escapeHTML, key)| + |ColonText(cfg)|
  {
    var q, c := Quote(cfg.escapeHTML, key), ColonText(cfg);
    HasConcat(data, pos, q, c);
    StringRoundTrip(cfg.escapeHTML, data, pos, key);
    if cfg.doIndent {
      HasConcat(data, pos + |q|, [COLON], [SPACE]);
    }
  }

  lemma {:induction false} MemberRoundTrip(cfg: Config, m: Member, level: nat, data: Text, pos: nat, depth: nat,
      opt: Options)
    requires m.key.Name? && Ready(cfg, m.value, depth, opt)
    requires Has(data, pos, PrintMember(cfg, m, level)) && EndsAt(m.value, data, pos + |PrintMember(cfg, m, level)|)
    ensures ParseMember(data, pos, depth, opt) == Ok(m, pos + |PrintMember(cfg, m, level)|)
    decreases m, 2
  {
    hide ParseValue, ParseKey, Decodable, Height, Escape;
    var key, value := Quote(cfg.escapeHTML, KeyText(m.key)) + ColonText(cfg), Print(cfg, m.value, level);
    HasConcat(data, pos, key, value);
    PrintHead(cfg, m.value, level, depth, opt);
    KeyRoundTrip(cfg, KeyText(m.key), data, pos);
    ValueRoundTrip(cfg, m.value, level, data, pos + |key|, depth, opt);
    MemberStep(data, pos, depth, opt, m.key.s, ParseKey(data, pos).pos, m.value, pos + |PrintMember(cfg, m, level)|);
  }

  /** Encoding any value and decoding the text under the same depth limit gives the printed
      tree back and consumes the whole text, unless the text is validated and a string or key of
      the tree is not UTF-8. */
  lemma EncodeDecode(cfg: Config, h: Heap, v: Val, opt: Options)
    requires SpaceIndent(cfg) && !opt.useNumber && opt.maxDepth == cfg.maxDepth
    requires Reflection.Encode(h, v, 0, [], cfg.maxDepth).Ok?
    requires Decodable(Reflection.Encode(h, v, 0, [], cfg.maxDepth).value, opt.floats)
    ensures var t := Reflection.Encode(h, v, 0, [], cfg.maxDepth).value;
            ParseDocument(Print(cfg, t, 0), 0, 0, opt)
            == if opt.validate && !Utf8Val(t) then Fail(InvalidUTF8) else Ok(t, |Print(cfg, t, 0)|)
  {
    var t := Reflection.Encode(h, v, 0, [], cfg.maxDepth).value;
    Reflection.EncodeOk(h, v, 0, [], cfg.maxDepth);
    var data := Print(cfg, t, 0);
    HasAll(data);
    PrintIsUtf8(cfg, t, 0);
    hide ParseValue, Print, Utf8Val, ValidUtf8;
    ValueRoundTrip(cfg, t, 0, data, 0, 0, opt);
  }

  /** Two trees with the same text are the same tree. */
  lemma PrintInjective(cfg: Config, a: Val, b: Val, level: nat, floats: Floats)
    requires SpaceIndent(cfg) && IsTree(a) && IsTree(b) && Decodable(a, floats) && Decodable(b, floats)
    requires Print(cfg, a, level) == Print(cfg, b, level)
    ensures a == b
  {
    var data := Print(cfg, a, level);
    var opt := Options(Height(a) + Height(b), false, false, floats);
    HasAll(data);
    ValueRoundTrip(cfg, a, level, data, 0, 0, opt);
    ValueRoundTrip(cfg, b, level, data, 0, 0, opt);
  }
}
