/** The texts the decoder accepts, by their grammar (sections 2 to 7 of RFC 8259): their parts, what
    they mean, and the proof, in both directions, that exactly they are decoded, each to what it
    means and up to its end. */
module Grammar {
  import opened Bytes
  import opened Integers
  import opened Strings
  import opened Values
  import opened Parsing
  import opened RoundTrip
  import opened SkipAgreement
  import opened Escapes
  import opened Literals
  import opened Numerals
  import opened StreamAgreement

  /** A text by its parts: every blank, every spelling of a string, every number by its text. */
  datatype Doc =
    | Nothing
    | Truth(b: bool)
    | Token(t: Text)
    | Literal(items: seq<Item>)
    | List(blank: Text, elems: seq<Elem>)
    | Table(blank: Text, entries: seq<Entry>)

  datatype Elem = Elem(before: Text, doc: Doc, after: Text)

  datatype Entry = Entry(before: Text, key: seq<Item>, beforeColon: Text, value: Elem)

  /** A minus or a digit, and more bytes that numbers are made of. */
  predicate IsRun(t: Text) {
    t != [] && (t[0] == 0x2D || 0x30 <= t[0] <= 0x39) && forall i | 0 <= i < |t| :: OfNumber(t[i])
  }

  predicate Formed(d: Doc)
    decreases d, 1
  {
    match d
    case Token(t) => IsRun(t)
    case Literal(items) => AllOk(items) && NoQuotes(items)
    case List(blank, elems) => White(blank) && ElemsFormed(elems)
    case Table(blank, entries) => White(blank) && EntriesFormed(entries)
    case _ => true
  }

  predicate ElemsFormed(elems: seq<Elem>)
    decreases elems, 0
  {
    elems != [] ==> ElemFormed(elems[0]) && ElemsFormed(elems[1..])
  }

  predicate ElemFormed(e: Elem)
    decreases e, 2
  {
    White(e.before) && White(e.after) && Formed(e.doc)
  }

  predicate EntriesFormed(entries: seq<Entry>)
    decreases entries, 0
  {
    entries != [] ==> EntryFormed(entries[0]) && EntriesFormed(entries[1..])
  }

  predicate EntryFormed(e: Entry)
    decreases e, 3
  {
    White(e.before) && White(e.beforeColon) && AllOk(e.key) && NoQuotes(e.key) && ElemFormed(e.value)
  }

  function Quoted(items: seq<Item>): Text
    requires AllOk(items)
  {
    [0x22] + WrittenAll(items) + [0x22]
  }

  function Spelled(d: Doc): Text
    requires Formed(d)
    decreases d, 1
  {
    match d
    case Nothing => [0x6E, 0x75, 0x6C, 0x6C]
    case Truth(b) => if b then [0x74, 0x72, 0x75, 0x65] else [0x66, 0x61, 0x6C, 0x73, 0x65]
    case Token(t) => t
    case Literal(items) => Quoted(items)
    case List(blank, elems) => [0x5B] + (if elems == [] then blank else SpelledElems(elems)) + [0x5D]
    case Table(blank, entries) => [0x7B] + (if entries == [] then blank else SpelledEntries(entries)) + [0x7D]
  }

  function SpelledElems(elems: seq<Elem>): Text
    requires elems != [] && ElemsFormed(elems)
    decreases elems, 0
  {
    SpelledElem(elems[0]) + if |elems| == 1 then [] else [0x2C] + SpelledElems(elems[1..])
  }

  function SpelledElem(e: Elem): Text
    requires ElemFormed(e)
    decreases e, 2
  {
    e.before + Spelled(e.doc) + e.after
  }

  function SpelledEntries(entries: seq<Entry>): Text
    requires entries != [] && EntriesFormed(entries)
    decreases entries, 0
  {
    SpelledEntry(entries[0]) + if |entries| == 1 then [] else [0x2C] + SpelledEntries(entries[1..])
  }

  function SpelledEntry(e: Entry): Text
    requires EntryFormed(e)
    decreases e, 3
  {
    e.before + Quoted(e.key) + e.beforeColon + [0x3A] + SpelledElem(e.value)
  }

  // ----- meaning -----

  /** What a number becomes: see NumeralIsRead. */
  function NumberMeans(t: Text, opt: Options): Option<Val> {
    if opt.useNumber then Some(Num(t))
    else if IsInteger(t) then
      match ParseInt(t)
      case None => None
      case Some(i) => Some(Int(i))
    else FloatValue(opt.floats, t)
  }

  /** The value of a text; none when a number in it cannot be represented. */
  function Means(d: Doc, opt: Options): Option<Val>
    requires Formed(d)
    decreases d, 1
  {
    match d
    case Nothing => Some(Null)
    case Truth(b) => Some(Bool(b))
    case Token(t) => NumberMeans(t, opt)
    case Literal(items) => Some(Str(MeantAll(items)))
    case List(_, elems) =>
      (match ElemsMean(elems, opt)
       case None => None
       case Some(vs) => Some(Arr(vs)))
    case Table(_, entries) =>
      (match EntriesMean(entries, opt)
       case None => None
       case Some(ms) => Some(Obj(ms)))
  }

  function ElemsMean(elems: seq<Elem>, opt: Options): Option<seq<Val>>
    requires ElemsFormed(elems)
    decreases elems, 0
  {
    if elems == [] then Some([])
    else
      match (ElemMeans(elems[0], opt), ElemsMean(elems[1..], opt))
      case (Some(v), Some(vs)) => Some([v] + vs)
      case _ => None
  }

  function ElemMeans(e: Elem, opt: Options): Option<Val>
    requires ElemFormed(e)
    decreases e, 2
  {
    Means(e.doc, opt)
  }

  function EntriesMean(entries: seq<Entry>, opt: Options): Option<seq<Member>>
    requires EntriesFormed(entries)
    decreases entries, 0
  {
    if entries == [] then Some([])
    else
      match (EntryMeans(entries[0], opt), EntriesMean(entries[1..], opt))
      case (Some(m), Some(ms)) => Some([m] + ms)
      case _ => None
  }

  function EntryMeans(e: Entry, opt: Options): Option<Member>
    requires EntryFormed(e)
    decreases e, 3
  {
    match ElemMeans(e.value, opt)
    case None => None
    case Some(v) => Some(Member(Name(MeantAll(e.key)), v))
  }

  /** How many containers are open at the deepest place. */
  function Deep(d: Doc): nat
    decreases d, 1
  {
    match d
    case List(_, elems) => 1 + DeepElems(elems)
    case Table(_, entries) => 1 + DeepEntries(entries)
    case _ => 0
  }

  function DeepElems(elems: seq<Elem>): nat
    decreases elems, 0
  {
    if elems == [] then 0 else Max(DeepElem(elems[0]), DeepElems(elems[1..]))
  }

  function DeepElem(e: Elem): nat
    decreases e, 2
  {
    Deep(e.doc)
  }

  function DeepEntries(entries: seq<Entry>): nat
    decreases entries, 0
  {
    if entries == [] then 0 else Max(DeepEntry(entries[0]), DeepEntries(entries[1..]))
  }

  function DeepEntry(e: Entry): nat
    decreases e, 3
  {
    DeepElem(e.value)
  }

  /** A number must not run into what follows it. */
  predicate Ended(d: Doc, data: Text, end: nat) {
    d.Token? && end < |data| ==> !OfNumber(data[end])
  }

  /** From `pos` to `end` stands white space and then this text, which fits the depth limit. */
  ghost predicate Stands(data: Text, pos: nat, end: nat, depth: nat, opt: Options, before: Text, d: Doc) {
    && White(before) && Formed(d) && Has(data, pos, before + Spelled(d)) && end == pos + |before| + |Spelled(d)|
    && Ended(d, data, end) && (Deep(d) > 0 ==> depth + Deep(d) <= opt.maxDepth)
  }

  // ----- what is spelled is read -----

  lemma SpelledHead(d: Doc)
    requires Formed(d)
    ensures Spelled(d) != [] && !IsSpace(Spelled(d)[0]) && Spelled(d)[0] != RBRACKET && Spelled(d)[0] != RBRACE
  {
  }

  lemma BlankIsSkipped(data: Text, pos: nat, blank: Text)
    requires White(blank) && Has(data, pos, blank) && pos + |blank| < |data| && !IsSpace(data[pos + |blank|])
    ensures SkipSpace(data, pos) == pos + |blank|
  {
    WhiteIsSpace(blank);
    SkipSpaceOver(data, pos, blank);
  }

  /** White space up to a byte that is none. */
  lemma Separated(data: Text, pos: nat, blank: Text, rest: Text)
    requires White(blank) && rest != [] && !IsSpace(rest[0]) && Has(data, pos, blank + rest)
    ensures Has(data, pos, blank) && Has(data, pos + |blank|, rest) && pos + |blank| + |rest| <= |data|
    ensures data[pos + |blank|] == rest[0] && SkipSpace(data, pos) == pos + |blank|
    ensures !OfNumber(rest[0]) ==> !OfNumber(data[pos])
  {
    HasConcat(data, pos, blank, rest);
    FirstByte(data, pos, blank);
    FirstByte(data, pos + |blank|, rest);
    BlankIsSkipped(data, pos, blank);
  }

  lemma ValueBehindSpace(data: Text, pos: nat, depth: nat, opt: Options)
    requires pos <= |data|
    ensures ParseValue(data, SkipSpace(data, pos), depth, opt) == ParseValue(data, pos, depth, opt)
    ensures ParseItems(data, SkipSpace(data, pos), depth, opt) == ParseItems(data, pos, depth, opt)
  {
    SkipSpaceTwice(data, pos);
    hide ParseObject, ParseArray, SkipSpace, ParseString, ParseNumber, ParseBool, ParseNull;
    assert ParseValue(data, SkipSpace(data, pos), depth, opt) == ParseValue(data, pos, depth, opt);
    hide ParseValue;
  }

  lemma MembersBehindSpace(data: Text, pos: nat, depth: nat, opt: Options)
    requires pos <= |data|
    ensures ParseMembers(data, SkipSpace(data, pos), depth, opt) == ParseMembers(data, pos, depth, opt)
  {
    SkipSpaceTwice(data, pos);
    hide ParseValue, SkipSpace, ParseString;
    assert ParseKey(data, SkipSpace(data, pos)) == ParseKey(data, pos);
    assert ParseMember(data, SkipSpace(data, pos), depth, opt) == ParseMember(data, pos, depth, opt);
  }

  lemma TokenIsRead(data: Text, pos: nat, depth: nat, opt: Options, t: Text)
    requires IsRun(t) && Has(data, pos, t) && (pos + |t| < |data| ==> !OfNumber(data[pos + |t|]))
    ensures ParseValue(data, pos, depth, opt)
         == match NumberMeans(t, opt)
            case None => Fail(InvalidNumber)
            case Some(v) => Ok(v, pos + |t|)
  {
    FirstByte(data, pos, t);
    hide Has, ParseInt, NumberEnd, IsInteger, ParseValue;
    NumberToken(data, pos, t);
    NumberValue(data, pos, depth, opt);
  }

  lemma ScalarIsRead(data: Text, pos: nat, depth: nat, opt: Options, d: Doc)
    requires Formed(d) && !d.List? && !d.Table? && Means(d, opt).Some?
    requires Has(data, pos, Spelled(d)) && Ended(d, data, pos + |Spelled(d)|)
    ensures ParseValue(data, pos, depth, opt) == Ok(Means(d, opt).value, pos + |Spelled(d)|)
  {
    hide ParseValue, Has, NumberMeans, ParseString;
    match d
    case Token(t) => TokenIsRead(data, pos, depth, opt, t);
    case Literal(items) =>
      SpelledIsRead(data, pos, items, pos + |Spelled(d)|);
      HasQuoted(data, pos, WrittenAll(items));
      StringStep(data, pos, depth, opt, MeantAll(items), pos + |Spelled(d)|);
    case _ => WordRoundTrip(data, pos, depth, opt);
  }

  /** Every text of the grammar is decoded to what it means, wherever it stands, if its numbers can
      be represented and it fits the depth limit. */
  lemma {:induction false} DocIsRead(data: Text, pos: nat, end: nat, depth: nat, opt: Options, before: Text, d: Doc)
    requires Stands(data, pos, end, depth, opt, before, d) && Means(d, opt).Some?
    ensures ParseValue(data, pos, depth, opt) == Ok(Means(d, opt).value, end)
    decreases d, 1
  {
    hide ParseValue, Has, ParseItems, ParseMembers, SkipSpace;
    SpelledHead(d);
    Separated(data, pos, before, Spelled(d));
    ValueBehindSpace(data, pos, depth, opt);
    var p := pos + |before|;
    match d
    case List(blank, elems) => ListIsRead(data, p, depth, opt, blank, elems);
    case Table(blank, entries) => TableIsRead(data, p, depth, opt, blank, entries);
    case _ => ScalarIsRead(data, p, depth, opt, d);
  }

  lemma {:induction false} ListIsRead(data: Text, p: nat, depth: nat, opt: Options, blank: Text, elems: seq<Elem>)
    requires var d := List(blank, elems);
             && Formed(d) && Means(d, opt).Some? && Has(data, p, Spelled(d)) && depth + Deep(d) <= opt.maxDepth
    ensures var d := List(blank, elems); ParseValue(data, p, depth, opt) == Ok(Means(d, opt).value, p + |Spelled(d)|)
    decreases elems, 1
  {
    hide ParseValue, Has, ParseItems, SkipSpace, ElemsFormed, SpelledElems, DeepElems, White;
    if elems == [] {
      BracketIsRead(data, p, 0x5B, blank, 0x5D);
    } else {
      BracketIsRead(data, p, 0x5B, SpelledElems(elems), 0x5D);
      ElemsHead(data, p + 1, elems);
      ElemsAreRead(data, p + 1, depth + 1, opt, elems);
      ValueBehindSpace(data, p + 1, depth + 1, opt);
    }
    ListStep(data, p, depth, opt);
  }

  lemma {:induction false} TableIsRead(data: Text, p: nat, depth: nat, opt: Options, blank: Text, entries: seq<Entry>)
    requires var d := Table(blank, entries);
             && Formed(d) && Means(d, opt).Some? && Has(data, p, Spelled(d)) && depth + Deep(d) <= opt.maxDepth
    ensures var d := Table(blank, entries); ParseValue(data, p, depth, opt) == Ok(Means(d, opt).value, p + |Spelled(d)|)
    decreases entries, 1
  {
    hide ParseValue, Has, ParseMembers, SkipSpace, EntriesFormed, SpelledEntries, DeepEntries, White;
    if entries == [] {
      BracketIsRead(data, p, 0x7B, blank, 0x7D);
    } else {
      BracketIsRead(data, p, 0x7B, SpelledEntries(entries), 0x7D);
      EntriesHead(data, p + 1, entries);
      EntriesAreRead(data, p + 1, depth + 1, opt, entries);
      MembersBehindSpace(data, p + 1, depth + 1, opt);
    }
    TableStep(data, p, depth, opt);
  }

  /** A bracket, what is inside, and the other bracket. */
  lemma BracketIsRead(data: Text, p: nat, open: byte, inner: Text, close: byte)
    requires Has(data, p, [open] + inner + [close]) && !IsSpace(close)
    ensures p < |data| && data[p] == open && Has(data, p + 1, inner + [close])
    ensures White(inner) ==> SkipSpace(data, p + 1) == p + 1 + |inner| && At(data, p + 1 + |inner|, close)
  {
    hide Has, SkipSpace, White;
    assert [open] + inner + [close] == [open] + (inner + [close]);
    HasConcat(data, p, [open], inner + [close]);
    FirstByte(data, p, [open]);
    if White(inner) {
      Separated(data, p + 1, inner, [close]);
    }
  }

  lemma ListStep(data: Text, p: nat, depth: nat, opt: Options)
    requires p < |data| && data[p] == 0x5B && depth < opt.maxDepth
    ensures ParseValue(data, p, depth, opt)
         == var q := SkipSpace(data, p + 1);
            if At(data, q, RBRACKET) then Ok(Arr([]), q + 1)
            else
              match ParseItems(data, q, depth + 1, opt)
              case Fail(e) => Fail(e)
              case Ok(vs, end) => Ok(Arr(vs), end)
  {
    hide ParseItems;
    assert SkipSpace(data, p) == p;
  }

  lemma TableStep(data: Text, p: nat, depth: nat, opt: Options)
    requires p < |data| && data[p] == 0x7B && depth < opt.maxDepth
    ensures ParseValue(data, p, depth, opt)
         == var q := SkipSpace(data, p + 1);
            if At(data, q, RBRACE) then Ok(Obj([]), q + 1)
            else
              match ParseMembers(data, q, depth + 1, opt)
              case Fail(e) => Fail(e)
              case Ok(ms, end) => Ok(Obj(ms), end)
  {
    hide ParseMembers;
    assert SkipSpace(data, p) == p;
  }

  /** The first byte of a list is not the bracket that ends it. */
  lemma ElemsHead(data: Text, pos: nat, elems: seq<Elem>)
    requires elems != [] && ElemsFormed(elems) && Has(data, pos, SpelledElems(elems) + [0x5D])
    ensures pos <= |data| && !At(data, SkipSpace(data, pos), RBRACKET)
  {
    hide Has, SkipSpace, Spelled;
    var e := elems[0];
    var t := SpelledElems(elems) + [0x5D];
    var rest := t[|e.before|..];
    SpelledHead(e.doc);
    assert t == e.before + rest && rest[0] == Spelled(e.doc)[0];
    Separated(data, pos, e.before, rest);
  }

  lemma ElemsParts(elems: seq<Elem>, opt: Options)
    requires elems != [] && ElemsFormed(elems) && ElemsMean(elems, opt).Some?
    ensures var e, rest := elems[0], elems[1..];
            && ElemFormed(e) && ElemsFormed(rest) && Means(e.doc, opt).Some? && ElemsMean(rest, opt).Some?
            && ElemsMean(elems, opt).value == [Means(e.doc, opt).value] + ElemsMean(rest, opt).value
            && Deep(e.doc) <= DeepElems(elems) && DeepElems(rest) <= DeepElems(elems)
            && (rest == [] ==> ElemsMean(elems, opt).value == [Means(e.doc, opt).value])
  {
    hide Means, Deep;
    assert ElemMeans(elems[0], opt) == Means(elems[0].doc, opt) && DeepElem(elems[0]) == Deep(elems[0].doc);
  }

  /** What follows the first element. */
  function Tail(elems: seq<Elem>): Text
    requires elems != [] && ElemsFormed(elems)
  {
    if |elems| == 1 then [0x5D] else [0x2C] + (SpelledElems(elems[1..]) + [0x5D])
  }

  lemma ElemsText(elems: seq<Elem>)
    requires elems != [] && ElemsFormed(elems)
    ensures var e := elems[0];
            && ElemFormed(e) && SpelledElems(elems) + [0x5D] == e.before + Spelled(e.doc) + (e.after + Tail(elems))
            && (Tail(elems)[0] == 0x5D || Tail(elems)[0] == 0x2C) && !IsSpace(Tail(elems)[0])
                && !OfNumber(Tail(elems)[0])
  {
    hide Spelled, Formed, White;
    var e := elems[0];
    if |elems| > 1 {
      Reassociate(e.before, Spelled(e.doc), e.after, [0x2C], SpelledElems(elems[1..]), [0x5D]);
    } else {
      Reassociate(e.before, Spelled(e.doc), e.after, [], [], [0x5D]);
    }
  }

  lemma Reassociate(a: Text, b: Text, c: Text, x: Text, y: Text, z: Text)
    ensures a + b + c + (x + y) + z == a + b + (c + (x + (y + z)))
    ensures x == [] && y == [] ==> a + b + c + [] + z == a + b + (c + z)
  {
    var p := a + b;
    assert p + c + (x + y) == p + (c + (x + y));
    assert c + (x + y) + z == c + (x + (y + z));
    assert p + (c + (x + y)) + z == p + (c + (x + y) + z);
    assert p + c + [] == p + c;
  }

  lemma ItemsStep(data: Text, pos: nat, depth: nat, opt: Options)
    requires pos <= |data| && ParseValue(data, pos, depth, opt).Ok?
    ensures ParseItems(data, pos, depth, opt)
         == var q, v := SkipSpace(data, ParseValue(data, pos, depth, opt).pos), ParseValue(data, pos, depth, opt).value;
            if At(data, q, RBRACKET) then Ok([v], q + 1)
            else if At(data, q, COMMA) then Extend([v], ParseItems(data, q + 1, depth, opt))
            else Fail(InvalidJSON)
  {
    hide ParseValue, SkipSpace;
  }

  lemma {:induction false} ElemsAreRead(data: Text, pos: nat, depth: nat, opt: Options, elems: seq<Elem>)
    requires elems != [] && ElemsFormed(elems) && ElemsMean(elems, opt).Some?
    requires Has(data, pos, SpelledElems(elems) + [0x5D])
    requires DeepElems(elems) > 0 ==> depth + DeepElems(elems) <= opt.maxDepth
    ensures pos <= |data|
    ensures ParseItems(data, pos, depth, opt) == Ok(ElemsMean(elems, opt).value, pos + |SpelledElems(elems)| + 1)
    decreases elems, 0
  {
    hide ParseValue, ParseItems, Has, SkipSpace, Means, ElemsMean, Spelled, SpelledElems, Formed, Deep, DeepElems,
        White,
         OfNumber;
    var e, rest, tail := elems[0], elems[1..], Tail(elems);
    ElemsParts(elems, opt);
    ElemsText(elems);
    var end := ElemStands(data, pos, depth, opt, e, tail);
    DocIsRead(data, pos, end, depth, opt, e.before, e.doc);
    ItemsStep(data, pos, depth, opt);
    if |elems| > 1 {
      HasConcat(data, end + |e.after|, [0x2C], SpelledElems(rest) + [0x5D]);
      ElemsAreRead(data, end + |e.after| + 1, depth, opt, rest);
    }
  }

  /** An element and what follows it. */
  lemma ElemStands(data: Text, pos: nat, depth: nat, opt: Options, e: Elem, tail: Text) returns (end: nat)
    requires ElemFormed(e) && Has(data, pos, e.before + Spelled(e.doc) + (e.after + tail))
    requires tail != [] && !IsSpace(tail[0]) && !OfNumber(tail[0])
    requires Deep(e.doc) > 0 ==> depth + Deep(e.doc) <= opt.maxDepth
    ensures Stands(data, pos, end, depth, opt, e.before, e.doc) && end == pos + |e.before| + |Spelled(e.doc)|
    ensures Has(data, end + |e.after|, tail) && end + |e.after| + |tail| <= |data|
    ensures data[end + |e.after|] == tail[0] && SkipSpace(data, end) == end + |e.after|
  {
    hide Has, SkipSpace, Spelled, Deep;
    end := pos + |e.before| + |Spelled(e.doc)|;
    HasConcat(data, pos, e.before + Spelled(e.doc), e.after + tail);
    Separated(data, end, e.after, tail);
  }

  lemma EntriesHead(data: Text, pos: nat, entries: seq<Entry>)
    requires entries != [] && EntriesFormed(entries) && Has(data, pos, SpelledEntries(entries) + [0x7D])
    ensures pos <= |data| && !At(data, SkipSpace(data, pos), RBRACE)
  {
    hide Has, SkipSpace, Spelled;
    var e := entries[0];
    var t := SpelledEntries(entries) + [0x7D];
    var rest := t[|e.before|..];
    assert t == e.before + rest && rest[0] == QUOTE;
    Separated(data, pos, e.before, rest);
  }

  lemma KeyIsRead(data: Text, pos: nat, before: Text, key: seq<Item>, beforeColon: Text)
    requires White(before) && White(beforeColon) && AllOk(key) && NoQuotes(key)
    requires Has(data, pos, before + Quoted(key) + (beforeColon + [0x3A]))
    ensures pos <= |data|
    ensures ParseKey(data, pos) == Ok(MeantAll(key), pos + |before| + |Quoted(key)| + |beforeColon| + 1)
  {
    hide Has, SkipSpace, ParseString, WrittenAll, MeantAll;
    var q := pos + |before|;
    HasConcat(data, pos, before + Quoted(key), beforeColon + [0x3A]);
    Separated(data, pos, before, Quoted(key));
    SpelledIsRead(data, q, key, q + |Quoted(key)|);
    Separated(data, q + |Quoted(key)|, beforeColon, [0x3A]);
  }

  lemma EntriesParts(entries: seq<Entry>, opt: Options)
    requires entries != [] && EntriesFormed(entries) && EntriesMean(entries, opt).Some?
    ensures var e, rest := entries[0], entries[1..];
            && EntryFormed(e) && EntriesFormed(rest) && EntryMeans(e, opt).Some? && EntriesMean(rest, opt).Some?
            && EntriesMean(entries, opt).value == [EntryMeans(e, opt).value] + EntriesMean(rest, opt).value
            && DeepEntry(e) <= DeepEntries(entries) && DeepEntries(rest) <= DeepEntries(entries)
            && (rest == [] ==> EntriesMean(entries, opt).value == [EntryMeans(e, opt).value])
  {
    hide EntryMeans, DeepEntry;
  }

  function EntryTail(entries: seq<Entry>): Text
    requires entries != [] && EntriesFormed(entries)
  {
    if |entries| == 1 then [0x7D] else [0x2C] + (SpelledEntries(entries[1..]) + [0x7D])
  }

  lemma EntriesText(entries: seq<Entry>)
    requires entries != [] && EntriesFormed(entries)
    ensures var tail := EntryTail(entries);
            && SpelledEntries(entries) + [0x7D] == SpelledEntry(entries[0]) + tail
            && (tail[0] == 0x7D || tail[0] == 0x2C) && !IsSpace(tail[0]) && !OfNumber(tail[0])
  {
    hide SpelledEntry, EntryFormed;
    var t := SpelledEntry(entries[0]);
    if |entries| > 1 {
      var rest := SpelledEntries(entries[1..]);
      assert t + ([0x2C] + rest) + [0x7D] == t + ([0x2C] + (rest + [0x7D]));
    } else {
      assert t + [] + [0x7D] == t + [0x7D];
    }
  }

  lemma MembersStep(data: Text, pos: nat, depth: nat, opt: Options)
    requires pos <= |data| && ParseMember(data, pos, depth, opt).Ok?
    ensures ParseMembers(data, pos, depth, opt)
         == var q, m := SkipSpace(data, ParseMember(data, pos, depth, opt).pos),
             ParseMember(data, pos, depth, opt).value;
            if At(data, q, RBRACE) then Ok([m], q + 1)
            else if At(data, q, COMMA) then Extend([m], ParseMembers(data, q + 1, depth, opt))
            else Fail(InvalidJSON)
  {
    hide ParseMember, SkipSpace;
  }

  lemma {:induction false} EntriesAreRead(data: Text, pos: nat, depth: nat, opt: Options, entries: seq<Entry>)
    requires entries != [] && EntriesFormed(entries) && EntriesMean(entries, opt).Some?
    requires Has(data, pos, SpelledEntries(entries) + [0x7D])
    requires DeepEntries(entries) > 0 ==> depth + DeepEntries(entries) <= opt.maxDepth
    ensures pos <= |data|
    ensures ParseMembers(data, pos, depth, opt)
        == Ok(EntriesMean(entries, opt).value, pos + |SpelledEntries(entries)| + 1)
    decreases entries, 0
  {
    hide ParseMember, ParseMembers, Has, SkipSpace, SpelledEntry, SpelledEntries, EntryFormed, EntryMeans, EntriesMean,
         DeepEntry, DeepEntries, OfNumber;
    var e, rest, tail := entries[0], entries[1..], EntryTail(entries);
    EntriesParts(entries, opt);
    EntriesText(entries);
    EntryIsRead(data, pos, depth, opt, e, tail);
    MembersStep(data, pos, depth, opt);
    if |entries| > 1 {
      var next := pos + |SpelledEntry(e)|;
      HasConcat(data, next, [0x2C], SpelledEntries(rest) + [0x7D]);
      EntriesAreRead(data, next + 1, depth, opt, rest);
    }
  }

  lemma {:induction false} EntryIsRead(data: Text, pos: nat, depth: nat, opt: Options, e: Entry, tail: Text)
    requires EntryFormed(e) && EntryMeans(e, opt).Some? && Has(data, pos, SpelledEntry(e) + tail)
    requires tail != [] && !IsSpace(tail[0]) && !OfNumber(tail[0])
    requires DeepEntry(e) > 0 ==> depth + DeepEntry(e) <= opt.maxDepth
    ensures pos <= |data| && ParseMember(data, pos, depth, opt).Ok?
    ensures var r, next := ParseMember(data, pos, depth, opt), pos + |SpelledEntry(e)|;
            && r.value == EntryMeans(e, opt).value && r.pos <= |data| && SkipSpace(data, r.pos) == next
            && Has(data, next, tail) && next + |tail| <= |data| && data[next] == tail[0]
    decreases e, 3
  {
    hide ParseValue, ParseKey, Has, SkipSpace, Spelled, Formed, White, Means, Deep, Quoted, MeantAll;
    var v := e.value;
    assert DeepEntry(e) == DeepElem(v) == Deep(v.doc);
    var head := e.before + Quoted(e.key) + (e.beforeColon + [0x3A]);
    var rest := v.before + Spelled(v.doc) + (v.after + tail);
    assert SpelledEntry(e) + tail == head + rest;
    HasConcat(data, pos, head, rest);
    KeyIsRead(data, pos, e.before, e.key, e.beforeColon);
    var start := pos + |head|;
    var end := ElemStands(data, start, depth, opt, v, tail);
    DocIsRead(data, start, end, depth, opt, v.before, v.doc);
    ValueBehindSpace(data, start, depth, opt);
  }

  // ----- what is read is spelled -----

  lemma BlankAt(data: Text, pos: nat) returns (blank: Text)
    requires pos <= |data|
    ensures White(blank) && Has(data, pos, blank) && pos + |blank| == SkipSpace(data, pos)
  {
    blank := data[pos..SkipSpace(data, pos)];
    SkippedIsSpace(data, pos);
    WhiteIsSpace(blank);
    HasSlice(data, pos, blank);
  }

  lemma {:induction false} RunBytes(data: Text, pos: nat)
    requires pos <= |data|
    ensures forall i | pos <= i < NumberEnd(data, pos) :: OfNumber(data[i])
    ensures NumberEnd(data, pos) < |data| ==> !OfNumber(data[NumberEnd(data, pos)])
    decreases |data| - pos
  {
    if pos < |data| && IsNumberByte(data[pos]) {
      RunBytes(data, pos + 1);
    }
  }

  lemma TokenAt(data: Text, p: nat, depth: nat, opt: Options) returns (d: Doc)
    requires p < |data| && StartsNumber(data[p]) && ParseValue(data, p, depth, opt).Ok?
    ensures Formed(d) && d.Token? && Has(data, p, Spelled(d)) && Ended(d, data, p + |Spelled(d)|)
    ensures ParseValue(data, p, depth, opt).pos == p + |Spelled(d)|
    ensures Means(d, opt) == Some(ParseValue(data, p, depth, opt).value)
  {
    var t := data[p..NumberEnd(data, p)];
    d := Token(t);
    RunBytes(data, p);
    HasSlice(data, p, t);
    TokenIsRead(data, p, depth, opt, t);
  }

  lemma ScalarAt(data: Text, p: nat, depth: nat, opt: Options) returns (d: Doc)
    requires p < |data| && !IsSpace(data[p]) && data[p] != 0x5B && data[p] != 0x7B
        && ParseValue(data, p, depth, opt).Ok?
    ensures Formed(d) && Deep(d) == 0 && Has(data, p, Spelled(d)) && Ended(d, data, p + |Spelled(d)|)
    ensures ParseValue(data, p, depth, opt).pos == p + |Spelled(d)|
    ensures Means(d, opt) == Some(ParseValue(data, p, depth, opt).value)
  {
    hide Has, SkipSpace, ParseNumber, Unescape, WrittenAll, MeantAll, NumberMeans;
    assert SkipSpace(data, p) == p by { NoSpaceHere(data, p); }
    if data[p] == QUOTE {
      var items := ReadIsSpelled(data, p);
      d := Literal(items);
    } else if StartsNumber(data[p]) {
      d := TokenAt(data, p, depth, opt);
    } else if data[p] == 0x6E {
      d := Nothing;
    } else {
      d := Truth(Has(data, p, TRUE_TEXT));
    }
  }

  lemma NoSpaceHere(data: Text, p: nat)
    requires p < |data| && !IsSpace(data[p])
    ensures SkipSpace(data, p) == p
  {
  }

  /** And whatever is decoded is a text of the grammar, with white space before it. */
  lemma {:induction false} ReadIsDoc(data: Text, pos: nat, depth: nat, opt: Options) returns (before: Text, d: Doc)
    requires pos <= |data| && ParseValue(data, pos, depth, opt).Ok?
    ensures Stands(data, pos, ParseValue(data, pos, depth, opt).pos, depth, opt, before, d)
    ensures Means(d, opt) == Some(ParseValue(data, pos, depth, opt).value)
    decreases |data| - pos, 1
  {
    hide ParseValue, Has, SkipSpace, Means, Formed, Spelled, Deep;
    before := BlankAt(data, pos);
    ValueBehindSpace(data, pos, depth, opt);
    var p := SkipSpace(data, pos);
    ReadHasHead(data, pos, depth, opt);
    if data[p] == 0x5B {
      d := ListAt(data, p, depth, opt);
    } else if data[p] == 0x7B {
      d := TableAt(data, p, depth, opt);
    } else {
      d := ScalarAt(data, p, depth, opt);
    }
    HasConcat(data, pos, before, Spelled(d));
  }

  lemma ReadHasHead(data: Text, pos: nat, depth: nat, opt: Options)
    requires pos <= |data| && ParseValue(data, pos, depth, opt).Ok?
    ensures var p := SkipSpace(data, pos);
            && p < |data| && !IsSpace(data[p])
            && (data[p] == 0x5B || data[p] == 0x7B ==> depth < opt.maxDepth)
  {
    hide ParseObject, ParseArray;
  }

  lemma {:induction false} ListAt(data: Text, p: nat, depth: nat, opt: Options) returns (d: Doc)
    requires p < |data| && data[p] == 0x5B && depth < opt.maxDepth && ParseValue(data, p, depth, opt).Ok?
    ensures Formed(d) && d.List? && Has(data, p, Spelled(d)) && depth + Deep(d) <= opt.maxDepth
    ensures ParseValue(data, p, depth, opt).pos == p + |Spelled(d)|
    ensures Means(d, opt) == Some(ParseValue(data, p, depth, opt).value)
    decreases |data| - p, 0
  {
    hide ParseValue, ParseItems, Has, SkipSpace, ElemsFormed, SpelledElems, ElemsMean, DeepElems, White;
    ListStep(data, p, depth, opt);
    var q := SkipSpace(data, p + 1);
    HasByte(data, p, 0x5B);
    if At(data, q, RBRACKET) {
      var blank := BlankAt(data, p + 1);
      d := List(blank, []);
      NoElems(opt);
      HasByte(data, q, 0x5D);
      HasConcat(data, p, [0x5B], blank);
      HasConcat(data, p, [0x5B] + blank, [0x5D]);
    } else {
      ValueBehindSpace(data, p + 1, depth + 1, opt);
      var elems := ItemsAreElems(data, p + 1, depth + 1, opt);
      d := List([], elems);
      NoWhite();
      assert [0x5B] + SpelledElems(elems) + [0x5D] == [0x5B] + (SpelledElems(elems) + [0x5D]);
      HasConcat(data, p, [0x5B], SpelledElems(elems) + [0x5D]);
    }
  }

  lemma NoWhite()
    ensures White([])
  {
  }

  lemma NoElems(opt: Options)
    ensures ElemsFormed([]) && ElemsMean([], opt) == Some([]) && DeepElems([]) == 0
    ensures EntriesFormed([]) && EntriesMean([], opt) == Some([]) && DeepEntries([]) == 0
  {
  }

  /** A value and the white space after it. */
  lemma {:induction false} ValueIsElem(data: Text, pos: nat, depth: nat, opt: Options) returns (e: Elem)
    requires pos <= |data| && ParseValue(data, pos, depth, opt).Ok?
    ensures var r := ParseValue(data, pos, depth, opt);
            && ElemFormed(e) && Has(data, pos, SpelledElem(e)) && pos + |SpelledElem(e)| == SkipSpace(data, r.pos)
            && ElemMeans(e, opt) == Some(r.value) && (DeepElem(e) > 0 ==> depth + DeepElem(e) <= opt.maxDepth)
    decreases |data| - pos, 2
  {
    hide ParseValue, Has, SkipSpace, Means, Formed, Spelled, Deep, White;
    var before, d := ReadIsDoc(data, pos, depth, opt);
    var after := BlankAt(data, ParseValue(data, pos, depth, opt).pos);
    e := Elem(before, d, after);
    HasConcat(data, pos, before + Spelled(d), after);
  }

  lemma {:induction false} ItemsAreElems(data: Text, pos: nat, depth: nat, opt: Options) returns (elems: seq<Elem>)
    requires pos <= |data| && ParseItems(data, pos, depth, opt).Ok?
    ensures elems != [] && ElemsFormed(elems) && Has(data, pos, SpelledElems(elems) + [0x5D])
    ensures ParseItems(data, pos, depth, opt).pos == pos + |SpelledElems(elems)| + 1
    ensures ElemsMean(elems, opt) == Some(ParseItems(data, pos, depth, opt).value)
    ensures DeepElems(elems) > 0 ==> depth + DeepElems(elems) <= opt.maxDepth
    decreases |data| - pos, 3
  {
    hide ParseValue, ParseItems, Has, SkipSpace, ElemFormed, SpelledElem, ElemMeans, DeepElem;
    FirstParsed(data, pos, depth, opt);
    ItemsStep(data, pos, depth, opt);
    var e := ValueIsElem(data, pos, depth, opt);
    var q := SkipSpace(data, ParseValue(data, pos, depth, opt).pos);
    if At(data, q, RBRACKET) {
      elems := [e];
      NoElems(opt);
      assert elems[1..] == [];
      assert [ElemMeans(e, opt).value] + [] == [ElemMeans(e, opt).value];
      HasByte(data, q, 0x5D);
      HasConcat(data, pos, SpelledElem(e), [0x5D]);
      assert SpelledElem(e) + [] == SpelledElem(e);
    } else {
      var rest := ItemsAreElems(data, q + 1, depth, opt);
      elems := [e] + rest;
      assert elems[1..] == rest;
      HasByte(data, q, 0x2C);
      var more := SpelledElems(rest) + [0x5D];
      HasConcat(data, q, [0x2C], more);
      HasConcat(data, pos, SpelledElem(e), [0x2C] + more);
      assert SpelledElem(e) + ([0x2C] + SpelledElems(rest)) + [0x5D] == SpelledElem(e) + ([0x2C] + more);
    }
  }

  lemma FirstParsed(data: Text, pos: nat, depth: nat, opt: Options)
    requires pos <= |data|
    ensures ParseItems(data, pos, depth, opt).Ok? ==> ParseValue(data, pos, depth, opt).Ok?
    ensures ParseMembers(data, pos, depth, opt).Ok? ==> ParseMember(data, pos, depth, opt).Ok?
  {
    hide ParseValue, ParseMember, SkipSpace;
  }

  lemma {:induction false} TableAt(data: Text, p: nat, depth: nat, opt: Options) returns (d: Doc)
    requires p < |data| && data[p] == 0x7B && depth < opt.maxDepth && ParseValue(data, p, depth, opt).Ok?
    ensures Formed(d) && d.Table? && Has(data, p, Spelled(d)) && depth + Deep(d) <= opt.maxDepth
    ensures ParseValue(data, p, depth, opt).pos == p + |Spelled(d)|
    ensures Means(d, opt) == Some(ParseValue(data, p, depth, opt).value)
    decreases |data| - p, 0
  {
    hide ParseValue, ParseMembers, Has, SkipSpace, EntriesFormed, SpelledEntries, EntriesMean, DeepEntries, White;
    TableStep(data, p, depth, opt);
    var q := SkipSpace(data, p + 1);
    HasByte(data, p, 0x7B);
    if At(data, q, RBRACE) {
      var blank := BlankAt(data, p + 1);
      d := Table(blank, []);
      NoElems(opt);
      HasByte(data, q, 0x7D);
      HasConcat(data, p, [0x7B], blank);
      HasConcat(data, p, [0x7B] + blank, [0x7D]);
    } else {
      MembersBehindSpace(data, p + 1, depth + 1, opt);
      var entries := MembersAreEntries(data, p + 1, depth + 1, opt);
      d := Table([], entries);
      NoWhite();
      assert [0x7B] + SpelledEntries(entries) + [0x7D] == [0x7B] + (SpelledEntries(entries) + [0x7D]);
      HasConcat(data, p, [0x7B], SpelledEntries(entries) + [0x7D]);
    }
  }

  lemma KeyAt(data: Text, pos: nat) returns (before: Text, key: seq<Item>, beforeColon: Text)
    requires pos <= |data| && ParseKey(data, pos).Ok?
    ensures White(before) && White(beforeColon) && AllOk(key) && NoQuotes(key)
    ensures var head := before + Quoted(key) + beforeColon + [0x3A];
            Has(data, pos, head) && ParseKey(data, pos) == Ok(MeantAll(key), pos + |head|)
  {
    hide ParseString, Has, SkipSpace, White, MeantAll, WrittenAll;
    before := BlankAt(data, pos);
    var p := SkipSpace(data, pos);
    key := ReadIsSpelled(data, p);
    var q := ParseString(data, p).pos;
    beforeColon := BlankAt(data, q);
    HasByte(data, SkipSpace(data, q), 0x3A);
    HasConcat(data, pos, before, Quoted(key));
    HasConcat(data, pos, before + Quoted(key), beforeColon);
    HasConcat(data, pos, before + Quoted(key) + beforeColon, [0x3A]);
  }

  lemma MemberParts(data: Text, pos: nat, depth: nat, opt: Options)
    requires pos <= |data| && ParseMember(data, pos, depth, opt).Ok?
    ensures ParseKey(data, pos).Ok?
    ensures var k := ParseKey(data, pos);
            var r := ParseValue(data, k.pos, depth, opt);
            r.Ok? && ParseMember(data, pos, depth, opt) == Ok(Member(Name(k.value), r.value), r.pos)
  {
    hide ParseKey, ParseValue, SkipSpace;
    ValueBehindSpace(data, ParseKey(data, pos).pos, depth, opt);
  }

  /** A member and the white space after it. */
  lemma {:induction false} MemberIsEntry(data: Text, pos: nat, depth: nat, opt: Options) returns (e: Entry)
    requires pos <= |data| && ParseMember(data, pos, depth, opt).Ok?
    ensures var r := ParseMember(data, pos, depth, opt);
            && EntryFormed(e) && Has(data, pos, SpelledEntry(e)) && pos + |SpelledEntry(e)| == SkipSpace(data, r.pos)
            && EntryMeans(e, opt) == Some(r.value) && (DeepEntry(e) > 0 ==> depth + DeepEntry(e) <= opt.maxDepth)
    decreases |data| - pos, 1
  {
    hide ParseMember, ParseKey, ParseValue, Has, SkipSpace, White, Quoted, ElemFormed, SpelledElem, ElemMeans, DeepElem,
         MeantAll;
    MemberParts(data, pos, depth, opt);
    var before, key, beforeColon := KeyAt(data, pos);
    var v := ValueIsElem(data, ParseKey(data, pos).pos, depth, opt);
    e := Entry(before, key, beforeColon, v);
    HasConcat(data, pos, before + Quoted(key) + beforeColon + [0x3A], SpelledElem(v));
  }

  lemma {:induction false} MembersAreEntries(data: Text, pos: nat, depth: nat, opt: Options)
      returns (entries: seq<Entry>)
    requires pos <= |data| && ParseMembers(data, pos, depth, opt).Ok?
    ensures entries != [] && EntriesFormed(entries) && Has(data, pos, SpelledEntries(entries) + [0x7D])
    ensures ParseMembers(data, pos, depth, opt).pos == pos + |SpelledEntries(entries)| + 1
    ensures EntriesMean(entries, opt) == Some(ParseMembers(data, pos, depth, opt).value)
    ensures DeepEntries(entries) > 0 ==> depth + DeepEntries(entries) <= opt.maxDepth
    decreases |data| - pos, 3
  {
    hide ParseMember, ParseMembers, Has, SkipSpace, EntryFormed, SpelledEntry, EntryMeans, DeepEntry;
    FirstParsed(data, pos, depth, opt);
    MembersStep(data, pos, depth, opt);
    var e := MemberIsEntry(data, pos, depth, opt);
    var q := SkipSpace(data, ParseMember(data, pos, depth, opt).pos);
    if At(data, q, RBRACE) {
      entries := [e];
      NoElems(opt);
      assert entries[1..] == [];
      assert [EntryMeans(e, opt).value] + [] == [EntryMeans(e, opt).value];
      HasByte(data, q, 0x7D);
      HasConcat(data, pos, SpelledEntry(e), [0x7D]);
      assert SpelledEntry(e) + [] == SpelledEntry(e);
    } else {
      var rest := MembersAreEntries(data, q + 1, depth, opt);
      entries := [e] + rest;
      assert entries[1..] == rest;
      HasByte(data, q, 0x2C);
      var more := SpelledEntries(rest) + [0x7D];
      HasConcat(data, q, [0x2C], more);
      HasConcat(data, pos, SpelledEntry(e), [0x2C] + more);
      assert SpelledEntry(e) + ([0x2C] + SpelledEntries(rest)) + [0x7D] == SpelledEntry(e) + ([0x2C] + more);
    }
  }

  /** The decoder decodes exactly the texts of the grammar that fit the depth limit and whose numbers
      can be represented, each to what it means, up to its end. It takes two liberties: any run of
      the bytes numbers are made of is taken for one, and literals may hold control bytes. */
  lemma DecoderExact(data: Text, pos: nat, depth: nat, opt: Options, v: Val, end: nat)
    requires pos <= |data|
    ensures ParseValue(data, pos, depth, opt) == Ok(v, end)
       <==> exists before, d :: Stands(data, pos, end, depth, opt, before, d) && Means(d, opt) == Some(v)
  {
    hide ParseValue, Means;
    if ParseValue(data, pos, depth, opt) == Ok(v, end) {
      var before, d := ReadIsDoc(data, pos, depth, opt);
    }
    if before, d :| Stands(data, pos, end, depth, opt, before, d) && Means(d, opt) == Some(v) {
      DocIsRead(data, pos, end, depth, opt, before, d);
    }
  }
}
