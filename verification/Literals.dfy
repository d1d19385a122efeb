/** String literals in a document: which are read, and as what. */
module Literals {
  import opened Bytes
  import opened Strings
  import opened Parsing
  import opened Escapes

  predicate NoQuotes(items: seq<Item>) {
    forall k | 0 <= k < |items| :: items[k] != Raw(0x22)
  }

  lemma UnitDigits(u: int, upper: set<nat>, from: nat)
    requires 0 <= u < 0x1_0000
    ensures var t := UnitText(u, upper, from);
            t[0] == 0x5C && t[1] == 0x75 && forall i | 2 <= i < 6 :: t[i] != QUOTE && t[i] != BACKSLASH
  {
  }

  lemma UnitIsPassed(data: Text, pos: nat, u: int, upper: set<nat>, from: nat)
    requires 0 <= u < 0x1_0000 && Has(data, pos, UnitText(u, upper, from))
    ensures pos + 6 <= |data| && FindQuote(data, pos) == FindQuote(data, pos + 6)
  {
    var t := UnitText(u, upper, from);
    UnitDigits(u, upper, from);
    hide UnitText;
    HasSlice(data, pos, t);
    var u6 := data[pos..pos + 6];
    assert u6 == t && data[pos] == u6[0] && data[pos + 1] == u6[1];
    forall k | pos + 2 <= k < pos + 6
      ensures data[k] != QUOTE && data[k] != BACKSLASH
    {
      assert data[k] == u6[k - pos];
    }
    PlainRun(data, pos + 2, 4);
  }

  /** The search for the closing quote passes every unit but a quotation mark as it is. */
  lemma ItemIsPassed(data: Text, pos: nat, i: Item)
    requires ItemOk(i) && i != Raw(0x22) && Has(data, pos, Written(i))
    ensures pos + |Written(i)| <= |data| && FindQuote(data, pos) == FindQuote(data, pos + |Written(i)|)
  {
    match i
    case Raw(_) =>
    case Short(_) => HasSlice(data, pos, Written(i));
      assert data[pos..pos + 2][0] == data[pos];
    case Coded(code, upper) =>
      hide UnitText;
      if code < 0x1_0000 {
        UnitIsPassed(data, pos, code, upper, 0);
      } else {
        var high, low := 0xD800 + (code - 0x1_0000) / 0x400, 0xDC00 + (code - 0x1_0000) % 0x400;
        HasConcat(data, pos, UnitText(high, upper, 0), UnitText(low, upper, 4));
        UnitIsPassed(data, pos, high, upper, 0);
        UnitIsPassed(data, pos + 6, low, upper, 4);
      }
  }

  lemma {:induction false} ItemsArePassed(data: Text, pos: nat, items: seq<Item>)
    requires AllOk(items) && Has(data, pos, WrittenAll(items))
    ensures var end := pos + |WrittenAll(items)|;
            end <= |data|
            && if NoQuotes(items) then FindQuote(data, pos)
                == FindQuote(data, end) else pos <= FindQuote(data, pos) < end
    decreases items
  {
    hide Written;
    if items != [] {
      HasConcat(data, pos, Written(items[0]), WrittenAll(items[1..]));
      var next := pos + |Written(items[0])|;
      ItemsArePassed(data, next, items[1..]);
      if items[0] == Raw(0x22) {
        QuoteIsFound(data, pos);
      } else {
        ItemIsPassed(data, pos, items[0]);
        assert NoQuotes(items) <==> NoQuotes(items[1..]);
      }
    }
  }

  lemma QuoteIsFound(data: Text, pos: nat)
    requires Has(data, pos, Written(Raw(0x22)))
    ensures pos < |data| && FindQuote(data, pos) == pos && |Written(Raw(0x22))| == 1
  {
  }

  /** From `pos` to `end` stands a literal written with these units. */
  predicate Spells(data: Text, pos: nat, items: seq<Item>, end: nat) {
    && AllOk(items) && NoQuotes(items)
    && Has(data, pos, [0x22] + WrittenAll(items) + [0x22]) && end == pos + |WrittenAll(items)| + 2
  }

  lemma HasQuoted(data: Text, pos: nat, t: Text)
    ensures Has(data, pos, [0x22] + t + [0x22]) <==>
              pos + |t| + 1 < |data| && data[pos] == 0x22 && data[pos + 1..pos + 1 + |t|] == t
                  && data[pos + 1 + |t|] == 0x22
  {
    HasConcat(data, pos, [0x22] + t, [0x22]);
    HasConcat(data, pos, [0x22], t);
    HasByte(data, pos, 0x22);
    HasByte(data, pos + 1 + |t|, 0x22);
    HasSlice(data, pos + 1, t);
    hide Has;
  }

  lemma HasByte(data: Text, pos: nat, b: byte)
    ensures Has(data, pos, [b]) <==> pos < |data| && data[pos] == b
  {
    assert [b][1..] == [];
  }

  lemma SpelledIsRead(data: Text, pos: nat, items: seq<Item>, end: nat)
    requires Spells(data, pos, items, end)
    ensures pos < |data| && ParseString(data, pos) == Ok(MeantAll(items), end)
  {
    hide Unescape, Has, WrittenAll, MeantAll;
    var t := WrittenAll(items);
    HasQuoted(data, pos, t);
    HasSlice(data, pos + 1, t);
    ItemsArePassed(data, pos + 1, items);
    UnescapeWritten(items);
    assert FindQuote(data, pos + 1 + |t|) == pos + 1 + |t|;
  }

  lemma ReadIsSpelled(data: Text, pos: nat) returns (items: seq<Item>)
    requires pos < |data| && ParseString(data, pos).Ok?
    ensures Spells(data, pos, items, ParseString(data, pos).pos)
    ensures ParseString(data, pos).value == MeantAll(items)
  {
    hide Unescape, Has, WrittenAll, MeantAll;
    var q := FindQuote(data, pos + 1);
    var inner := data[pos + 1..q];
    items := WritingOf(inner);
    UnescapeWritten(items);
    HasSlice(data, pos + 1, inner);
    ItemsArePassed(data, pos + 1, items);
    HasQuoted(data, pos, inner);
  }

  /** Which literals are read, and as what: exactly the ways of writing a string between quotation
      marks, each as the string that is meant. */
  lemma LiteralIsRead(data: Text, pos: nat, s: Text, end: nat)
    requires pos < |data|
    ensures ParseString(data, pos) == Ok(s, end)
       <==> exists items :: Spells(data, pos, items, end) && MeantAll(items) == s
  {
    hide ParseString, MeantAll, WrittenAll, Has;
    if ParseString(data, pos) == Ok(s, end) {
      var items := ReadIsSpelled(data, pos);
    }
    if items :| Spells(data, pos, items, end) && MeantAll(items) == s {
      SpelledIsRead(data, pos, items, end);
    }
  }
}
