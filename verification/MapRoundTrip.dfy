/** The round trip in the decoder's own terms: maps have no member order. */
module MapRoundTrip {
  import opened Bytes
  import opened Values
  import opened Utf8
  import opened Parsing
  import opened RoundTrip
  import opened Targets

  /** `v` lists the contents of `a`, with the members of every map in some order. */
  predicate Lists(v: Val, a: Any)
    decreases v, 1
  {
    match v
    case Null => a.Nil?
    case Bool(b) => a == Boolean(b)
    case Int(i) => a == Int64(i)
    case Num(t) => a == Number(t)
    case Str(s) => a == String(s)
    case Arr(items) => a.List? && |a.items| == |items| && ListsItems(items, a.items)
    case Obj(members) => a.Dict? && DistinctKeys(members) && ListsMembers(members, a.entries)
        && OnlyKeys(members, a.entries)
    case _ => false
  }

  predicate ListsItems(items: seq<Val>, xs: seq<Any>)
    requires |items| == |xs|
    decreases items, 0
  {
    forall i | 0 <= i < |items| :: Lists(items[i], xs[i])
  }

  predicate ListsMembers(members: seq<Member>, entries: map<Text, Any>)
    decreases members, 0
  {
    forall i | 0 <= i < |members| :: ListsMember(members[i], entries)
  }

  predicate ListsMember(m: Member, entries: map<Text, Any>)
    decreases m, 2
  {
    KeyText(m.key) in entries && Lists(m.value, entries[KeyText(m.key)])
  }

  predicate OnlyKeys(members: seq<Member>, entries: map<Text, Any>) {
    forall key | key in entries :: exists i | 0 <= i < |members| :: KeyText(members[i].key) == key
  }

  /** Any listing means the value it lists. */
  lemma {:induction false} ListingMeans(v: Val, a: Any)
    requires Lists(v, a)
    ensures Meaning(v) == a
    decreases v, 1
  {
    match v
    case Arr(items) => ItemsMean(items, a.items);
    case Obj(members) => MembersMean(members, a.entries);
    case _ =>
  }

  lemma {:induction false} ItemsMean(items: seq<Val>, xs: seq<Any>)
    requires |items| == |xs| && ListsItems(items, xs)
    ensures MeaningItems(items) == xs
    decreases items, 0
  {
    if items != [] {
      var n := |items| - 1;
      ItemsMean(items[..n], xs[..n]);
      ListingMeans(items[n], xs[n]);
      assert xs == xs[..n] + [xs[n]];
    }
  }

  lemma {:induction false} MembersMean(members: seq<Member>, entries: map<Text, Any>)
    requires DistinctKeys(members) && ListsMembers(members, entries) && OnlyKeys(members, entries)
    ensures MeaningMembers(members) == entries
    decreases members, 0
  {
    var ms := MeaningMembers(members);
    forall i | 0 <= i < |members|
      ensures KeyText(members[i].key) in ms && ms[KeyText(members[i].key)] == entries[KeyText(members[i].key)]
    {
      assert ListsMember(members[i], entries);
      MemberMeans(members[i], entries);
      MeaningLookup(members, i);
    }
    forall key
      ensures key in ms <==> key in entries
      ensures key in ms ==> ms[key] == entries[key]
    {
      MeaningKeys(members, key);
      if key in ms {
        var i :| 0 <= i < |members| && KeyText(members[i].key) == key;
        assert ListsMember(members[i], entries);
      }
    }
  }

  lemma {:induction false} MemberMeans(m: Member, entries: map<Text, Any>)
    requires ListsMember(m, entries)
    ensures Meaning(m.value) == entries[KeyText(m.key)]
    decreases m, 2
  {
    ListingMeans(m.value, entries[KeyText(m.key)]);
  }

  /** Printing any listing of a value, compact or indented, and decoding the text under the same
      limit gives the value back and consumes the text, unless the text is validated and a string
      or key is not UTF-8. */
  lemma AnyOrderRoundTrip(cfg: Config, a: Any, v: Val, opt: Options)
    requires Lists(v, a) && Ready(cfg, v, 0, opt)
    ensures var text := Print(cfg, v, 0);
            var r := ParseDocument(text, 0, 0, opt);
            if opt.validate && !Utf8Val(v) then r == Fail(InvalidUTF8)
            else r.Ok? && r.pos == |text| && Meaning(r.value) == a
  {
    ListingMeans(v, a);
    var text := Print(cfg, v, 0);
    HasAll(text);
    PrintIsUtf8(cfg, v, 0);
    hide Lists, Meaning, Ready, ParseValue, Print, Utf8Val, ValidUtf8;
    ValueRoundTrip(cfg, v, 0, text, 0, 0, opt);
  }
}
