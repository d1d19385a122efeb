/** The decoder's nesting limit, exactly. */
module DepthLimit {
  import opened Bytes
  import opened Values
  import opened Parsing

  /** Containers on the longest path. */
  function Nest(v: Val): nat
    decreases v, 1
  {
    match v
    case Arr(items) => 1 + NestItems(items)
    case Obj(members) => 1 + NestMembers(members)
    case _ => 0
  }

  function NestItems(items: seq<Val>): nat
    decreases items, 0
  {
    if items == [] then 0 else Max(Nest(items[0]), NestItems(items[1..]))
  }

  function NestMembers(members: seq<Member>): nat
    decreases members, 0
  {
    if members == [] then 0 else Max(NestMember(members[0]), NestMembers(members[1..]))
  }

  function NestMember(m: Member): nat
    decreases m, 2
  {
    Nest(m.value)
  }

  predicate Fits(nest: nat, depth: nat, max: int) {
    nest == 0 || depth + nest <= max
  }

  /** The same document under another limit: decoded to the same tree when its containers fit,
      and otherwise refused with a stack overflow and nothing else. */
  lemma {:induction false} LimitExact(data: Text, pos: nat, depth: nat, opt: Options, max: int)
    requires pos <= |data| && ParseValue(data, pos, depth, opt).Ok?
    ensures var r := ParseValue(data, pos, depth, opt);
            ParseValue(data, pos, depth, opt.(maxDepth := max))
            == if Fits(Nest(r.value), depth, max) then r else Fail(StackOverflow)
    decreases |data| - pos, 0
  {
    var p := SkipSpace(data, pos);
    if data[p] == LBRACE && depth < max {
      ObjectLimit(data, p + 1, depth + 1, opt, max);
    } else if data[p] == LBRACKET && depth < max {
      ArrayLimit(data, p + 1, depth + 1, opt, max);
    }
  }

  lemma {:induction false} ArrayLimit(data: Text, pos: nat, depth: nat, opt: Options, max: int)
    requires pos <= |data| && ParseArray(data, pos, depth, opt).Ok? && depth <= max
    ensures var r := ParseArray(data, pos, depth, opt);
            ParseArray(data, pos, depth, opt.(maxDepth := max))
            == if depth + NestItems(r.value) <= max then r else Fail(StackOverflow)
    decreases |data| - pos, 2
  {
    if !At(data, SkipSpace(data, pos), RBRACKET) {
      ItemsLimit(data, SkipSpace(data, pos), depth, opt, max);
    }
  }

  lemma {:induction false} ItemsLimit(data: Text, pos: nat, depth: nat, opt: Options, max: int)
    requires pos <= |data| && ParseItems(data, pos, depth, opt).Ok? && depth <= max
    ensures var r := ParseItems(data, pos, depth, opt);
            ParseItems(data, pos, depth, opt.(maxDepth := max))
            == if depth + NestItems(r.value) <= max then r else Fail(StackOverflow)
    decreases |data| - pos, 1
  {
    hide ParseValue, SkipSpace, Nest;
    LimitExact(data, pos, depth, opt, max);
    var v := ParseValue(data, pos, depth, opt);
    var q := SkipSpace(data, v.pos);
    if At(data, q, RBRACKET) {
      NestCons(v.value, []);
    } else {
      ItemsLimit(data, q + 1, depth, opt, max);
      NestCons(v.value, ParseItems(data, q + 1, depth, opt).value);
    }
  }

  lemma NestCons(v: Val, rest: seq<Val>)
    ensures NestItems([v] + rest) == Max(Nest(v), NestItems(rest))
    ensures rest == [] ==> [v] + rest == [v]
  {
    assert ([v] + rest)[1..] == rest;
  }

  lemma NestMemberCons(m: Member, rest: seq<Member>)
    ensures NestMembers([m] + rest) == Max(NestMember(m), NestMembers(rest))
    ensures rest == [] ==> [m] + rest == [m]
  {
    assert ([m] + rest)[1..] == rest;
  }

  lemma {:induction false} ObjectLimit(data: Text, pos: nat, depth: nat, opt: Options, max: int)
    requires pos <= |data| && ParseObject(data, pos, depth, opt).Ok? && depth <= max
    ensures var r := ParseObject(data, pos, depth, opt);
            ParseObject(data, pos, depth, opt.(maxDepth := max))
            == if depth + NestMembers(r.value) <= max then r else Fail(StackOverflow)
    decreases |data| - pos, 2
  {
    if !At(data, SkipSpace(data, pos), RBRACE) {
      MembersLimit(data, SkipSpace(data, pos), depth, opt, max);
    }
  }

  lemma {:induction false} MembersLimit(data: Text, pos: nat, depth: nat, opt: Options, max: int)
    requires pos <= |data| && ParseMembers(data, pos, depth, opt).Ok? && depth <= max
    ensures var r := ParseMembers(data, pos, depth, opt);
            ParseMembers(data, pos, depth, opt.(maxDepth := max))
            == if depth + NestMembers(r.value) <= max then r else Fail(StackOverflow)
    decreases |data| - pos, 1
  {
    hide ParseMember, SkipSpace, ParseValue, Nest;
    MemberLimit(data, pos, depth, opt, max);
    var m := ParseMember(data, pos, depth, opt);
    var q := SkipSpace(data, m.pos);
    if At(data, q, RBRACE) {
      NestMemberCons(m.value, []);
    } else {
      MembersLimit(data, q + 1, depth, opt, max);
      NestMemberCons(m.value, ParseMembers(data, q + 1, depth, opt).value);
    }
  }

  lemma {:induction false} MemberLimit(data: Text, pos: nat, depth: nat, opt: Options, max: int)
    requires pos <= |data| && ParseMember(data, pos, depth, opt).Ok? && depth <= max
    ensures var r := ParseMember(data, pos, depth, opt);
            ParseMember(data, pos, depth, opt.(maxDepth := max))
            == if depth + NestMember(r.value) <= max then r else Fail(StackOverflow)
    decreases |data| - pos, 0
  {
    var p := SkipSpace(data, ParseKey(data, pos).pos);
    hide ParseKey;
    LimitExact(data, p, depth, opt, max);
  }

  /** No decoded value nests containers beyond the limit. */
  lemma NestingBounded(data: Text, pos: nat, depth: nat, opt: Options)
    requires pos <= |data| && ParseValue(data, pos, depth, opt).Ok?
    ensures Fits(Nest(ParseValue(data, pos, depth, opt).value), depth, opt.maxDepth)
  {
    LimitExact(data, pos, depth, opt, opt.maxDepth);
    assert opt.(maxDepth := opt.maxDepth) == opt;
  }

  // ----- no index out of range -----

  /** Decoding never runs off the data, whatever the bytes: unlike the skip functions it reports
      an error there. */
  lemma {:induction false} ParseNeverPanics(data: Text, pos: nat, depth: nat, opt: Options)
    requires pos <= |data|
    ensures ParseValue(data, pos, depth, opt) != Fail(IndexPanic)
    decreases |data| - pos, 0
  {
    var p := SkipSpace(data, pos);
    if At(data, p, LBRACE) {
      var q := SkipSpace(data, p + 1);
      if !At(data, q, RBRACE) {
        MembersNeverPanic(data, q, depth + 1, opt);
      }
    } else if At(data, p, LBRACKET) {
      var q := SkipSpace(data, p + 1);
      if !At(data, q, RBRACKET) {
        ItemsNeverPanic(data, q, depth + 1, opt);
      }
    }
  }

  lemma {:induction false} MembersNeverPanic(data: Text, pos: nat, depth: nat, opt: Options)
    requires pos <= |data|
    ensures ParseMembers(data, pos, depth, opt) != Fail(IndexPanic)
    decreases |data| - pos, 1
  {
    var k := ParseKey(data, pos);
    if k.Ok? {
      ParseNeverPanics(data, SkipSpace(data, k.pos), depth, opt);
    }
    var m := ParseMember(data, pos, depth, opt);
    hide ParseKey, ParseValue;
    if m.Ok? {
      var q := SkipSpace(data, m.pos);
      if At(data, q, COMMA) {
        MembersNeverPanic(data, q + 1, depth, opt);
      }
    }
  }

  lemma {:induction false} ItemsNeverPanic(data: Text, pos: nat, depth: nat, opt: Options)
    requires pos <= |data|
    ensures ParseItems(data, pos, depth, opt) != Fail(IndexPanic)
    decreases |data| - pos, 1
  {
    ParseNeverPanics(data, pos, depth, opt);
    var v := ParseValue(data, pos, depth, opt);
    hide ParseValue;
    if v.Ok? {
      var q := SkipSpace(data, v.pos);
      if At(data, q, COMMA) {
        ItemsNeverPanic(data, q + 1, depth, opt);
      }
    }
  }
}
