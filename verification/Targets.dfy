/** Decoding into Go targets: interface{} values, struct fields and fixed-size arrays. */
module Targets {
  import opened Bytes
  import opened Values
  import opened Parsing
  import opened SkipAgreement

  /** What ends up in an interface{}: objects become maps, so that a repeated key keeps its
      last value and member order is forgotten. */
  datatype Any =
    | Nil
    | Boolean(b: bool)
    | Int64(i: int)
    | Number(text: Text)
    | String(s: Text)
    | List(items: seq<Any>)
    | Dict(entries: map<Text, Any>)

  function Meaning(v: Val): Any
    decreases v, 1
  {
    match v
    case Bool(b) => Boolean(b)
    case Int(i) => Int64(i)
    case Num(t) => Number(t)
    case Str(s) => String(s)
    case Arr(items) => List(MeaningItems(items))
    case Obj(members) => Dict(MeaningMembers(members))
    case _ => Nil
  }

  function MeaningItems(items: seq<Val>): (r: seq<Any>)
    ensures |r| == |items|
    decreases items, 0
  {
    if items == [] then [] else MeaningItems(items[..|items| - 1]) + [Meaning(items[|items| - 1])]
  }

  function MeaningMembers(members: seq<Member>): map<Text, Any>
    decreases members, 0
  {
    if members == [] then map[]
    else
      var m := members[|members| - 1];
      MeaningMembers(members[..|members| - 1])[KeyText(m.key) := MeaningMember(m)]
  }

  lemma MeaningNone()
    ensures MeaningMembers([]) == map[] && MeaningItems([]) == []
  {
  }

  lemma MeaningSnoc(members: seq<Member>, m: Member)
    ensures MeaningMembers(members + [m]) == MeaningMembers(members)[KeyText(m.key) := Meaning(m.value)]
  {
    assert (members + [m])[..|members|] == members;
  }

  lemma MeaningItemsSnoc(items: seq<Val>, v: Val)
    ensures MeaningItems(items + [v]) == MeaningItems(items) + [Meaning(v)]
  {
    assert (items + [v])[..|items|] == items;
  }

  function MeaningMember(m: Member): Any
    decreases m, 2
  {
    Meaning(m.value)
  }

  /** Keys that are all different: the map holds every member, in whatever order they came. */
  predicate DistinctKeys(members: seq<Member>) {
    forall i, j | 0 <= i < j < |members| :: KeyText(members[i].key) != KeyText(members[j].key)
  }

  lemma {:induction false} MeaningLookup(members: seq<Member>, k: nat)
    requires k < |members|
    requires forall j | k < j < |members| :: KeyText(members[j].key) != KeyText(members[k].key)
    ensures KeyText(members[k].key) in MeaningMembers(members)
    ensures MeaningMembers(members)[KeyText(members[k].key)] == Meaning(members[k].value)
  {
    hide KeyText, Meaning;
    var n := |members| - 1;
    if k < n {
      MeaningLookup(members[..n], k);
    }
  }

  lemma {:induction false} MeaningKeys(members: seq<Member>, key: Text)
    ensures key in MeaningMembers(members) <==> exists k | 0 <= k < |members| :: KeyText(members[k].key) == key
    decreases |members|
  {
    if members != [] {
      var n := |members| - 1;
      MeaningKeys(members[..n], key);
      if key in MeaningMembers(members) && KeyText(members[n].key) != key {
        var k :| 0 <= k < n && KeyText(members[..n][k].key) == key;
        assert KeyText(members[k].key) == key;
      }
      if k :| 0 <= k < |members| && KeyText(members[k].key) == key {
        assert k < n ==> members[..n][k] == members[k];
      }
    }
  }

  /** The decoded map does not depend on the order in which a map's members were printed. */
  lemma OrderIsForgotten(a: seq<Member>, b: seq<Member>)
    requires DistinctKeys(a) && DistinctKeys(b)
    requires forall m :: m in a <==> m in b
    ensures MeaningMembers(a) == MeaningMembers(b)
  {
    var x, y := MeaningMembers(a), MeaningMembers(b);
    forall key
      ensures key in x <==> key in y
      ensures key in x ==> x[key] == y[key]
    {
      MeaningKeys(a, key);
      MeaningKeys(b, key);
      if i :| 0 <= i < |a| && KeyText(a[i].key) == key {
        assert a[i] in b;
        var j :| 0 <= j < |b| && b[j] == a[i];
        MeaningLookup(a, i);
        MeaningLookup(b, j);
      }
      if j :| 0 <= j < |b| && KeyText(b[j].key) == key {
        assert b[j] in a;
      }
    }
  }

  // ----- the decoder's loops -----

  function Put(m: map<Text, Any>, t: Member): map<Text, Any> {
    m[KeyText(t.key) := Meaning(t.value)]
  }

  /** The loop of decodeMap, which stores every member at once. */
  function ParseEntries(data: Text, pos: nat, depth: nat, opt: Options, m: map<Text, Any>): Parse<map<Text, Any>>
    requires pos <= |data|
    decreases |data| - pos
  {
    match ParseMember(data, pos, depth, opt)
    case Fail(e) => Fail(e)
    case Ok(t, p) =>
      var q := SkipSpace(data, p);
      if At(data, q, RBRACE) then Ok(Put(m, t), q + 1)
      else if At(data, q, COMMA) then ParseEntries(data, q + 1, depth, opt, Put(m, t))
      else Fail(InvalidJSON)
  }

  function PutAll(m: map<Text, Any>, ms: seq<Member>): map<Text, Any>
    decreases |ms|
  {
    if ms == [] then m else PutAll(Put(m, ms[0]), ms[1..])
  }

  lemma {:induction false} PutAllSnoc(m: map<Text, Any>, ms: seq<Member>, t: Member)
    ensures PutAll(m, ms + [t]) == Put(PutAll(m, ms), t)
    decreases |ms|
  {
    if ms == [] {
      assert ms + [t] == [t];
      assert [t][1..] == [];
    } else {
      assert (ms + [t])[1..] == ms[1..] + [t];
      PutAllSnoc(Put(m, ms[0]), ms[1..], t);
    }
  }

  lemma {:induction false} PutAllMeaning(ms: seq<Member>)
    ensures PutAll(map[], ms) == MeaningMembers(ms)
    decreases |ms|
  {
    hide Meaning, KeyText;
    if ms != [] {
      var n := |ms| - 1;
      PutAllMeaning(ms[..n]);
      PutAllSnoc(map[], ms[..n], ms[n]);
      assert ms == ms[..n] + [ms[n]];
      MeaningSnoc(ms[..n], ms[n]);
    }
  }

  /** Storing members one by one gives the map of all of them. */
  lemma {:induction false} EntriesArePut(data: Text, pos: nat, depth: nat, opt: Options, m: map<Text, Any>)
    requires pos <= |data|
    ensures ParseEntries(data, pos, depth, opt, m)
         == match ParseMembers(data, pos, depth, opt)
            case Fail(e) => Fail(e)
            case Ok(ms, p) => Ok(PutAll(m, ms), p)
    decreases |data| - pos
  {
    hide ParseMember, SkipSpace, Put, PutAll;
    var r := ParseMember(data, pos, depth, opt);
    if r.Ok? {
      var q := SkipSpace(data, r.pos);
      if At(data, q, COMMA) {
        EntriesArePut(data, q + 1, depth, opt, Put(m, r.value));
        var rest := ParseMembers(data, q + 1, depth, opt);
        PutAllCons(m, r.value, if rest.Ok? then rest.value else []);
      } else {
        PutAllCons(m, r.value, []);
      }
    }
  }

  lemma {:induction false} PutAllCons(m: map<Text, Any>, t: Member, ms: seq<Member>)
    ensures PutAll(m, [t] + ms) == PutAll(Put(m, t), ms) && PutAll(m, [t]) == Put(m, t)
  {
    hide Put;
    assert ([t] + ms)[1..] == ms && [t][1..] == [];
  }

  lemma EntriesAreMembers(data: Text, pos: nat, depth: nat, opt: Options)
    requires pos <= |data|
    ensures ParseEntries(data, pos, depth, opt, map[])
         == match ParseMembers(data, pos, depth, opt)
            case Fail(e) => Fail(e)
            case Ok(ms, p) => Ok(MeaningMembers(ms), p)
  {
    hide ParseMembers, ParseEntries, PutAll, MeaningMembers;
    EntriesArePut(data, pos, depth, opt, map[]);
    var r := ParseMembers(data, pos, depth, opt);
    if r.Ok? {
      PutAllMeaning(r.value);
    }
  }

  /** The loop of decodeSlice. */
  function ParseElements(data: Text, pos: nat, depth: nat, opt: Options, done: seq<Any>): Parse<seq<Any>>
    requires pos <= |data|
    decreases |data| - pos
  {
    match ParseValue(data, pos, depth, opt)
    case Fail(e) => Fail(e)
    case Ok(v, p) =>
      var q := SkipSpace(data, p);
      if At(data, q, RBRACKET) then Ok(done + [Meaning(v)], q + 1)
      else if At(data, q, COMMA) then ParseElements(data, q + 1, depth, opt, done + [Meaning(v)])
      else Fail(InvalidJSON)
  }

  lemma {:induction false} MeaningItemsCons(v: Val, vs: seq<Val>)
    ensures MeaningItems([v] + vs) == [Meaning(v)] + MeaningItems(vs)
    decreases |vs|
  {
    if vs == [] {
      assert [v] + vs == [] + [v];
      MeaningItemsSnoc([], v);
    } else {
      var n := |vs| - 1;
      MeaningItemsCons(v, vs[..n]);
      assert [v] + vs == ([v] + vs[..n]) + [vs[n]];
      MeaningItemsSnoc([v] + vs[..n], vs[n]);
    }
  }

  lemma MeaningItemsOne(v: Val)
    ensures MeaningItems([v]) == [Meaning(v)]
  {
    MeaningItemsSnoc([], v);
    assert [] + [v] == [v] && MeaningItems([]) == [];
  }

  lemma {:induction false} ElementsAppend(data: Text, pos: nat, depth: nat, opt: Options, done: seq<Any>)
    requires pos <= |data|
    ensures ParseElements(data, pos, depth, opt, done)
         == match ParseItems(data, pos, depth, opt)
            case Fail(e) => Fail(e)
            case Ok(vs, p) => Ok(done + MeaningItems(vs), p)
    decreases |data| - pos
  {
    hide ParseValue, SkipSpace, Meaning, MeaningItems;
    var r := ParseValue(data, pos, depth, opt);
    if r.Ok? {
      var q := SkipSpace(data, r.pos);
      if At(data, q, COMMA) {
        var next := done + [Meaning(r.value)];
        ElementsAppend(data, q + 1, depth, opt, next);
        var rest := ParseItems(data, q + 1, depth, opt);
        if rest.Ok? {
          MeaningItemsCons(r.value, rest.value);
          assert next + MeaningItems(rest.value) == done + ([Meaning(r.value)] + MeaningItems(rest.value));
        }
      } else {
        MeaningItemsOne(r.value);
      }
    }
  }

  lemma ElementsAreItems(data: Text, pos: nat, depth: nat, opt: Options)
    requires pos <= |data|
    ensures ParseElements(data, pos, depth, opt, [])
         == match ParseItems(data, pos, depth, opt)
            case Fail(e) => Fail(e)
            case Ok(vs, p) => Ok(MeaningItems(vs), p)
  {
    hide ParseItems, ParseElements, MeaningItems, ParseValue;
    ElementsAppend(data, pos, depth, opt, []);
    var r := ParseItems(data, pos, depth, opt);
    assert r.Ok? ==> [] + MeaningItems(r.value) == MeaningItems(r.value);
  }

  // ----- structs -----

  /** A struct's name tables and the options that steer field lookup. `fold` is the case
      folding of names. */
  datatype Table = Table(exact: map<Text, nat>, folded: map<Text, nat>, fold: Text -> Text,
                         disableCache: bool, disallowUnknown: bool)

  /** The field a member name selects: the exact name, else (unless disabled) the folded one. */
  function Resolve(t: Table, name: Text): Option<nat> {
    if name in t.exact then Some(t.exact[name])
    else if !t.disableCache && t.fold(name) in t.folded then Some(t.folded[t.fold(name)])
    else None
  }

  /** decodeStruct with interface{} fields, after the opening brace: known fields are decoded,
      the values of unknown ones are skipped. */
  function ParseStruct(data: Text, pos: nat, depth: nat, opt: Options, t: Table, fields: map<nat,
      Any>): Parse<map<nat, Any>>
    requires pos <= |data|
  {
    var p := SkipSpace(data, pos);
    if At(data, p, RBRACE) then Ok(fields, p + 1) else ParseFields(data, p, depth, opt, t, fields)
  }

  function ParseFields(data: Text, pos: nat, depth: nat, opt: Options, t: Table, fields: map<nat,
      Any>): Parse<map<nat, Any>>
    requires pos <= |data|
    decreases |data| - pos
  {
    match ParseField(data, pos, depth, opt, t, fields)
    case Fail(e) => Fail(e)
    case Ok(fs, p) =>
      var q := SkipSpace(data, p);
      if At(data, q, RBRACE) then Ok(fs, q + 1)
      else if At(data, q, COMMA) then ParseFields(data, q + 1, depth, opt, t, fs)
      else Fail(InvalidJSON)
  }

  function ParseField(data: Text, pos: nat, depth: nat, opt: Options, t: Table, fields: map<nat,
      Any>): (r: Parse<map<nat, Any>>)
    requires pos <= |data|
    ensures Advances(data, pos, r)
  {
    match ParseKey(data, pos)
    case Fail(e) => Fail(e)
    case Ok(k, p) =>
      match Resolve(t, k)
      case Some(i) =>
        (match ParseValue(data, p, depth, opt)
         case Fail(e) => Fail(e)
         case Ok(v, q) => Ok(fields[i := Meaning(v)], q))
      case None =>
        if t.disallowUnknown then Fail(UnknownField)
        else
          match SkipValue(data, p)
          case Fail(e) => Fail(e)
          case Ok(_, q) => Ok(fields, q)
  }

  /** The effect of members on the fields, one after the other. */
  function Project(t: Table, fields: map<nat, Any>, members: seq<Member>): map<nat, Any>
    decreases |members|
  {
    if members == [] then fields
    else
      var m := members[0];
      Project(t, Assign(t, fields, m), members[1..])
  }

  function Assign(t: Table, fields: map<nat, Any>, m: Member): map<nat, Any> {
    match Resolve(t, KeyText(m.key))
    case Some(i) => fields[i := Meaning(m.value)]
    case None => fields
  }

  /** Whenever the map decoder reads an object, the struct decoder reads it too, stops at the
      same place and projects the members onto the fields. */
  lemma StructIsProjection(data: Text, pos: nat, depth: nat, opt: Options, t: Table, fields: map<nat, Any>)
    requires pos <= |data| && !t.disallowUnknown
    requires ParseObject(data, pos, depth, opt).Ok?
    ensures var r := ParseObject(data, pos, depth, opt);
            ParseStruct(data, pos, depth, opt, t, fields) == Ok(Project(t, fields, r.value), r.pos)
  {
    var p := SkipSpace(data, pos);
    if !At(data, p, RBRACE) {
      FieldsAreProjection(data, p, depth, opt, t, fields);
    }
  }

  lemma {:induction false} FieldsAreProjection(data: Text, pos: nat, depth: nat, opt: Options, t: Table,
      fields: map<nat, Any>)
    requires pos <= |data| && !t.disallowUnknown
    requires ParseMembers(data, pos, depth, opt).Ok?
    ensures var r := ParseMembers(data, pos, depth, opt);
            ParseFields(data, pos, depth, opt, t, fields) == Ok(Project(t, fields, r.value), r.pos)
    decreases |data| - pos
  {
    hide ParseMember, ParseField, Assign, SkipSpace, Project, ParseValue;
    var m := ParseMember(data, pos, depth, opt);
    var q := SkipSpace(data, m.pos);
    SpaceThenClose(data, m.pos, data[q]);
    FieldIsAssignment(data, pos, depth, opt, t, fields);
    var fs := Assign(t, fields, m.value);
    if At(data, q, RBRACE) {
      ProjectCons(t, fields, m.value, []);
    } else {
      FieldsAreProjection(data, q + 1, depth, opt, t, fs);
      ProjectCons(t, fields, m.value, ParseMembers(data, q + 1, depth, opt).value);
    }
  }

  lemma ProjectCons(t: Table, fields: map<nat, Any>, m: Member, rest: seq<Member>)
    ensures Project(t, fields, [m] + rest) == Project(t, Assign(t, fields, m), rest)
    ensures rest == [] ==> Project(t, fields, [m]) == Assign(t, fields, m)
  {
    assert ([m] + rest)[1..] == rest && [m] + [] == [m];
  }

  lemma FieldIsAssignment(data: Text, pos: nat, depth: nat, opt: Options, t: Table, fields: map<nat, Any>)
    requires pos <= |data| && !t.disallowUnknown
    requires ParseMember(data, pos, depth, opt).Ok? && AtDelimiter(data, ParseMember(data, pos, depth, opt).pos)
    ensures var r := ParseMember(data, pos, depth, opt);
            ParseField(data, pos, depth, opt, t, fields) == Ok(Assign(t, fields, r.value), r.pos)
  {
    var p := ParseKey(data, pos).pos;
    SameValue(data, p, depth, opt);
    hide ParseKey;
    ValueAgrees(data, p, depth, opt);
  }

  lemma SameValue(data: Text, pos: nat, depth: nat, opt: Options)
    requires pos <= |data|
    ensures ParseValue(data, pos, depth, opt) == ParseValue(data, SkipSpace(data, pos), depth, opt)
  {
    SkipSpaceTwice(data, pos);
  }

  /** After projection each field holds the value of the last member that selects it, or what
      it held before if there is none. */
  lemma {:induction false} LastMemberWins(t: Table, fields: map<nat, Any>, members: seq<Member>, i: nat)
    ensures var fs := Project(t, fields, members);
            (exists k | 0 <= k < |members| ::
               && Resolve(t, KeyText(members[k].key)) == Some(i)
               && (forall j | k < j < |members| :: Resolve(t, KeyText(members[j].key)) != Some(i))
               && i in fs && fs[i] == Meaning(members[k].value))
            || ((forall j | 0 <= j < |members| :: Resolve(t, KeyText(members[j].key)) != Some(i))
                && (i in fs <==> i in fields) && (i in fs ==> fs[i] == fields[i]))
    decreases |members|
  {
    if members != [] {
      var rest := members[1..];
      var fs := Project(t, fields, members);
      LastMemberWins(t, Assign(t, fields, members[0]), rest, i);
      if k :| 0 <= k < |rest| && Resolve(t, KeyText(rest[k].key)) == Some(i)
              && (forall j | k < j < |rest| :: Resolve(t, KeyText(rest[j].key)) != Some(i))
              && i in fs && fs[i] == Meaning(rest[k].value) {
        assert members[k + 1] == rest[k];
        forall j | k + 1 < j < |members|
          ensures Resolve(t, KeyText(members[j].key)) != Some(i)
        {
          assert members[j] == rest[j - 1];
        }
      } else {
        forall j | 0 < j < |members|
          ensures Resolve(t, KeyText(members[j].key)) != Some(i)
        {
          assert members[j] == rest[j - 1];
        }
        if Resolve(t, KeyText(members[0].key)) == Some(i) {
          assert i in fs && fs[i] == Meaning(members[0].value);
        }
      }
    }
  }

  // ----- fixed-size arrays -----

  /** decodeArrayFixed, after the opening bracket: `done` elements are stored, the rest of a
      longer array is skipped. */
  function ParseFixed(data: Text, pos: nat, depth: nat, opt: Options, n: nat): Parse<seq<Any>>
    requires pos <= |data|
  {
    var p := SkipSpace(data, pos);
    if At(data, p, RBRACKET) then Ok([], p + 1) else ParseSlots(data, p, depth, opt, n, [])
  }

  function ParseSlots(data: Text, pos: nat, depth: nat, opt: Options, n: nat, done: seq<Any>): Parse<seq<Any>>
    requires pos <= |data|
    decreases |data| - pos
  {
    match ParseSlot(data, pos, depth, opt, n, done)
    case Fail(e) => Fail(e)
    case Ok(slots, p) =>
      var q := SkipSpace(data, p);
      if At(data, q, RBRACKET) then Ok(slots, q + 1)
      else if At(data, q, COMMA) then ParseSlots(data, q + 1, depth, opt, n, slots)
      else Fail(InvalidJSON)
  }

  function ParseSlot(data: Text, pos: nat, depth: nat, opt: Options, n: nat, done: seq<Any>): (r: Parse<seq<Any>>)
    requires pos <= |data|
    ensures Advances(data, pos, r)
  {
    if |done| >= n then
      match SkipValue(data, pos)
      case Fail(e) => Fail(e)
      case Ok(_, q) => Ok(done, q)
    else
      match ParseValue(data, pos, depth, opt)
      case Fail(e) => Fail(e)
      case Ok(v, q) => Ok(done + [Meaning(v)], q)
  }

  /** The first `n` of `done` followed by the meanings of `items`. */
  function Fill(n: nat, done: seq<Any>, items: seq<Val>): seq<Any>
    decreases |items|
  {
    if items == [] then done
    else Fill(n, if |done| >= n then done else done + [Meaning(items[0])], items[1..])
  }

  lemma {:induction false} FillIsPrefix(n: nat, done: seq<Any>, items: seq<Val>)
    requires |done| <= n
    ensures var r := Fill(n, done, items);
            && |r| == (if |done| + |items| <= n then |done| + |items| else n)
            && (forall k | 0 <= k < |done| :: r[k] == done[k])
            && (forall k | |done| <= k < |r| :: r[k] == Meaning(items[k - |done|]))
    decreases |items|
  {
    if items != [] {
      var next := if |done| >= n then done else done + [Meaning(items[0])];
      FillIsPrefix(n, next, items[1..]);
    }
  }

  /** Whenever the slice decoder reads an array, the fixed-array decoder reads it too, stops at
      the same place and holds the slice's first `n` elements. */
  lemma FixedIsPrefix(data: Text, pos: nat, depth: nat, opt: Options, n: nat)
    requires pos <= |data| && ParseArray(data, pos, depth, opt).Ok?
    ensures var r := ParseArray(data, pos, depth, opt);
            exists slots ::
              && ParseFixed(data, pos, depth, opt, n) == Ok(slots, r.pos)
              && |slots| == (if |r.value| <= n then |r.value| else n)
              && forall k | 0 <= k < |slots| :: slots[k] == Meaning(r.value[k])
  {
    var r := ParseArray(data, pos, depth, opt);
    var p := SkipSpace(data, pos);
    FillIsPrefix(n, [], r.value);
    if At(data, p, RBRACKET) {
      assert ParseFixed(data, pos, depth, opt, n) == Ok([], r.pos);
    } else {
      SlotsFill(data, p, depth, opt, n, []);
      assert ParseFixed(data, pos, depth, opt, n) == Ok(Fill(n, [], r.value), r.pos);
    }
  }

  lemma {:induction false} SlotsFill(data: Text, pos: nat, depth: nat, opt: Options, n: nat, done: seq<Any>)
    requires pos <= |data| && ParseItems(data, pos, depth, opt).Ok?
    ensures var r := ParseItems(data, pos, depth, opt);
            ParseSlots(data, pos, depth, opt, n, done) == Ok(Fill(n, done, r.value), r.pos)
    decreases |data| - pos
  {
    hide ParseValue, SkipValue, SkipSpace, Meaning;
    var v := ParseValue(data, pos, depth, opt);
    var q := SkipSpace(data, v.pos);
    SpaceThenClose(data, v.pos, data[q]);
    ValueAgrees(data, pos, depth, opt);
    var next := if |done| >= n then done else done + [Meaning(v.value)];
    if At(data, q, RBRACKET) {
      assert [v.value][1..] == [];
    } else {
      SlotsFill(data, q + 1, depth, opt, n, next);
      var rest := ParseItems(data, q + 1, depth, opt).value;
      assert ([v.value] + rest)[1..] == rest;
    }
  }
}
