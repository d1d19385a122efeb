/** The field table of a struct type: which fields have a JSON name, and the two maps the decoder
    looks names up in. */
module FieldTables {
  import opened Bytes
  import opened Targets

  /** A declared field: its Go name, whether it is exported, and its json tag. */
  datatype Decl = Decl(name: Text, exported: bool, tag: Text)

  /** A field that takes part in encoding and decoding. */
  datatype Info = Info(index: nat, jsonName: Text, omitEmpty: bool)

  const DASH: Text := [MINUS]
  const OMIT_EMPTY: Text := [0x6F, 0x6D, 0x69, 0x74, 0x65, 0x6D, 0x70, 0x74, 0x79]

  /** strings.Split at commas. */
  function Split(t: Text): (parts: seq<Text>)
    ensures |parts| >= 1
  {
    if t == [] then [[]]
    else
      var rest := Split(t[1..]);
      if t[0] == COMMA then [[]] + rest else [[t[0]] + rest[0]] + rest[1..]
  }

  function Join(parts: seq<Text>): Text
    requires |parts| >= 1
  {
    if |parts| == 1 then parts[0] else parts[0] + [COMMA] + Join(parts[1..])
  }

  /** Splitting loses nothing, and no part holds a comma. */
  lemma {:induction false} SplitJoin(t: Text)
    ensures Join(Split(t)) == t && forall i | 0 <= i < |Split(t)| :: COMMA !in Split(t)[i]
  {
    if t != [] {
      var rest := Split(t[1..]);
      SplitJoin(t[1..]);
      if t[0] == COMMA {
        assert Split(t)[1..] == rest;
        assert Join(Split(t)) == [] + [COMMA] + Join(rest);
      } else {
        var parts := [[t[0]] + rest[0]] + rest[1..];
        assert parts[1..] == rest[1..];
        assert |rest| > 1 ==>
            [t[0]] + rest[0] + [COMMA] + Join(rest[1..]) == [t[0]] + (rest[0] + [COMMA] + Join(rest[1..]));
        assert Join(parts) == [t[0]] + Join(rest);
      }
    }
  }

  /** And splitting is the only way back: parts without commas survive being joined. */
  lemma {:induction false} JoinSplit(parts: seq<Text>)
    requires |parts| >= 1 && forall i | 0 <= i < |parts| :: COMMA !in parts[i]
    ensures Split(Join(parts)) == parts
    decreases |parts|, |parts[0]|
  {
    var t := Join(parts);
    if parts[0] != [] {
      var shorter := [parts[0][1..]] + parts[1..];
      assert shorter[1..] == parts[1..];
      JoinSplit(shorter);
      assert t[1..] == Join(shorter) && t[0] == parts[0][0];
      assert [t[0]] + parts[0][1..] == parts[0];
    } else if |parts| > 1 {
      JoinSplit(parts[1..]);
      assert t[1..] == Join(parts[1..]);
    }
  }

  predicate Skipped(d: Decl) {
    !d.exported || d.tag == DASH
  }

  /** The name and option of a field: an empty or missing name in the tag means the Go name. */
  function InfoOf(d: Decl, index: nat): Info {
    var parts := Split(d.tag);
    Info(index, if d.tag != [] && parts[0] != [] then parts[0] else d.name, d.tag != [] && OMIT_EMPTY in parts[1..])
  }

  lemma {:induction false} JoinNotEmpty(parts: seq<Text>)
    requires |parts| > 1 || (|parts| == 1 && parts[0] != [])
    ensures Join(parts) != []
  {
  }

  lemma {:induction false} TagParts(goName: Text, parts: seq<Text>, index: nat)
    requires |parts| > 1 || (|parts| == 1 && parts[0] != [])
    requires forall i | 0 <= i < |parts| :: COMMA !in parts[i]
    ensures InfoOf(Decl(goName, true, Join(parts)), index)
         == Info(index, if parts[0] == [] then goName else parts[0], OMIT_EMPTY in parts[1..])
  {
    hide Split, Join;
    JoinSplit(parts);
    JoinNotEmpty(parts);
  }

  /** A tag written as a name and options means that name (or the Go name, if it is empty), and
      omitempty wherever it stands among the options. */
  lemma {:induction false} TagMeans(goName: Text, name: Text, opts: seq<Text>, index: nat)
    requires COMMA !in name && (forall i | 0 <= i < |opts| :: COMMA !in opts[i]) && (name != [] || opts != [])
    ensures InfoOf(Decl(goName, true, Join([name] + opts)), index)
         == Info(index, if name == [] then goName else name, OMIT_EMPTY in opts)
  {
    hide Split, Join, InfoOf;
    var parts := [name] + opts;
    assert parts[1..] == opts && parts[0] == name;
    TagParts(goName, parts, index);
  }

  /** The fields that are not skipped, in declaration order. */
  function Infos(decls: seq<Decl>): seq<Info> {
    if decls == [] then []
    else
      var n := |decls| - 1;
      if Skipped(decls[n]) then Infos(decls[..n]) else Infos(decls[..n]) + [InfoOf(decls[n], n)]
  }

  /** Index, name and option of a declared field's entry, for every way of writing its tag. */
  ghost predicate Describes(info: Info, decls: seq<Decl>) {
    && info.index < |decls|
    && var d := decls[info.index];
       if d.tag == [] then info.jsonName == d.name && !info.omitEmpty
       else
         forall name, opts | COMMA !in name && d.tag == Join([name] + opts) && NoCommas(opts) ::
           && info.jsonName == (if name == [] then d.name else name)
           && (info.omitEmpty <==> [0x6F, 0x6D, 0x69, 0x74, 0x65, 0x6D, 0x70, 0x74, 0x79] in opts)
  }

  predicate NoCommas(parts: seq<Text>) {
    forall i | 0 <= i < |parts| :: COMMA !in parts[i]
  }

  /** The table lists, in declaration order, exactly the exported fields whose tag is not a lone
      dash, each with what its tag means. */
  ghost predicate Lists(list: seq<Info>, decls: seq<Decl>) {
    && (forall a, b | 0 <= a < b < |list| :: list[a].index < list[b].index)
    && (forall a | 0 <= a < |list| :: Describes(list[a], decls))
    && (forall i: nat :: Entered(list, i) <==> i < |decls| && decls[i].exported && decls[i].tag != [0x2D])
  }

  ghost predicate Entered(list: seq<Info>, i: nat) {
    exists a | 0 <= a < |list| :: list[a].index == i
  }

  lemma InfoDescribes(decls: seq<Decl>, i: nat)
    requires i < |decls|
    ensures Describes(InfoOf(decls[i], i), decls)
  {
    var d := decls[i];
    if d.tag != [] {
      forall name, opts | COMMA !in name && d.tag == Join([name] + opts) && NoCommas(opts)
        ensures InfoOf(d, i) == Info(i, if name == [] then d.name else name, OMIT_EMPTY in opts)
      {
        if opts == [] {
          assert [name] + opts == [name];
        }
        if name != [] || opts != [] {
          TagMeans(d.name, name, opts, i);
        }
      }
    }
  }

  lemma DescribesPrefix(info: Info, decls: seq<Decl>, n: nat)
    requires n <= |decls| && Describes(info, decls[..n])
    ensures Describes(info, decls)
  {
    hide Join;
  }

  lemma {:induction false} InfosList(decls: seq<Decl>)
    ensures Lists(Infos(decls), decls)
  {
    hide InfoOf, Describes;
    if decls != [] {
      var n := |decls| - 1;
      var before, list := Infos(decls[..n]), Infos(decls);
      InfosList(decls[..n]);
      InfoDescribes(decls, n);
      forall a | 0 <= a < |before|
        ensures Describes(before[a], decls) && before[a].index < n
      {
        assert Entered(before, before[a].index);
        DescribesPrefix(before[a], decls, n);
      }
      assert InfoOf(decls[n], n).index == n by { InfoIndex(decls[n], n); }
      forall i: nat
        ensures Entered(list, i) <==> Entered(before, i) || (i == n && !Skipped(decls[n]))
      {
        EnteredSnoc(before, InfoOf(decls[n], n), i);
      }
    }
  }

  lemma InfoIndex(d: Decl, index: nat)
    ensures InfoOf(d, index).index == index
  {
  }

  lemma EnteredSnoc(list: seq<Info>, info: Info, i: nat)
    ensures Entered(list + [info], i) <==> Entered(list, i) || info.index == i
  {
    var all := list + [info];
    if a :| 0 <= a < |list| && list[a].index == i {
      assert all[a].index == i;
    }
    assert all[|list|].index == info.index;
    if a :| 0 <= a < |all| && all[a].index == i {
      assert a < |list| ==> list[a].index == i;
    }
  }

  function Names(list: seq<Info>): seq<Text> {
    seq(|list|, i requires 0 <= i < |list| => list[i].jsonName)
  }

  function FoldedNames(list: seq<Info>, fold: Text -> Text): seq<Text> {
    seq(|list|, i requires 0 <= i < |list| => fold(list[i].jsonName))
  }

  /** The map sends every key to the last place it stands at, and holds no other key. */
  ghost predicate LastWins(m: map<Text, nat>, keys: seq<Text>) {
    && (forall k | k in m :: m[k] < |keys| && keys[m[k]] == k)
    && (forall i | 0 <= i < |keys| :: keys[i] in m && i <= m[keys[i]])
  }

  lemma LastWinsSnoc(m: map<Text, nat>, keys: seq<Text>, key: Text)
    requires LastWins(m, keys)
    ensures LastWins(m[key := |keys|], keys + [key])
  {
    var all, m2 := keys + [key], m[key := |keys|];
    forall i | 0 <= i < |all|
      ensures all[i] in m2 && i <= m2[all[i]]
    {
      assert i < |keys| ==> all[i] == keys[i];
    }
  }

  /** The map from every key to its last place. */
  function LastPlaces(keys: seq<Text>): (m: map<Text, nat>)
    ensures LastWins(m, keys)
  {
    if keys == [] then map[]
    else
      var n := |keys| - 1;
      LastWinsSnoc(LastPlaces(keys[..n]), keys[..n], keys[n]);
      assert keys == keys[..n] + [keys[n]];
      LastPlaces(keys[..n])[keys[n] := n]
  }

  lemma LastPlacesWin(keys: seq<Text>)
    ensures LastWins(LastPlaces(keys), keys)
    ensures keys == [] ==> LastPlaces(keys) == map[]
  {
  }

  lemma LastPlacesSnoc(keys: seq<Text>, key: Text)
    ensures LastPlaces(keys + [key]) == LastPlaces(keys)[key := |keys|]
  {
    assert (keys + [key])[..|keys|] == keys;
  }

  /** buildFieldsCache without the encoders of the fields. */
  method BuildFieldsCache(decls: seq<Decl>, foldName: Text -> Text)
    returns (list: seq<Info>, byExactName: map<Text, nat>, byFoldedName: map<Text, nat>)
    ensures list == Infos(decls) && Lists(list, decls)
    ensures byExactName == LastPlaces(Names(list)) && LastWins(byExactName, Names(list))
    ensures byFoldedName == LastPlaces(FoldedNames(list, foldName))
        && LastWins(byFoldedName, FoldedNames(list, foldName))
  {
    hide LastWins, LastPlaces, Lists;
    list, byExactName, byFoldedName := [], map[], map[];
    LastPlacesWin(Names(list));
    LastPlacesWin(FoldedNames(list, foldName));
    for i := 0 to |decls|
      invariant list == Infos(decls[..i])
      invariant byExactName == LastPlaces(Names(list))
      invariant byFoldedName == LastPlaces(FoldedNames(list, foldName))
    {
      assert decls[..i + 1][..i] == decls[..i];
      if !decls[i].exported {
        continue;
      }
      if decls[i].tag == DASH {
        continue;
      }
      var info := TagInfo(decls[i], i);
      LastPlacesSnoc(Names(list), info.jsonName);
      LastPlacesSnoc(FoldedNames(list, foldName), foldName(info.jsonName));
      byExactName := byExactName[info.jsonName := |list|];
      byFoldedName := byFoldedName[foldName(info.jsonName) := |list|];
      assert Names(list + [info]) == Names(list) + [info.jsonName];
      assert FoldedNames(list + [info], foldName) == FoldedNames(list, foldName) + [foldName(info.jsonName)];
      list := list + [info];
    }
    assert decls[..|decls|] == decls;
    InfosList(decls);
    LastPlacesWin(Names(list));
    LastPlacesWin(FoldedNames(list, foldName));
  }

  method TagInfo(d: Decl, index: nat) returns (info: Info)
    ensures info == InfoOf(d, index)
  {
    var jsonName, omitEmpty := [], false;
    if d.tag != [] {
      var parts := Split(d.tag);
      if |parts| > 0 && parts[0] != [] {
        jsonName := parts[0];
      }
      for i := 1 to |parts|
        invariant omitEmpty <==> OMIT_EMPTY in parts[1..i]
      {
        assert parts[1..i + 1] == parts[1..i] + [parts[i]];
        if parts[i] == OMIT_EMPTY {
          omitEmpty := true;
        }
      }
      assert parts[1..|parts|] == parts[1..];
    }
    if jsonName == [] {
      jsonName := d.name;
    }
    info := Info(index, jsonName, omitEmpty);
  }

  /** A member name selects the last field with exactly that JSON name; failing that, the last one
      whose name folds to the same; failing that, none. */
  lemma ResolveIsLast(list: seq<Info>, t: Table, name: Text)
    requires LastWins(t.exact, Names(list)) && LastWins(t.folded, FoldedNames(list, t.fold)) && !t.disableCache
    ensures match Resolve(t, name)
            case None =>
              forall i | 0 <= i < |list| :: t.fold(list[i].jsonName) != t.fold(name) && list[i].jsonName != name
            case Some(k) =>
              && k < |list|
              && if exists i | 0 <= i < |list| :: list[i].jsonName == name then
                   list[k].jsonName == name && forall i | k < i < |list| :: list[i].jsonName != name
                 else
                   t.fold(list[k].jsonName) == t.fold(name)
                       && forall i | k < i < |list| :: t.fold(list[i].jsonName) != t.fold(name)
  {
    var exact, folded := Names(list), FoldedNames(list, t.fold);
    forall i | 0 <= i < |list|
      ensures list[i].jsonName == name ==> name in t.exact && i <= t.exact[name]
      ensures t.fold(list[i].jsonName) == t.fold(name) ==> t.fold(name) in t.folded && i <= t.folded[t.fold(name)]
    {
      assert exact[i] == list[i].jsonName && folded[i] == t.fold(list[i].jsonName);
    }
    if name in t.exact {
      assert exact[t.exact[name]] == list[t.exact[name]].jsonName == name;
    }
    if t.fold(name) in t.folded {
      assert folded[t.folded[t.fold(name)]] == t.fold(list[t.folded[t.fold(name)]].jsonName);
    }
  }
}
