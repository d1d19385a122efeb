/** What every interleaving of the cache protocol keeps: builds happen once, callers agree, and
    entries refer to each other's published versions. */
module CacheSafety {
  import opened Cache

  lemma InitOk(g: TypeGraph, calls: seq<seq<Node>>)
    ensures Inv(g, Init(calls))
  {
  }

  lemma {:induction false} RunOk(g: TypeGraph, s: State, schedule: seq<nat>)
    requires Inv(g, s)
    ensures Inv(g, Run(g, s, schedule)) && Grows(s.maps, Run(g, s, schedule).maps)
    decreases |schedule|
  {
    if schedule != [] {
      var k := |schedule| - 1;
      RunOk(g, s, schedule[..k]);
      StepOk(g, Run(g, s, schedule[..k]), schedule[k]);
      hide Inv, Step;
    }
  }

  lemma {:induction false} RunConcat(g: TypeGraph, s: State, a: seq<nat>, b: seq<nat>)
    ensures Run(g, s, a + b) == Run(g, Run(g, s, a), b)
    decreases |b|
  {
    if b == [] {
      assert a + b == a;
    } else {
      var k := |b| - 1;
      assert (a + b)[..|a + b| - 1] == a + b[..k] && (a + b)[|a + b| - 1] == b[k];
      RunConcat(g, s, a, b[..k]);
    }
  }

  // ----- safety over all interleavings -----

  /** Whatever the types, the calls, the number of threads and the interleaving: every entry is
      built at most once, a finished once stands for a published entry, no call finds the entry
      missing, and every call has returned the published entry. */
  lemma CacheIsSafe(g: TypeGraph, calls: seq<seq<Node>>, schedule: seq<nat>)
    ensures var s := Run(g, Init(calls), schedule);
            && (forall n :: Builds(s.maps, n) <= 1)
            && (forall n | n in s.maps.onces && s.maps.onces[n] == Done :: n in s.maps.entries)
            && (forall i | 0 <= i < |s.threads| :: s.threads[i].stack != [] ==> s.threads[i].stack[0].pc != Crashed)
            && (forall i | 0 <= i < |s.threads| :: GotOk(s.maps, s.threads[i].got))
  {
    InitOk(g, calls);
    RunOk(g, Init(calls), schedule);
    var s := Run(g, Init(calls), schedule);
    forall n
      ensures Builds(s.maps, n) <= 1
    {
      assert BuiltOnce(s.maps, n);
    }
    forall i | 0 <= i < |s.threads| && s.threads[i].stack != []
      ensures s.threads[i].stack[0].pc != Crashed
    {
      assert ThreadOk(g, s.maps, i, s.threads[i]);
      Top(g, s.maps, i, s.threads[i]);
    }
  }

  /** Two calls for one entry, by any threads and at any times of a run, return the same. */
  lemma CallersAgree(g: TypeGraph, calls: seq<seq<Node>>, first: seq<nat>, more: seq<nat>, i: nat, k: nat, j: nat,
      l: nat)
    requires var s := Run(g, Init(calls), first);
             i < |s.threads| && k < |s.threads[i].got|
    requires var s := Run(g, Init(calls), first + more);
             j < |s.threads| && l < |s.threads[j].got|
    requires Run(g, Init(calls), first).threads[i].got[k].node
        == Run(g, Init(calls), first + more).threads[j].got[l].node
    ensures Run(g, Init(calls), first).threads[i].got[k] == Run(g, Init(calls), first + more).threads[j].got[l]
  {
    var s, s2 := Run(g, Init(calls), first), Run(g, Init(calls), first + more);
    CacheIsSafe(g, calls, first);
    CacheIsSafe(g, calls, first + more);
    InitOk(g, calls);
    RunOk(g, Init(calls), first);
    RunConcat(g, Init(calls), first, more);
    RunOk(g, s, more);
    hide Run, Inv;
    assert Published(s.maps, s.threads[i].got[k].node, s.threads[i].got[k].result);
    assert Published(s2.maps, s2.threads[j].got[l].node, s2.threads[j].got[l].result);
  }

  /** A published entry refers to the published entries of everything it depends on, and those
      were built before it. */
  lemma EntriesAreClosed(g: TypeGraph, calls: seq<seq<Node>>, schedule: seq<nat>, n: Node, k: nat)
    requires n in Run(g, Init(calls), schedule).maps.entries && k < |Deps(g, n)|
    ensures var m := Run(g, Init(calls), schedule).maps;
            && k < |m.entries[n].parts| && Published(m, Deps(g, n)[k], m.entries[n].parts[k])
            && m.entries[n].parts[k] < m.entries[n].id
  {
    InitOk(g, calls);
    RunOk(g, Init(calls), schedule);
    hide Run, ThreadOk;
  }

  /** The encoder of a struct and its field table were built from the same encoders of the
      fields, one for each field in order. */
  lemma {:induction false} StructSharesEncoders(g: TypeGraph, calls: seq<seq<Node>>, schedule: seq<nat>, t: TypeId,
      fields: seq<TypeId>)
    requires g(t) == StructOf(fields) && Enc(t) in Run(g, Init(calls), schedule).maps.entries
    ensures var m := Run(g, Init(calls), schedule).maps;
            && Fld(t) in m.entries
            && m.entries[Enc(t)].parts == [m.entries[Fld(t)].id] + m.entries[Fld(t)].parts
            && |m.entries[Fld(t)].parts| == |fields|
            && forall k | 0 <= k < |fields| :: Published(m, Enc(fields[k]), m.entries[Fld(t)].parts[k])
  {
    InitOk(g, calls);
    RunOk(g, Init(calls), schedule);
    var m := Run(g, Init(calls), schedule).maps;
    hide Run, ThreadOk;
    SharedParts(g, m, t, fields);
  }

  lemma {:induction false} SharedParts(g: TypeGraph, m: Maps, t: TypeId, fields: seq<TypeId>)
    requires MapsOk(g, m) && g(t) == StructOf(fields) && Enc(t) in m.entries
    ensures Fld(t) in m.entries && m.entries[Enc(t)].parts == [m.entries[Fld(t)].id] + m.entries[Fld(t)].parts
    ensures |m.entries[Fld(t)].parts| == |fields|
    ensures forall k | 0 <= k < |fields| :: Published(m, Enc(fields[k]), m.entries[Fld(t)].parts[k])
  {
    hide MapsOk;
    EntryBuilt(g, m, Enc(t));
    var e := m.entries[Enc(t)];
    assert Deps(g, Enc(t)) == [Fld(t)] + Encoders(fields) && Deps(g, Fld(t)) == Encoders(fields);
    assert Published(m, Deps(g, Enc(t))[0], e.parts[0]);
    EntryBuilt(g, m, Fld(t));
    var f := m.entries[Fld(t)];
    forall k | 0 <= k < |fields|
      ensures e.parts[k + 1] == f.parts[k] && Published(m, Enc(fields[k]), f.parts[k])
    {
      assert Published(m, Deps(g, Enc(t))[k + 1], e.parts[k + 1]);
      assert Published(m, Deps(g, Fld(t))[k], f.parts[k]);
    }
    assert e.parts == [f.id] + f.parts;
  }

  lemma EntryBuilt(g: TypeGraph, m: Maps, n: Node)
    requires MapsOk(g, m) && n in m.entries
    ensures BuiltFrom(g, m, n, m.entries[n].id, m.entries[n].parts)
  {
  }
}
