/** The build-once caches as a step system: threads with stacks of calls, over per-type once objects
    and published entries; and the invariant that every step of every thread keeps, whatever the
    types and the calls are. */
module Cache {
  type TypeId = int

  /** What the builders look at in a type. */
  datatype Kind = StructOf(fields: seq<TypeId>) | PtrTo(elem: TypeId) | SliceOf(elem: TypeId) | StringSlice | Leaf

  type TypeGraph = TypeId -> Kind

  /** A cache entry's key: the encoder or the field table of a type. */
  datatype Node = Enc(t: TypeId) | Fld(t: TypeId)

  function Encoders(ts: seq<TypeId>): (r: seq<Node>)
    ensures |r| == |ts| && forall i | 0 <= i < |ts| :: r[i] == Enc(ts[i])
  {
    if ts == [] then [] else [Enc(ts[0])] + Encoders(ts[1..])
  }

  /** The calls a build makes, in order: the encoder of a struct asks for its field table and
      then for the encoder of every field; the field table asks for the same encoders. */
  function Deps(g: TypeGraph, n: Node): seq<Node> {
    match (n, g(n.t))
    case (Enc(t), StructOf(fs)) => [Fld(t)] + Encoders(fs)
    case (Enc(_), PtrTo(e)) => [Enc(e)]
    case (Enc(_), SliceOf(e)) => [Enc(e)]
    case (Fld(_), StructOf(fs)) => Encoders(fs)
    case _ => []
  }

  /** A sync.Once: its mutex is held while the function runs. */
  datatype Once = Idle | Running(owner: nat) | Done

  /** A finished build: its identity and the identities of the entries it was built from. */
  datatype Entry = Entry(id: nat, parts: seq<nat>)

  /** Where a call stands. `Crashed` is the panic on an entry that is missing after the once. */
  datatype Pc = Lookup | FetchOnce | AtOnce | Building | Publish | Finish | Reload | Returning(result: nat) | Crashed

  /** One call. `parts` are the results of the calls its build has made so far, `mine` is the
      identity of what it has built. */
  datatype Frame = Frame(node: Node, pc: Pc, parts: seq<nat>, mine: nat)

  datatype Outcome = Outcome(node: Node, result: nat)

  /** A thread: the calls it still has to make, the stack of the current one with the innermost
      call first, and what its finished calls returned. */
  datatype Thread = Thread(todo: seq<Node>, stack: seq<Frame>, got: seq<Outcome>)

  /** The shared maps. `builds` counts how often the build of an entry has been started, and
      `next` is the identity of the next thing built. */
  datatype Maps = Maps(onces: map<Node, Once>, entries: map<Node, Entry>, builds: map<Node, nat>, next: nat)

  datatype State = State(maps: Maps, threads: seq<Thread>)

  function Call(n: Node): Frame {
    Frame(n, Lookup, [], 0)
  }

  function Builds(m: Maps, n: Node): nat {
    if n in m.builds then m.builds[n] else 0
  }

  /** The innermost call goes on. */
  function Go(t: Thread, f: Frame): Thread
    requires t.stack != []
  {
    t.(stack := [f] + t.stack[1..])
  }

  /** The innermost call returns to the build that waits for it, or to the thread's program. */
  function Return(t: Thread, r: nat): Thread
    requires t.stack != []
  {
    var rest := t.stack[1..];
    if rest == [] then t.(stack := [], got := t.got + [Outcome(t.stack[0].node, r)])
    else t.(stack := [rest[0].(parts := rest[0].parts + [r])] + rest[1..])
  }

  /** A thread waits when the once of its innermost call is running. */
  predicate Blocked(m: Maps, t: Thread) {
    t.stack != [] && t.stack[0].pc == AtOnce && t.stack[0].node in m.onces && m.onces[t.stack[0].node].Running?
  }

  predicate Over(t: Thread) {
    t.stack == [] && t.todo == []
  }

  predicate CanMove(m: Maps, t: Thread) {
    !Over(t) && !Blocked(m, t) && (t.stack != [] ==> t.stack[0].pc != Crashed)
  }

  /** One atomic step of thread `i`, which stands at `t`. */
  function Move(g: TypeGraph, m: Maps, i: nat, t: Thread): (Maps, Thread)
    requires CanMove(m, t)
  {
    if t.stack == [] then (m, Thread(t.todo[1..], [Call(t.todo[0])], t.got))
    else
      var f := t.stack[0];
      var n := f.node;
      match f.pc
      case Lookup => (m, Go(t, f.(pc := if n in m.entries then Returning(m.entries[n].id) else FetchOnce)))
      case FetchOnce => (m.(onces := if n in m.onces then m.onces else m.onces[n := Idle]), Go(t, f.(pc := AtOnce)))
      case AtOnce =>
        if n in m.onces && m.onces[n] == Done then (m, Go(t, f.(pc := Reload)))
        else
          (m.(onces := m.onces[n := Running(i)], builds := m.builds[n := Builds(m, n) + 1]), Go(t, f.(pc := Building)))
      case Building =>
        if |f.parts| < |Deps(g, n)| then (m, t.(stack := [Call(Deps(g, n)[|f.parts|])] + t.stack))
        else (m.(next := m.next + 1), Go(t, f.(pc := Publish, mine := m.next)))
      case Publish => (m.(entries := m.entries[n := Entry(f.mine, f.parts)]), Go(t, f.(pc := Finish)))
      case Finish =>
        // The encoder that was just compiled is returned as it is; a field table is read again.
        (m.(onces := m.onces[n := Done]), Go(t, f.(pc := if n.Enc? then Returning(f.mine) else Reload)))
      case Reload => (m, Go(t, f.(pc := if n in m.entries then Returning(m.entries[n].id) else Crashed)))
      case Returning(r) => (m, Return(t, r))
  }

  /** A thread's turn; a thread that cannot move lets it pass. */
  function Step(g: TypeGraph, s: State, i: nat): State {
    if i < |s.threads| && CanMove(s.maps, s.threads[i]) then
      var (m, t) := Move(g, s.maps, i, s.threads[i]);
      State(m, s.threads[i := t])
    else s
  }

  /** Any interleaving: the threads that get their turn one after the other. */
  function Run(g: TypeGraph, s: State, schedule: seq<nat>): State
    decreases |schedule|
  {
    if schedule == [] then s else Step(g, Run(g, s, schedule[..|schedule| - 1]), schedule[|schedule| - 1])
  }

  /** Nothing is cached, and each thread has its calls to make. */
  function Init(calls: seq<seq<Node>>): State {
    State(Maps(map[], map[], map[], 0), seq(|calls|, i requires 0 <= i < |calls| => Thread(calls[i], [], [])))
  }

  // ----- the invariant -----

  predicate IsBuilding(f: Frame) {
    f.pc == Building || f.pc == Publish
  }

  predicate HoldsOnce(f: Frame) {
    IsBuilding(f) || f.pc == Finish
  }

  /** The entries whose once this stack is running. */
  function Owned(stack: seq<Frame>): set<Node> {
    if stack == [] then {}
    else (if HoldsOnce(stack[0]) then {stack[0].node} else {}) + Owned(stack[1..])
  }

  /** Those of them that are not published yet. */
  function Pending(stack: seq<Frame>): set<Node> {
    if stack == [] then {} else (if IsBuilding(stack[0]) then {stack[0].node} else {}) + Pending(stack[1..])
  }

  /** No entry is built twice on one stack. */
  predicate Distinct(stack: seq<Frame>) {
    stack != [] ==>
      && (HoldsOnce(stack[0]) ==> stack[0].node !in Owned(stack[1..]))
      && Distinct(stack[1..])
  }

  /** The parts collected are the published entries of the first dependencies. */
  predicate PartsOk(g: TypeGraph, m: Maps, n: Node, parts: seq<nat>) {
    && |parts| <= |Deps(g, n)|
    && forall k | 0 <= k < |parts| :: Published(m, Deps(g, n)[k], parts[k])
  }

  predicate Published(m: Maps, n: Node, id: nat) {
    n in m.entries && m.entries[n].id == id
  }

  predicate FrameOk(g: TypeGraph, m: Maps, f: Frame) {
    match f.pc
    case Lookup => f.parts == []
    case FetchOnce => f.parts == []
    case AtOnce => f.parts == [] && f.node in m.onces
    case Building => PartsOk(g, m, f.node, f.parts)
    case Publish => BuiltFrom(g, m, f.node, f.mine, f.parts)
    case Finish => Published(m, f.node, f.mine)
    case Reload => f.node in m.entries
    case Returning(r) => Published(m, f.node, r)
    case Crashed => false
  }

  /** Built from the published entries of all dependencies, each of them built before. */
  predicate BuiltFrom(g: TypeGraph, m: Maps, n: Node, id: nat, parts: seq<nat>) {
    && PartsOk(g, m, n, parts) && |parts| == |Deps(g, n)| && id < m.next
    && forall k | 0 <= k < |parts| :: parts[k] < id
  }

  /** Every call but the innermost is in its build and waits for the call above it. */
  predicate StackOk(g: TypeGraph, m: Maps, stack: seq<Frame>) {
    stack != [] ==>
      && FrameOk(g, m, stack[0])
      && (|stack| > 1 ==> Waits(g, stack[1], stack[0].node))
      && StackOk(g, m, stack[1..])
  }

  predicate Waits(g: TypeGraph, f: Frame, n: Node) {
    f.pc == Building && |f.parts| < |Deps(g, f.node)| && Deps(g, f.node)[|f.parts|] == n
  }

  predicate OwnedBy(m: Maps, n: Node, i: nat) {
    n in m.onces && m.onces[n] == Running(i)
  }

  predicate GotOk(m: Maps, got: seq<Outcome>) {
    forall k | 0 <= k < |got| :: Published(m, got[k].node, got[k].result)
  }

  /** What thread `i` may rely on. */
  ghost predicate ThreadOk(g: TypeGraph, m: Maps, i: nat, t: Thread) {
    && StackOk(g, m, t.stack) && Distinct(t.stack) && GotOk(m, t.got)
    && (forall n :: n in Owned(t.stack) <==> OwnedBy(m, n, i))
    && (forall n | n in Pending(t.stack) :: n !in m.entries)
  }

  predicate Started(m: Maps, n: Node) {
    n in m.onces && m.onces[n] != Idle
  }

  /** A build that has been started has been started once, any other never. */
  predicate BuiltOnce(m: Maps, n: Node) {
    Builds(m, n) == if Started(m, n) then 1 else 0
  }

  ghost predicate MapsOk(g: TypeGraph, m: Maps) {
    && (forall n | n in m.onces && m.onces[n] == Done :: n in m.entries)
    && (forall n | n in m.entries :: Started(m, n) && BuiltFrom(g, m, n, m.entries[n].id, m.entries[n].parts))
    && (forall n :: BuiltOnce(m, n))
  }

  ghost predicate Inv(g: TypeGraph, s: State) {
    && MapsOk(g, s.maps)
    && (forall n | n in s.maps.onces && s.maps.onces[n].Running? :: s.maps.onces[n].owner < |s.threads|)
    && (forall i | 0 <= i < |s.threads| :: ThreadOk(g, s.maps, i, s.threads[i]))
  }

  // ----- every step keeps the invariant -----

  /** The maps only grow. */
  ghost predicate Grows(m: Maps, m2: Maps) {
    && m.next <= m2.next
    && (forall n | n in m.onces :: n in m2.onces)
    && (forall n | n in m.entries :: n in m2.entries && m2.entries[n] == m.entries[n])
  }

  lemma BuiltFromGrows(g: TypeGraph, m: Maps, m2: Maps, n: Node, id: nat, parts: seq<nat>)
    requires Grows(m, m2)
    ensures PartsOk(g, m, n, parts) ==> PartsOk(g, m2, n, parts)
    ensures BuiltFrom(g, m, n, id, parts) ==> BuiltFrom(g, m2, n, id, parts)
  {
  }

  lemma {:induction false} StackGrows(g: TypeGraph, m: Maps, m2: Maps, stack: seq<Frame>)
    requires Grows(m, m2) && StackOk(g, m, stack)
    ensures StackOk(g, m2, stack)
  {
    if stack != [] {
      BuiltFromGrows(g, m, m2, stack[0].node, stack[0].mine, stack[0].parts);
      StackGrows(g, m, m2, stack[1..]);
    }
  }

  lemma {:induction false} PendingOwned(stack: seq<Frame>)
    ensures Pending(stack) <= Owned(stack)
  {
    if stack != [] {
      PendingOwned(stack[1..]);
    }
  }

  /** A thread is not disturbed by another one that starts or ends nothing of its own and
      publishes nothing it is building. */
  lemma Undisturbed(g: TypeGraph, m: Maps, m2: Maps, j: nat, t: Thread)
    requires ThreadOk(g, m, j, t) && Grows(m, m2)
    requires forall n :: OwnedBy(m, n, j) <==> OwnedBy(m2, n, j)
    requires forall n | n in m2.entries && n !in m.entries :: !OwnedBy(m, n, j)
    ensures ThreadOk(g, m2, j, t)
  {
    StackGrows(g, m, m2, t.stack);
    PendingOwned(t.stack);
  }

  /** What a step of thread `i` does to the maps. */
  ghost predicate Allowed(g: TypeGraph, m: Maps, m2: Maps, i: nat) {
    && Grows(m, m2) && MapsOk(g, m2)
    && (forall n, j: nat | j != i :: OwnedBy(m, n, j) <==> OwnedBy(m2, n, j))
    && (forall n | n in m2.entries && n !in m.entries :: OwnedBy(m, n, i))
    && (forall n | n in m2.onces && m2.onces[n].Running? ::
          m2.onces[n].owner == i || (n in m.onces && m.onces[n] == m2.onces[n]))
  }

  lemma AllowedGrows(g: TypeGraph, m: Maps, m2: Maps, i: nat)
    requires Allowed(g, m, m2, i)
    ensures Grows(m, m2)
  {
  }

  lemma SameMaps(g: TypeGraph, m: Maps, i: nat)
    requires MapsOk(g, m)
    ensures Allowed(g, m, m, i)
  {
  }

  /** What thread `i` owns and what is published change only by the entry of the call that goes
      on from `f` to `f2`. */
  ghost predicate Hands(m: Maps, m2: Maps, i: nat, f: Frame, f2: Frame) {
    && (HoldsOnce(f2) && !HoldsOnce(f) ==> !OwnedBy(m, f2.node, i))
    && (forall n :: OwnedBy(m2, n, i) <==>
          if HoldsOnce(f2) then n == f2.node || OwnedBy(m, n, i)
          else (HoldsOnce(f) ==> n != f2.node) && OwnedBy(m, n, i))
    && (IsBuilding(f2) ==> f2.node !in m2.entries)
    && (forall n | n in m2.entries && n !in m.entries :: n == f2.node && HoldsOnce(f))
  }

  /** The innermost call goes on: its new place fits the new maps, and what the thread owns has
      changed only by this call's entry. */
  lemma {:induction false} Retop(g: TypeGraph, m: Maps, m2: Maps, i: nat, t: Thread, f0: Frame, f: Frame)
    requires ThreadOk(g, m, i, t) && t.stack != [] && f0 == t.stack[0] && f.node == f0.node
    requires Grows(m, m2) && FrameOk(g, m2, f) && Hands(m, m2, i, f0, f)
    ensures ThreadOk(g, m2, i, Go(t, f))
  {
    var rest, stack := t.stack[1..], Go(t, f).stack;
    StackGrows(g, m, m2, t.stack);
    assert stack[1..] == rest && stack[0] == f;
    PendingOwned(rest);
    assert StackOk(g, m2, stack);
    hide StackOk, FrameOk;
    assert Distinct(stack);
    hide Distinct;
    assert Owned(stack) == (if HoldsOnce(f) then {f.node} else {}) + Owned(rest);
    assert Pending(stack) == (if IsBuilding(f) then {f.node} else {}) + Pending(rest);
    assert Owned(t.stack) == (if HoldsOnce(t.stack[0]) then {f.node} else {}) + Owned(rest);
    assert Pending(rest) <= Pending(t.stack);
    hide Owned, Pending, HoldsOnce, IsBuilding;
  }

  /** What a thread knows about its innermost call. */
  lemma Top(g: TypeGraph, m: Maps, i: nat, t: Thread)
    requires ThreadOk(g, m, i, t) && t.stack != []
    ensures FrameOk(g, m, t.stack[0])
    ensures HoldsOnce(t.stack[0]) ==> OwnedBy(m, t.stack[0].node, i)
    ensures IsBuilding(t.stack[0]) ==> t.stack[0].node !in m.entries
  {
    hide FrameOk;
    assert HoldsOnce(t.stack[0]) ==> t.stack[0].node in Owned(t.stack);
    assert IsBuilding(t.stack[0]) ==> t.stack[0].node in Pending(t.stack);
  }

  lemma MoveStart(g: TypeGraph, m: Maps, i: nat, t: Thread)
    requires ThreadOk(g, m, i, t) && t.stack == [] && t.todo != []
    ensures ThreadOk(g, m, i, Thread(t.todo[1..], [Call(t.todo[0])], t.got))
  {
    var stack := [Call(t.todo[0])];
    assert stack[1..] == [] && !HoldsOnce(stack[0]);
    assert Owned(stack[1..]) == {} && Pending(stack[1..]) == {};
    assert Owned(stack) == {} && Pending(stack) == {};
  }

  /** Entries are untouched, so what was built stays built from published entries. */
  lemma MapsKept(g: TypeGraph, m: Maps, m2: Maps)
    requires MapsOk(g, m) && Grows(m, m2) && m2.entries == m.entries
    ensures forall n | n in m2.entries :: BuiltFrom(g, m2, n, m2.entries[n].id, m2.entries[n].parts)
  {
    forall n | n in m2.entries
      ensures BuiltFrom(g, m2, n, m2.entries[n].id, m2.entries[n].parts)
    {
      BuiltFromGrows(g, m, m2, n, m.entries[n].id, m.entries[n].parts);
    }
  }

  /** Builds are counted where they are started. */
  lemma CountKept(g: TypeGraph, m: Maps, m2: Maps)
    requires MapsOk(g, m)
    requires forall n :: Started(m2, n) <==> Started(m, n) || Builds(m2, n) > Builds(m, n)
    requires forall n :: Builds(m2, n) == Builds(m, n) || (!Started(m, n) && Builds(m2, n) == Builds(m, n) + 1)
    ensures forall n :: BuiltOnce(m2, n)
  {
    forall n
      ensures BuiltOnce(m2, n)
    {
      assert BuiltOnce(m, n);
      assert Started(m2, n) <==> Started(m, n) || Builds(m2, n) > Builds(m, n);
    }
  }

  lemma ReadOnly(m: Maps, i: nat, f: Frame, f2: Frame)
    requires !HoldsOnce(f) && !HoldsOnce(f2)
    ensures Hands(m, m, i, f, f2)
  {
  }

  lemma PartIsCalled(g: TypeGraph, m: Maps, i: nat, t: Thread)
    requires ThreadOk(g, m, i, t) && t.stack != []
    requires t.stack[0].pc == Building && |t.stack[0].parts| < |Deps(g, t.stack[0].node)|
    ensures ThreadOk(g, m, i, t.(stack := [Call(Deps(g, t.stack[0].node)[|t.stack[0].parts|])] + t.stack))
  {
    var top := Call(Deps(g, t.stack[0].node)[|t.stack[0].parts|]);
    var stack := [top] + t.stack;
    assert stack[1..] == t.stack && stack[0] == top;
    assert Owned(stack) == Owned(t.stack) && Pending(stack) == Pending(t.stack);
  }

  lemma ReturnOk(g: TypeGraph, m: Maps, i: nat, t: Thread, r: nat)
    requires ThreadOk(g, m, i, t) && t.stack != [] && t.stack[0].pc == Returning(r)
    ensures ThreadOk(g, m, i, Return(t, r))
  {
    var rest := t.stack[1..];
    assert Owned(t.stack) == Owned(rest) && Pending(t.stack) == Pending(rest);
    assert StackOk(g, m, rest) && Distinct(rest) && Published(m, t.stack[0].node, r);
    if rest != [] {
      assert rest[0] == t.stack[1];
      PartArrives(g, m, rest, t.stack[0].node, r);
      hide StackOk, Owned, Pending, Distinct, Waits, FrameOk;
    }
  }

  /** The result of a call becomes the next part of the build that waits for it. */
  lemma PartArrives(g: TypeGraph, m: Maps, stack: seq<Frame>, n: Node, r: nat)
    requires stack != [] && StackOk(g, m, stack) && Distinct(stack) && Waits(g, stack[0], n) && Published(m, n, r)
    ensures var stack2 := [stack[0].(parts := stack[0].parts + [r])] + stack[1..];
            StackOk(g, m, stack2) && Distinct(stack2) && Owned(stack2) == Owned(stack)
                && Pending(stack2) == Pending(stack)
  {
    var f := stack[0].(parts := stack[0].parts + [r]);
    PartAdded(g, m, stack[0], n, r);
    var stack2 := [f] + stack[1..];
    assert stack2[1..] == stack[1..] && stack2[0] == f;
    assert |stack2| > 1 ==> stack2[1] == stack[1];
    hide PartsOk, Deps, Published;
  }

  lemma PartAdded(g: TypeGraph, m: Maps, f: Frame, n: Node, r: nat)
    requires PartsOk(g, m, f.node, f.parts) && Waits(g, f, n) && Published(m, n, r)
    ensures PartsOk(g, m, f.node, f.parts + [r])
  {
  }

  // What the moves that change the maps do to them, and to the call `f` that makes them.

  lemma OnceAppears(g: TypeGraph, m: Maps, m2: Maps, i: nat, f: Frame, f2: Frame)
    requires MapsOk(g, m) && FrameOk(g, m, f) && f.pc == FetchOnce && f2 == f.(pc := AtOnce)
    requires m2 == m.(onces := if f.node in m.onces then m.onces else m.onces[f.node := Idle])
    ensures Allowed(g, m, m2, i) && FrameOk(g, m2, f2) && Hands(m, m2, i, f, f2)
  {
    hide BuiltFrom, BuiltOnce;
    MapsKept(g, m, m2);
    CountKept(g, m, m2);
  }

  /** The once is free: the build of this entry starts, for the first time. */
  lemma BuildStarts(g: TypeGraph, m: Maps, m2: Maps, i: nat, f: Frame, f2: Frame)
    requires MapsOk(g, m) && FrameOk(g, m, f) && f.pc == AtOnce && !Started(m, f.node) && f2 == f.(pc := Building)
    requires m2 == m.(onces := m.onces[f.node := Running(i)], builds := m.builds[f.node := Builds(m, f.node) + 1])
    ensures Allowed(g, m, m2, i) && FrameOk(g, m2, f2) && Hands(m, m2, i, f, f2)
  {
    assert BuiltOnce(m, f.node);
    MapsKept(g, m, m2);
    CountKept(g, m, m2);
    hide BuiltFrom, BuiltOnce;
  }

  /** A build that has made all its calls gets its identity, greater than those of its parts. */
  lemma AllBuilt(g: TypeGraph, m: Maps, m2: Maps, i: nat, f: Frame, f2: Frame)
    requires MapsOk(g, m) && FrameOk(g, m, f) && f.pc == Building && |f.parts| >= |Deps(g, f.node)|
    requires OwnedBy(m, f.node, i) && f.node !in m.entries
    requires m2 == m.(next := m.next + 1) && f2 == f.(pc := Publish, mine := m.next)
    ensures Allowed(g, m, m2, i) && FrameOk(g, m2, f2) && Hands(m, m2, i, f, f2)
  {
    forall k | 0 <= k < |f.parts|
      ensures f.parts[k] < m.next
    {
      assert Published(m, Deps(g, f.node)[k], f.parts[k]);
    }
    MapsKept(g, m, m2);
    CountKept(g, m, m2);
    BuiltFromGrows(g, m, m2, f.node, m.next, f.parts);
  }

  lemma PublishBuilt(g: TypeGraph, m: Maps, f: Frame)
    requires FrameOk(g, m, f) && f.pc == Publish
    ensures BuiltFrom(g, m, f.node, f.mine, f.parts)
  {
  }

  /** Nothing has been started. */
  lemma SameCounts(g: TypeGraph, m: Maps, m2: Maps)
    requires MapsOk(g, m) && m2.onces == m.onces && m2.builds == m.builds
    ensures forall n :: BuiltOnce(m2, n) && (Started(m2, n) <==> Started(m, n))
  {
    hide BuiltFrom;
    CountKept(g, m, m2);
  }

  lemma EntryHands(g: TypeGraph, m: Maps, m2: Maps, i: nat, f: Frame, f2: Frame)
    requires f.pc == Publish && f2 == f.(pc := Finish) && OwnedBy(m, f.node, i)
    requires m2 == m.(entries := m.entries[f.node := Entry(f.mine, f.parts)])
    ensures Hands(m, m2, i, f, f2) && FrameOk(g, m2, f2)
  {
    hide BuiltFrom, PartsOk;
  }

  lemma {:induction false} EntryAppears(g: TypeGraph, m: Maps, m2: Maps, i: nat, f: Frame, f2: Frame)
    requires MapsOk(g, m) && FrameOk(g, m, f) && f.pc == Publish && f2 == f.(pc := Finish)
    requires OwnedBy(m, f.node, i) && f.node !in m.entries
    requires m2 == m.(entries := m.entries[f.node := Entry(f.mine, f.parts)])
    ensures Allowed(g, m, m2, i) && FrameOk(g, m2, f2) && Hands(m, m2, i, f, f2)
  {
    hide BuiltFrom, BuiltOnce, Builds, FrameOk, Hands;
    assert BuiltFrom(g, m, f.node, f.mine, f.parts) by { PublishBuilt(g, m, f); }
    assert Grows(m, m2);
    forall n | n in m2.entries
      ensures BuiltFrom(g, m2, n, m2.entries[n].id, m2.entries[n].parts)
    {
      BuiltFromGrows(g, m, m2, n, m2.entries[n].id, m2.entries[n].parts);
    }
    SameCounts(g, m, m2);
    EntryHands(g, m, m2, i, f, f2);
  }

  lemma {:induction false} OnceEnds(g: TypeGraph, m: Maps, m2: Maps, i: nat, f: Frame, f2: Frame)
    requires MapsOk(g, m) && FrameOk(g, m, f) && f.pc == Finish && OwnedBy(m, f.node, i)
    requires m2 == m.(onces := m.onces[f.node := Done])
    requires f2 == f.(pc := if f.node.Enc? then Returning(f.mine) else Reload)
    ensures Allowed(g, m, m2, i) && FrameOk(g, m2, f2) && Hands(m, m2, i, f, f2)
  {
    hide BuiltFrom, BuiltOnce;
    MapsKept(g, m, m2);
    CountKept(g, m, m2);
  }

  /** A finished once stands for a published entry. */
  lemma DonePublished(g: TypeGraph, m: Maps, n: Node)
    requires MapsOk(g, m) && n in m.onces && m.onces[n] == Done
    ensures n in m.entries
  {
  }

  /** One step of a thread keeps what it relies on and does not disturb the others. */
  lemma MoveOk(g: TypeGraph, m: Maps, i: nat, t: Thread)
    requires ThreadOk(g, m, i, t) && MapsOk(g, m) && CanMove(m, t)
    ensures var (m2, t2) := Move(g, m, i, t); Allowed(g, m, m2, i) && ThreadOk(g, m2, i, t2)
  {
    hide ThreadOk, MapsOk, Allowed, BuiltFrom, PartsOk, Return, Deps, Grows, Hands;
    SameMaps(g, m, i);
    if t.stack == [] {
      MoveStart(g, m, i, t);
      return;
    }
    var (m2, t2) := Move(g, m, i, t);
    var f := t.stack[0];
    Top(g, m, i, t);
    if f.pc.Returning? {
      ReturnOk(g, m, i, t, f.pc.result);
    } else if f.pc == Building && |f.parts| < |Deps(g, f.node)| {
      PartIsCalled(g, m, i, t);
    } else {
      var f2 := t2.stack[0];
      match f.pc {
        case Lookup => ReadOnly(m, i, f, f2);
        case FetchOnce => OnceAppears(g, m, m2, i, f, f2);
        case AtOnce =>
          if m.onces[f.node] == Done {
            DonePublished(g, m, f.node);
            ReadOnly(m, i, f, f2);
          } else {
            BuildStarts(g, m, m2, i, f, f2);
          }
        case Building => AllBuilt(g, m, m2, i, f, f2);
        case Publish => EntryAppears(g, m, m2, i, f, f2);
        case Finish => OnceEnds(g, m, m2, i, f, f2);
        case Reload => ReadOnly(m, i, f, f2);
      }
      AllowedGrows(g, m, m2, i);
      Retop(g, m, m2, i, t, f, f2);
    }
  }

  lemma StepOk(g: TypeGraph, s: State, i: nat)
    requires Inv(g, s)
    ensures Inv(g, Step(g, s, i)) && Grows(s.maps, Step(g, s, i).maps)
  {
    hide ThreadOk, MapsOk, Move, CanMove;
    if i < |s.threads| && CanMove(s.maps, s.threads[i]) {
      MoveOk(g, s.maps, i, s.threads[i]);
      var s2 := Step(g, s, i);
      forall j | 0 <= j < |s2.threads|
        ensures ThreadOk(g, s2.maps, j, s2.threads[j])
      {
        if j != i {
          Undisturbed(g, s.maps, s2.maps, j, s.threads[j]);
        }
      }
    }
  }
}
