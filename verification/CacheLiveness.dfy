/** When the cache protocol finishes: exactly when the types do not contain themselves. */
module CacheLiveness {
  import opened Cache
  import opened CacheSafety

  /** Every build calls only for entries of lower rank. */
  ghost predicate WellFounded(g: TypeGraph, rank: Node -> nat) {
    forall n, k | 0 <= k < |Deps(g, n)| :: rank(Deps(g, n)[k]) < rank(n)
  }

  /** The types directly inside a type. */
  function Contained(g: TypeGraph, t: TypeId): seq<TypeId> {
    match g(t)
    case StructOf(fs) => fs
    case PtrTo(e) => [e]
    case SliceOf(e) => [e]
    case _ => []
  }

  /** The encoder of a struct above its field table, the field table above the encoders of the
      fields. */
  function RankOf(height: TypeId -> nat): Node -> nat {
    (n: Node) => 2 * height(n.t) + if n.Enc? then 1 else 0
  }

  /** What a build calls for: its own field table, or the encoder of a type inside. */
  lemma DepIsInside(g: TypeGraph, n: Node, k: nat)
    requires k < |Deps(g, n)|
    ensures var d := Deps(g, n)[k];
            (n.Enc? && d == Fld(n.t))
                || (d.Enc? && exists j | 0 <= j < |Contained(g, n.t)| :: Contained(g, n.t)[j] == d.t)
  {
    match g(n.t)
    case StructOf(fs) =>
      var j := if n.Enc? then k - 1 else k;
      if j >= 0 {
        assert Deps(g, n)[k] == Enc(fs[j]) && Contained(g, n.t)[j] == fs[j];
      }
    case PtrTo(e) => assert Contained(g, n.t)[0] == e;
    case SliceOf(e) => assert Contained(g, n.t)[0] == e;
    case _ =>
  }

  /** A rank of types gives a rank of entries. */
  lemma TypesRankEntries(g: TypeGraph, height: TypeId -> nat)
    requires forall t, k | 0 <= k < |Contained(g, t)| :: height(Contained(g, t)[k]) < height(t)
    ensures WellFounded(g, RankOf(height))
  {
    hide Deps, Contained;
    var rank := RankOf(height);
    forall n, k | 0 <= k < |Deps(g, n)|
      ensures rank(Deps(g, n)[k]) < rank(n)
    {
      DepIsInside(g, n, k);
    }
  }

  // ----- some thread can always go on -----

  /** Some entries, with all that their builds call for, which is of lower rank. */
  ghost predicate Closed(g: TypeGraph, good: Node -> bool, rank: Node -> nat) {
    forall n, k | good(n) && 0 <= k < |Deps(g, n)| :: good(Deps(g, n)[k]) && rank(Deps(g, n)[k]) < rank(n)
  }

  /** The innermost call of a stack that runs the once of such an entry is that of the once, or
      of lower rank. */
  lemma {:induction false} OwnedBelow(g: TypeGraph, m: Maps, stack: seq<Frame>, good: Node -> bool, rank: Node -> nat,
      n: Node)
    requires Closed(g, good, rank) && StackOk(g, m, stack) && n in Owned(stack) && good(n)
    ensures stack != [] && good(stack[0].node)
    ensures (stack[0].node == n && HoldsOnce(stack[0])) || rank(stack[0].node) < rank(n)
  {
    if !(stack[0].node == n && HoldsOnce(stack[0])) {
      OwnedBelow(g, m, stack[1..], good, rank, n);
      assert Waits(g, stack[1], stack[0].node);
    }
  }

  /** A thread whose innermost call is for such an entry can move, or waits in the end for one
      that can and is in such a call as well. */
  lemma {:induction false} Unblocked(g: TypeGraph, s: State, good: Node -> bool, rank: Node -> nat, i: nat)
      returns (j: nat)
    requires Inv(g, s) && Closed(g, good, rank) && i < |s.threads|
    requires s.threads[i].stack != [] && good(s.threads[i].stack[0].node)
    ensures j < |s.threads| && CanMove(s.maps, s.threads[j])
    ensures s.threads[j].stack != [] && good(s.threads[j].stack[0].node)
    decreases rank(s.threads[i].stack[0].node)
  {
    var t := s.threads[i];
    assert ThreadOk(g, s.maps, i, t);
    Top(g, s.maps, i, t);
    if CanMove(s.maps, t) {
      return i;
    }
    var n := t.stack[0].node;
    var owner := s.maps.onces[n].owner;
    var u := s.threads[owner];
    assert ThreadOk(g, s.maps, owner, u) && OwnedBy(s.maps, n, owner);
    hide Inv;
    OwnedBelow(g, s.maps, u.stack, good, rank, n);
    if u.stack[0].node == n && HoldsOnce(u.stack[0]) {
      return owner;
    }
    j := Unblocked(g, s, good, rank, owner);
  }

  /** Deadlock freedom: while some thread has not finished its calls, some thread can move. */
  lemma NoDeadlock(g: TypeGraph, calls: seq<seq<Node>>, schedule: seq<nat>, rank: Node -> nat)
    requires WellFounded(g, rank)
    ensures var s := Run(g, Init(calls), schedule);
            (exists i | 0 <= i < |s.threads| :: !Over(s.threads[i])) ==>
            exists j | 0 <= j < |s.threads| :: CanMove(s.maps, s.threads[j])
  {
    InitOk(g, calls);
    RunOk(g, Init(calls), schedule);
    var s := Run(g, Init(calls), schedule);
    if i :| 0 <= i < |s.threads| && !Over(s.threads[i]) {
      if s.threads[i].stack == [] {
        assert CanMove(s.maps, s.threads[i]);
      } else {
        var j := Unblocked(g, s, _ => true, rank, i);
      }
    }
  }

  // ----- every run ends -----

  /** The most moves a call can take. */
  ghost function Cost(g: TypeGraph, rank: Node -> nat, n: Node): nat
    requires WellFounded(g, rank)
    decreases rank(n), 1, 0
  {
    8 + CostFrom(g, rank, n, 0)
  }

  /** The calls of a build from the `k`-th on. */
  ghost function CostFrom(g: TypeGraph, rank: Node -> nat, n: Node, k: nat): nat
    requires WellFounded(g, rank)
    decreases rank(n), 0, |Deps(g, n)| - k
  {
    if k >= |Deps(g, n)| then 0 else 1 + Cost(g, rank, Deps(g, n)[k]) + CostFrom(g, rank, n, k + 1)
  }

  ghost function FrameWork(g: TypeGraph, rank: Node -> nat, f: Frame): nat
    requires WellFounded(g, rank)
  {
    match f.pc
    case Lookup => 8 + CostFrom(g, rank, f.node, 0)
    case FetchOnce => 7 + CostFrom(g, rank, f.node, 0)
    case AtOnce => 6 + CostFrom(g, rank, f.node, |f.parts|)
    case Building => 5 + CostFrom(g, rank, f.node, |f.parts|)
    case Publish => 4
    case Finish => 3
    case Reload => 2
    case Returning(_) => 1
    case Crashed => 0
  }

  /** What the builds that wait for a call still have to do after it. */
  ghost function WaitingWork(g: TypeGraph, rank: Node -> nat, stack: seq<Frame>): nat
    requires WellFounded(g, rank)
  {
    if stack == [] then 0
    else 5 + CostFrom(g, rank, stack[0].node, |stack[0].parts| + 1) + WaitingWork(g, rank, stack[1..])
  }

  ghost function TodoWork(g: TypeGraph, rank: Node -> nat, todo: seq<Node>): nat
    requires WellFounded(g, rank)
  {
    if todo == [] then 0 else 1 + Cost(g, rank, todo[0]) + TodoWork(g, rank, todo[1..])
  }

  ghost function Work(g: TypeGraph, rank: Node -> nat, t: Thread): nat
    requires WellFounded(g, rank)
  {
    TodoWork(g, rank, t.todo)
    + if t.stack == [] then 0 else FrameWork(g, rank, t.stack[0]) + WaitingWork(g, rank, t.stack[1..])
  }

  ghost function TotalWork(g: TypeGraph, rank: Node -> nat, ts: seq<Thread>): nat
    requires WellFounded(g, rank)
  {
    if ts == [] then 0 else Work(g, rank, ts[0]) + TotalWork(g, rank, ts[1..])
  }

  /** The call stands at its next place. */
  predicate Advances(g: TypeGraph, f: Frame, f2: Frame) {
    && f2.node == f.node
    && match f.pc
       case Lookup => f2.pc == FetchOnce || f2.pc.Returning?
       case FetchOnce => f2.pc == AtOnce
       case AtOnce => f2.pc == Building || f2.pc == Reload
       case Building => f2.pc == Publish
       case Publish => f2.pc == Finish
       case Finish => f2.pc == Reload || f2.pc.Returning?
       case Reload => f2.pc.Returning? || f2.pc == Crashed
       case _ => false
  }

  predicate Calls(g: TypeGraph, t: Thread) {
    t.stack != [] && t.stack[0].pc == Building && |t.stack[0].parts| < |Deps(g, t.stack[0].node)|
  }

  /** The four kinds of moves: a call of the program starts, a build makes its next call, a call
      returns, a call goes on. */
  lemma MoveKinds(g: TypeGraph, m: Maps, i: nat, t: Thread)
    requires CanMove(m, t)
    ensures var t2 := Move(g, m, i, t).1;
            if t.stack == [] then t.todo != [] && t2 == Thread(t.todo[1..], [Call(t.todo[0])], t.got)
            else if Calls(g, t) then t2 == t.(stack := [Call(Deps(g, t.stack[0].node)[|t.stack[0].parts|])] + t.stack)
            else if t.stack[0].pc.Returning? then t2 == Return(t, t.stack[0].pc.result)
            else t2.stack != [] && t2 == Go(t, t2.stack[0]) && t2.stack[1..] == t.stack[1..]
                 && Advances(g, t.stack[0], t2.stack[0]) && t2.stack[0].parts == t.stack[0].parts
  {
    hide Deps, Return;
  }

  /** What a move takes for granted of the thread's stack. */
  predicate TopOk(g: TypeGraph, m: Maps, t: Thread) {
    t.stack != [] ==> FrameOk(g, m, t.stack[0]) && (|t.stack| > 1 ==> t.stack[1].pc == Building)
  }

  lemma ThreadTopOk(g: TypeGraph, m: Maps, i: nat, t: Thread)
    requires ThreadOk(g, m, i, t)
    ensures TopOk(g, m, t)
  {
    if |t.stack| > 1 {
      assert Waits(g, t.stack[1], t.stack[0].node);
    }
  }

  /** Each move takes something off the thread's work, whatever the others do. */
  lemma MoveWorks(g: TypeGraph, rank: Node -> nat, m: Maps, i: nat, t: Thread)
    requires WellFounded(g, rank) && TopOk(g, m, t) && CanMove(m, t)
    ensures Work(g, rank, Move(g, m, i, t).1) < Work(g, rank, t)
  {
    MoveKinds(g, m, i, t);
    var t2 := Move(g, m, i, t).1;
    hide Move;
    if t.stack == [] {
      assert t2.stack[1..] == [];
      return;
    }
    var f := t.stack[0];
    if Calls(g, t) {
      CallWorks(g, rank, t);
    } else if f.pc.Returning? {
      ReturnWorks(g, rank, t, f.pc.result);
    } else {
      AdvanceWorks(g, rank, m, f, t2.stack[0]);
    }
  }

  lemma CallWorks(g: TypeGraph, rank: Node -> nat, t: Thread)
    requires WellFounded(g, rank) && Calls(g, t)
    ensures var callee := Deps(g, t.stack[0].node)[|t.stack[0].parts|];
            Work(g, rank, t.(stack := [Call(callee)] + t.stack)) < Work(g, rank, t)
  {
    var f := t.stack[0];
    var d := Deps(g, f.node)[|f.parts|];
    var stack := [Call(d)] + t.stack;
    assert stack[1..] == t.stack && stack[0] == Call(d);
    assert CostFrom(g, rank, f.node, |f.parts|) == 1 + Cost(g, rank, d) + CostFrom(g, rank, f.node, |f.parts| + 1);
    assert WaitingWork(g, rank, t.stack)
        == 5 + CostFrom(g, rank, f.node, |f.parts| + 1) + WaitingWork(g, rank, t.stack[1..]);
    hide CostFrom, Deps;
  }

  lemma AdvanceWorks(g: TypeGraph, rank: Node -> nat, m: Maps, f: Frame, f2: Frame)
    requires WellFounded(g, rank) && FrameOk(g, m, f) && Advances(g, f, f2) && f2.parts == f.parts
    ensures FrameWork(g, rank, f2) < FrameWork(g, rank, f)
  {
    hide PartsOk, BuiltFrom, CostFrom;
  }

  lemma {:induction false} ReturnWorks(g: TypeGraph, rank: Node -> nat, t: Thread, r: nat)
    requires WellFounded(g, rank) && t.stack != [] && t.stack[0].pc == Returning(r)
    requires |t.stack| > 1 ==> t.stack[1].pc == Building
    ensures Work(g, rank, Return(t, r)) < Work(g, rank, t)
  {
    hide CostFrom;
    if |t.stack| > 1 {
      assert t.stack[1..][0] == t.stack[1];
      assert Return(t, r).stack[1..] == t.stack[1..][1..];
    }
  }

  lemma {:induction false} TotalFalls(g: TypeGraph, rank: Node -> nat, ts: seq<Thread>, i: nat, t: Thread)
    requires WellFounded(g, rank) && i < |ts| && Work(g, rank, t) < Work(g, rank, ts[i])
    ensures TotalWork(g, rank, ts[i := t]) < TotalWork(g, rank, ts)
  {
    if i > 0 {
      assert ts[i := t][1..] == ts[1..][i - 1 := t];
      TotalFalls(g, rank, ts[1..], i - 1, t);
    } else {
      assert ts[i := t][1..] == ts[1..];
    }
  }

  /** Every turn of a schedule goes to a thread that can move. */
  predicate Busy(g: TypeGraph, s: State, schedule: seq<nat>)
    decreases |schedule|
  {
    schedule != [] ==>
      var k := |schedule| - 1;
      && Busy(g, s, schedule[..k])
      && schedule[k] < |Run(g, s, schedule[..k]).threads|
      && CanMove(Run(g, s, schedule[..k]).maps, Run(g, s, schedule[..k]).threads[schedule[k]])
  }

  /** A run in which every turn is a move has at most as many turns as there was work. */
  lemma {:induction false} BusyRunsEnd(g: TypeGraph, s: State, schedule: seq<nat>, rank: Node -> nat)
    requires WellFounded(g, rank) && Inv(g, s) && Busy(g, s, schedule)
    ensures |schedule| + TotalWork(g, rank, Run(g, s, schedule).threads) <= TotalWork(g, rank, s.threads)
    decreases |schedule|
  {
    if schedule != [] {
      var k := |schedule| - 1;
      var s1, i := Run(g, s, schedule[..k]), schedule[k];
      BusyRunsEnd(g, s, schedule[..k], rank);
      RunOk(g, s, schedule[..k]);
      assert ThreadOk(g, s1.maps, i, s1.threads[i]);
      ThreadTopOk(g, s1.maps, i, s1.threads[i]);
      MoveWorks(g, rank, s1.maps, i, s1.threads[i]);
      TotalFalls(g, rank, s1.threads, i, Move(g, s1.maps, i, s1.threads[i]).1);
      hide Inv, Move, TotalWork;
    }
  }

  // ----- what a thread has done -----

  function Nodes(got: seq<Outcome>): seq<Node> {
    if got == [] then [] else Nodes(got[..|got| - 1]) + [got[|got| - 1].node]
  }

  function Current(stack: seq<Frame>): seq<Node> {
    if stack == [] then [] else [stack[|stack| - 1].node]
  }

  /** Calls returned, the call in progress, and the calls to come. */
  function Program(t: Thread): seq<Node> {
    Nodes(t.got) + Current(t.stack) + t.todo
  }

  lemma {:induction false} MoveKeepsProgram(g: TypeGraph, m: Maps, i: nat, t: Thread)
    requires CanMove(m, t)
    ensures Program(Move(g, m, i, t).1) == Program(t)
  {
    hide Move, Deps, Program, Return, Go, Advances;
    MoveKinds(g, m, i, t);
    var t2 := Move(g, m, i, t).1;
    if t.stack == [] {
      StartKeepsProgram(t);
    } else if Calls(g, t) {
      PushKeepsProgram(t, Call(Deps(g, t.stack[0].node)[|t.stack[0].parts|]));
    } else if t.stack[0].pc.Returning? {
      ReturnKeepsProgram(t, t.stack[0].pc.result);
    } else {
      GoKeepsProgram(g, t, t2.stack[0]);
    }
  }

  lemma StartKeepsProgram(t: Thread)
    requires t.stack == [] && t.todo != []
    ensures Program(Thread(t.todo[1..], [Call(t.todo[0])], t.got)) == Program(t)
  {
    hide Nodes;
    assert t.todo == [t.todo[0]] + t.todo[1..];
  }

  lemma PushKeepsProgram(t: Thread, f: Frame)
    requires t.stack != []
    ensures Program(t.(stack := [f] + t.stack)) == Program(t)
  {
    hide Nodes;
  }

  lemma GoKeepsProgram(g: TypeGraph, t: Thread, f: Frame)
    requires t.stack != [] && Advances(g, t.stack[0], f)
    ensures Program(Go(t, f)) == Program(t)
  {
    hide Nodes;
  }

  lemma ReturnKeepsProgram(t: Thread, r: nat)
    requires t.stack != []
    ensures Program(Return(t, r)) == Program(t)
  {
    hide Nodes;
    var t2 := Return(t, r);
    if |t.stack| == 1 {
      NodesSnoc(t.got, Outcome(t.stack[0].node, r));
      assert Nodes(t2.got) + [] == Nodes(t.got) + [t.stack[0].node];
    } else {
      assert Current(t2.stack) == Current(t.stack);
    }
  }

  lemma NodesSnoc(got: seq<Outcome>, o: Outcome)
    ensures Nodes(got + [o]) == Nodes(got) + [o.node]
  {
    assert (got + [o])[..|got|] == got;
  }

  lemma {:induction false} RunKeepsPrograms(g: TypeGraph, s: State, schedule: seq<nat>)
    ensures var s2 := Run(g, s, schedule);
            |s2.threads| == |s.threads|
                && forall i | 0 <= i < |s.threads| :: Program(s2.threads[i]) == Program(s.threads[i])
    decreases |schedule|
  {
    hide Program, Move, CanMove;
    if schedule != [] {
      var k := |schedule| - 1;
      RunKeepsPrograms(g, s, schedule[..k]);
      var s1, i := Run(g, s, schedule[..k]), schedule[k];
      if i < |s1.threads| && CanMove(s1.maps, s1.threads[i]) {
        MoveKeepsProgram(g, s1.maps, i, s1.threads[i]);
      }
    }
  }

  /** A run in which every turn is a move cannot go on for ever, and when no thread can move any
      more, every thread has had every one of its calls answered, in order. */
  lemma CallsComplete(g: TypeGraph, calls: seq<seq<Node>>, schedule: seq<nat>, rank: Node -> nat)
    requires WellFounded(g, rank) && Busy(g, Init(calls), schedule)
    ensures |schedule| <= TotalWork(g, rank, Init(calls).threads)
    ensures var s := Run(g, Init(calls), schedule);
            && |s.threads| == |calls|
            && ((forall i | 0 <= i < |s.threads| :: !CanMove(s.maps, s.threads[i])) ==>
                forall i | 0 <= i < |s.threads| :: Over(s.threads[i]) && Nodes(s.threads[i].got) == calls[i])
  {
    InitOk(g, calls);
    BusyRunsEnd(g, Init(calls), schedule, rank);
    RunKeepsPrograms(g, Init(calls), schedule);
    NoDeadlock(g, calls, schedule, rank);
    var s := Run(g, Init(calls), schedule);
    if forall i | 0 <= i < |s.threads| :: !CanMove(s.maps, s.threads[i]) {
      forall i | 0 <= i < |s.threads|
        ensures Over(s.threads[i]) && Nodes(s.threads[i].got) == calls[i]
      {
        assert Program(Init(calls).threads[i]) == [] + [] + calls[i] == calls[i];
        assert Over(s.threads[i]);
        assert Program(s.threads[i]) == Nodes(s.threads[i].got) + [] + [];
      }
    }
  }

  // ----- where only some types contain themselves -----

  /** Some types, closed under what is inside them, none of which contains itself. */
  ghost predicate Grounded(g: TypeGraph, fine: TypeId -> bool, height: TypeId -> nat) {
    forall t, k | fine(t) && 0 <= k < |Contained(g, t)| ::
      fine(Contained(g, t)[k]) && height(Contained(g, t)[k]) < height(t)
  }

  /** The same types, with nothing inside the others. */
  function Restrict(g: TypeGraph, fine: TypeId -> bool): TypeGraph {
    t => if fine(t) then g(t) else Leaf
  }

  lemma FineIsClosed(g: TypeGraph, fine: TypeId -> bool, height: TypeId -> nat)
    requires Grounded(g, fine, height)
    ensures Closed(g, (n: Node) => fine(n.t), RankOf(height))
    ensures WellFounded(Restrict(g, fine), RankOf(height))
  {
    var r, good, rank := Restrict(g, fine), (n: Node) => fine(n.t), RankOf(height);
    forall t, k | 0 <= k < |Contained(r, t)|
      ensures height(Contained(r, t)[k]) < height(t)
    {
      assert fine(t) && Contained(r, t) == Contained(g, t);
    }
    TypesRankEntries(r, height);
    hide Deps, Contained;
    forall n, k | good(n) && 0 <= k < |Deps(g, n)|
      ensures good(Deps(g, n)[k]) && rank(Deps(g, n)[k]) < rank(n)
    {
      DepIsInside(g, n, k);
    }
  }

  /** Every call that such a call makes is such a call. */
  lemma {:induction false} TopIsGood(g: TypeGraph, m: Maps, stack: seq<Frame>, good: Node -> bool, rank: Node -> nat)
    requires Closed(g, good, rank) && StackOk(g, m, stack) && stack != [] && good(stack[|stack| - 1].node)
    ensures good(stack[0].node)
  {
    if |stack| > 1 {
      TopIsGood(g, m, stack[1..], good, rank);
      assert Waits(g, stack[1], stack[0].node);
    }
  }

  /** A move of a thread in a call for a fine type, counted on the fine types only. */
  lemma FineStep(g: TypeGraph, fine: TypeId -> bool, height: TypeId -> nat, s: State, j: nat)
    requires Inv(g, s) && Grounded(g, fine, height) && WellFounded(Restrict(g, fine), RankOf(height))
    requires j < |s.threads| && CanMove(s.maps, s.threads[j])
    requires s.threads[j].stack != [] && fine(s.threads[j].stack[0].node.t)
    ensures TotalWork(Restrict(g, fine), RankOf(height), Step(g, s, j).threads)
          < TotalWork(Restrict(g, fine), RankOf(height), s.threads)
  {
    var r, rank, t := Restrict(g, fine), RankOf(height), s.threads[j];
    var f := t.stack[0];
    assert ThreadOk(g, s.maps, j, t);
    hide Inv, WellFounded, Grounded, TotalWork, Work;
    ThreadTopOk(g, s.maps, j, t);
    assert Deps(r, f.node) == Deps(g, f.node);
    assert PartsOk(r, s.maps, f.node, f.parts) == PartsOk(g, s.maps, f.node, f.parts);
    MoveWorks(r, rank, s.maps, j, t);
    TotalFalls(r, rank, s.threads, j, Move(r, s.maps, j, t).1);
  }

  /** The call in progress stays the same, or has returned. */
  lemma MoveKeepsCall(g: TypeGraph, m: Maps, i: nat, t: Thread)
    requires CanMove(m, t) && t.stack != []
    ensures var t2 := Move(g, m, i, t).1;
            t2.todo == t.todo && (t2.stack != [] ==> Current(t2.stack) == Current(t.stack))
  {
    hide Move, Deps;
    MoveKinds(g, m, i, t);
  }

  /** From any state, a call for a fine type can be answered, whatever the others have asked for:
      there are turns, all of threads in calls for fine types, after which it has returned. */
  lemma {:induction false} CallReturns(g: TypeGraph, fine: TypeId -> bool, height: TypeId -> nat, s: State, i: nat)
      returns (more: seq<nat>)
    requires Inv(g, s) && Grounded(g, fine, height) && WellFounded(Restrict(g, fine), RankOf(height))
    requires i < |s.threads|
    requires s.threads[i].stack != [] ==> fine(Current(s.threads[i].stack)[0].t)
    ensures var s2 := Run(g, s, more);
            i < |s2.threads| && s2.threads[i].stack == [] && s2.threads[i].todo == s.threads[i].todo
    decreases TotalWork(Restrict(g, fine), RankOf(height), s.threads)
  {
    hide Inv, WellFounded, Grounded, TotalWork, Move, CanMove, Restrict, Closed;
    more := [];
    var t, good := s.threads[i], (n: Node) => fine(n.t);
    if t.stack != [] {
      FineIsClosed(g, fine, height);
      ThreadIsOk(g, s, i);
      TopIsGood(g, s.maps, t.stack, good, RankOf(height));
      var j := Unblocked(g, s, good, RankOf(height), i);
      var s1 := Step(g, s, j);
      StepOk(g, s, j);
      FineStep(g, fine, height, s, j);
      if j == i {
        MoveKeepsCall(g, s.maps, i, t);
      }
      more := CallReturns(g, fine, height, s1, i);
      RunConcat(g, s, [j], more);
      assert Run(g, s, [j]) == Step(g, Run(g, s, [j][..0]), j);
      more := [j] + more;
    }
  }

  lemma ThreadIsOk(g: TypeGraph, s: State, i: nat)
    requires Inv(g, s) && i < |s.threads|
    ensures ThreadOk(g, s.maps, i, s.threads[i])
  {
  }

  predicate AllFine(fine: TypeId -> bool, calls: seq<Node>) {
    forall k | 0 <= k < |calls| :: fine(calls[k].t)
  }

  /** The same for all the calls a thread still has to make. */
  lemma {:induction false} CallsReturn(g: TypeGraph, fine: TypeId -> bool, height: TypeId -> nat, s: State, i: nat)
      returns (more: seq<nat>)
    requires Inv(g, s) && Grounded(g, fine, height) && i < |s.threads|
    requires AllFine(fine, Program(s.threads[i]))
    ensures var s2 := Run(g, s, more);
            i < |s2.threads| && Over(s2.threads[i]) && Program(s2.threads[i]) == Program(s.threads[i])
    decreases |s.threads[i].todo|
  {
    hide Inv, WellFounded, Grounded, Move, Restrict, Closed, Program, Step;
    FineIsClosed(g, fine, height);
    FineCall(fine, s.threads[i]);
    more := CallReturns(g, fine, height, s, i);
    var s1 := Run(g, s, more);
    RunOk(g, s, more);
    RunKeepsPrograms(g, s, more);
    if s1.threads[i].todo != [] {
      var s2 := Step(g, s1, i);
      StepOk(g, s1, i);
      RunKeepsPrograms(g, s1, [i]);
      assert Run(g, s1, [i]) == Step(g, Run(g, s1, [i][..0]), i);
      CallStarts(g, s1, i);
      var rest := CallsReturn(g, fine, height, s2, i);
      RunConcat(g, s1, [i], rest);
      RunConcat(g, s, more, [i] + rest);
      more := more + ([i] + rest);
    }
  }

  lemma FineCall(fine: TypeId -> bool, t: Thread)
    requires AllFine(fine, Program(t))
    ensures t.stack != [] ==> fine(Current(t.stack)[0].t)
  {
    if t.stack != [] {
      assert Program(t)[|Nodes(t.got)|] == Current(t.stack)[0];
    }
  }

  lemma CallStarts(g: TypeGraph, s: State, i: nat)
    requires i < |s.threads| && s.threads[i].stack == [] && s.threads[i].todo != []
    ensures |Step(g, s, i).threads| == |s.threads| && Step(g, s, i).threads[i].todo == s.threads[i].todo[1..]
  {
  }

  /** Recursive types do not hold up the others: from any state of any run, a thread that asks for
      fine types only can have all its calls answered, whatever the other threads ask for. */
  lemma FineCallsComplete(g: TypeGraph, calls: seq<seq<Node>>, schedule: seq<nat>, fine: TypeId -> bool,
      height: TypeId -> nat, i: nat)
    requires Grounded(g, fine, height) && i < |calls| && AllFine(fine, calls[i])
    ensures exists more ::
              var s := Run(g, Init(calls), schedule + more);
              i < |s.threads| && Over(s.threads[i]) && Nodes(s.threads[i].got) == calls[i]
  {
    hide Inv, Grounded, Step;
    var s0 := Init(calls);
    InitOk(g, calls);
    RunOk(g, s0, schedule);
    RunKeepsPrograms(g, s0, schedule);
    assert Program(s0.threads[i]) == [] + [] + calls[i] == calls[i];
    var more := CallsReturn(g, fine, height, Run(g, s0, schedule), i);
    RunConcat(g, s0, schedule, more);
    var t := Run(g, s0, schedule + more).threads[i];
    assert Program(t) == Nodes(t.got) + [] + [] == Nodes(t.got);
  }

  // ----- types that contain themselves -----

  /** A chain of entries each of which needs the next. */
  predicate Chain(g: TypeGraph, p: seq<Node>) {
    |p| > 1 ==> p[1] in Deps(g, p[0]) && Chain(g, p[1..])
  }

  /** Along a chain of published entries the identities fall. */
  lemma {:induction false} ChainFalls(g: TypeGraph, m: Maps, p: seq<Node>)
    requires MapsOk(g, m) && p != [] && Chain(g, p) && p[0] in m.entries
    ensures p[|p| - 1] in m.entries
    ensures |p| > 1 ==> m.entries[p[|p| - 1]].id < m.entries[p[0]].id
  {
    if |p| > 1 {
      var k :| 0 <= k < |Deps(g, p[0])| && Deps(g, p[0])[k] == p[1];
      assert BuiltFrom(g, m, p[0], m.entries[p[0]].id, m.entries[p[0]].parts);
      assert Published(m, p[1], m.entries[p[0]].parts[k]);
      ChainFalls(g, m, p[1..]);
    }
  }

  /** The other direction: no call for an entry that needs itself, however indirectly, ever
      returns, and nothing is ever published for it. */
  lemma SelfContainedNeverReturns(g: TypeGraph, calls: seq<seq<Node>>, schedule: seq<nat>, p: seq<Node>, i: nat, k: nat)
    requires |p| > 1 && Chain(g, p) && p[|p| - 1] == p[0]
    ensures var s := Run(g, Init(calls), schedule);
            && p[0] !in s.maps.entries
            && (i < |s.threads| && k < |s.threads[i].got| ==> s.threads[i].got[k].node != p[0])
  {
    InitOk(g, calls);
    RunOk(g, Init(calls), schedule);
    CacheIsSafe(g, calls, schedule);
    var s := Run(g, Init(calls), schedule);
    if p[0] in s.maps.entries {
      ChainFalls(g, s.maps, p);
      assert false;
    }
    if i < |s.threads| && k < |s.threads[i].got| {
      assert Published(s.maps, s.threads[i].got[k].node, s.threads[i].got[k].result);
    }
  }

  /** A type asks for the encoders of the types inside it. */
  lemma ContainedIsAsked(g: TypeGraph, t: TypeId, u: TypeId)
    requires u in Contained(g, t)
    ensures Enc(u) in Deps(g, Enc(t))
  {
    hide Encoders;
    var deps := Deps(g, Enc(t));
    match g(t)
    case StructOf(fs) =>
      var k :| 0 <= k < |fs| && fs[k] == u;
      assert deps[k + 1] == Encoders(fs)[k] == Enc(u);
    case PtrTo(_) => assert deps[0] == Enc(u);
    case SliceOf(_) => assert deps[0] == Enc(u);
    case _ =>
  }

  /** Types each of which is directly inside the one before. */
  predicate TypeChain(g: TypeGraph, ts: seq<TypeId>) {
    |ts| > 1 ==> ts[1] in Contained(g, ts[0]) && TypeChain(g, ts[1..])
  }

  lemma {:induction false} ChainOfTypes(g: TypeGraph, ts: seq<TypeId>)
    requires TypeChain(g, ts)
    ensures Chain(g, Encoders(ts))
  {
    if |ts| > 1 {
      ContainedIsAsked(g, ts[0], ts[1]);
      ChainOfTypes(g, ts[1..]);
      assert Encoders(ts)[1..] == Encoders(ts[1..]);
    }
  }

  /** For a type that contains itself through pointers, slices and structs, no encoder is ever
      published, and no call for one returns. */
  lemma RecursiveTypeNeverReturns(g: TypeGraph, calls: seq<seq<Node>>, schedule: seq<nat>, ts: seq<TypeId>, i: nat,
      k: nat)
    requires |ts| > 1 && TypeChain(g, ts) && ts[|ts| - 1] == ts[0]
    ensures var s := Run(g, Init(calls), schedule);
            && Enc(ts[0]) !in s.maps.entries
            && (i < |s.threads| && k < |s.threads[i].got| ==> s.threads[i].got[k].node != Enc(ts[0]))
  {
    ChainOfTypes(g, ts);
    hide Chain, TypeChain, Run;
    var p := Encoders(ts);
    assert p[0] == Enc(ts[0]) && p[|p| - 1] == Enc(ts[|ts| - 1]);
    SelfContainedNeverReturns(g, calls, schedule, p, i, k);
  }

  /** A single thread that asks for the encoder of a pointer type to itself waits for itself. */
  lemma RecursivePointerDeadlocks(g: TypeGraph, t: TypeId)
    requires g(t) == PtrTo(t)
    ensures var s := Run(g, Init([[Enc(t)]]), [0, 0, 0, 0, 0, 0, 0]);
            |s.threads| == 1 && !Over(s.threads[0]) && Blocked(s.maps, s.threads[0])
  {
    var e, s0 := Enc(t), Init([[Enc(t)]]);
    CallArrives(g, e);
    assert Deps(g, e) == [e];
    CallRepeats(g, e);
    hide Step, Init, Deps;
    Unroll(g, s0, 7);
    assert [0, 0, 0, 0, 0, 0, 0] == seq(7, _ => 0);
    assert Turns(g, s0, 5) == Step(g, Step(g, Turns(g, s0, 3), 0), 0);
    assert Turns(g, s0, 7) == Step(g, Step(g, Turns(g, s0, 5), 0), 0);
  }

  const NOTHING: Maps := Maps(map[], map[], map[], 0)

  lemma CallArrives(g: TypeGraph, e: Node)
    ensures Turns(g, Init([[e]]), 3) == Solo(NOTHING.(onces := map[e := Idle]), [Frame(e, AtOnce, [], 0)])
  {
    var s0, m1 := Init([[e]]), NOTHING.(onces := map[e := Idle]);
    assert s0.threads == [Thread([e], [], [])];
    assert [e][1..] == [] && [Thread([e], [], [])][0 := Thread([], [Call(e)], [])] == [Thread([], [Call(e)], [])];
    assert Step(g, s0, 0) == Solo(NOTHING, [Call(e)]);
    SoloGoes(g, NOTHING, NOTHING, [Call(e)], Frame(e, FetchOnce, [], 0));
    assert map[][e := Idle] == map[e := Idle];
    SoloGoes(g, NOTHING, m1, [Frame(e, FetchOnce, [], 0)], Frame(e, AtOnce, [], 0));
    hide Step, Init;
    assert Turns(g, s0, 1) == Step(g, Turns(g, s0, 0), 0);
    assert Turns(g, s0, 3) == Step(g, Step(g, Turns(g, s0, 1), 0), 0);
  }

  lemma CallRepeats(g: TypeGraph, e: Node)
    requires Deps(g, e) == [e]
    ensures var m := NOTHING.(onces := map[e := Idle]);
            Step(g, Step(g, Step(g, Step(g, Solo(m, [Frame(e, AtOnce, [], 0)]), 0), 0), 0), 0)
            == Solo(NOTHING.(onces := map[e := Running(0)], builds := map[e := 1]),
                    [Frame(e, AtOnce, [], 0), Frame(e, Building, [], 0)])
  {
    var building := Frame(e, Building, [], 0);
    var m1 := NOTHING.(onces := map[e := Idle]);
    var m2 := NOTHING.(onces := map[e := Running(0)], builds := map[e := 1]);
    assert m1.onces[e := Running(0)] == m2.onces && map[][e := 1] == m2.builds;
    SoloGoes(g, m1, m2, [Frame(e, AtOnce, [], 0)], building);
    SoloCalls(g, m2, building, e);
    SoloGoes(g, m2, m2, [Call(e), building], Frame(e, FetchOnce, [], 0));
    SoloGoes(g, m2, m2, [Frame(e, FetchOnce, [], 0), building], Frame(e, AtOnce, [], 0));
    hide Step, Deps;
  }

  /** One thread on its last call. */
  function Solo(m: Maps, stack: seq<Frame>): State {
    State(m, [Thread([], stack, [])])
  }

  lemma SoloGoes(g: TypeGraph, m: Maps, m2: Maps, stack: seq<Frame>, f2: Frame)
    requires var t := Thread([], stack, []);
             stack != [] && CanMove(m, t) && Move(g, m, 0, t) == (m2, Go(t, f2))
    ensures Step(g, Solo(m, stack), 0) == Solo(m2, [f2] + stack[1..])
    ensures |stack| == 1 ==> [f2] + stack[1..] == [f2]
    ensures |stack| == 2 ==> [f2] + stack[1..] == [f2, stack[1]]
  {
    var t, t2 := Thread([], stack, []), Thread([], [f2] + stack[1..], []);
    assert [t][0 := t2] == [t2];
    hide Move, CanMove;
  }

  lemma SoloCalls(g: TypeGraph, m: Maps, f: Frame, n: Node)
    requires f.pc == Building && f.parts == [] && Deps(g, f.node) == [n]
    ensures Step(g, Solo(m, [f]), 0) == Solo(m, [Call(n), f])
  {
    var t, t2 := Thread([], [f], []), Thread([], [Call(n), f], []);
    assert [t][0 := t2] == [t2] && [Call(n)] + [f] == [Call(n), f];
  }

  /** The state after `n` turns of thread 0. */
  function Turns(g: TypeGraph, s: State, n: nat): State {
    if n == 0 then s else Step(g, Turns(g, s, n - 1), 0)
  }

  lemma {:induction false} Unroll(g: TypeGraph, s: State, n: nat)
    ensures Run(g, s, seq(n, _ => 0)) == Turns(g, s, n)
  {
    hide Step;
    if n > 0 {
      Unroll(g, s, n - 1);
      assert seq(n, _ => 0)[..n - 1] == seq(n - 1, _ => 0);
    }
  }
}
