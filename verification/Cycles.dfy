/** Cycle detection over finite, possibly cyclic heaps: what encodeValue accepts, what it
    reports, and when the two-tier address test raises a false alarm. */
module Cycles {
  import opened Bytes
  import opened Values
  import opened Reflection

  /** The tree a value unfolds to when at most `n` references may be followed on any path.
      It exists for some `n` exactly when no reference is reachable from itself (and no
      unsupported kind is reachable). */
  function Unfold(h: Heap, v: Val, n: nat): Option<Val>
    decreases n, v, 1
  {
    match v
    case Ptr(r) => if r !in h then Some(Null) else if n == 0 then None else Unfold(h, h[r], n - 1)
    case Alias(r) =>
      if r !in h then Some(Null)
      else if n == 0 || !(h[r].Arr? || h[r].Obj?) then None
      else Unfold(h, h[r], n - 1)
    case Iface(inner) => Unfold(h, inner, n)
    case Arr(items) =>
      (match UnfoldItems(h, items, n)
       case None => None
       case Some(ts) => Some(Arr(ts)))
    case Obj(members) =>
      (match UnfoldMembers(h, members, n)
       case None => None
       case Some(ts) => Some(Obj(ts)))
    case Unsupported => None
    case _ => Some(v)
  }

  function UnfoldItems(h: Heap, items: seq<Val>, n: nat): Option<seq<Val>>
    decreases n, items, 0
  {
    if items == [] then Some([])
    else
      match (Unfold(h, items[0], n), UnfoldItems(h, items[1..], n))
      case (Some(t), Some(ts)) => Some([t] + ts)
      case _ => None
  }

  function UnfoldMembers(h: Heap, members: seq<Member>, n: nat): Option<seq<Member>>
    decreases n, members, 0
  {
    if members == [] then Some([])
    else
      match (UnfoldMember(h, members[0], n), UnfoldMembers(h, members[1..], n))
      case (Some(t), Some(ts)) => Some([t] + ts)
      case _ => None
  }

  function UnfoldMember(h: Heap, m: Member, n: nat): Option<Member>
    decreases n, m, 2
  {
    if m.key.OtherKey? then None
    else
      match Unfold(h, m.value, n)
      case None => None
      case Some(t) => Some(Member(Name(KeyText(m.key)), t))
  }

  lemma {:induction false} UnfoldMore(h: Heap, v: Val, n: nat, k: nat)
    requires Unfold(h, v, n).Some? && n <= k
    ensures Unfold(h, v, k) == Unfold(h, v, n)
    decreases n, v, 1
  {
    match v
    case Ptr(r) => if r in h { UnfoldMore(h, h[r], n - 1, k - 1); }
    case Alias(r) => if r in h { UnfoldMore(h, h[r], n - 1, k - 1); }
    case Iface(inner) => UnfoldMore(h, inner, n, k);
    case Arr(items) => UnfoldItemsMore(h, items, n, k);
    case Obj(members) => UnfoldMembersMore(h, members, n, k);
    case _ =>
  }

  lemma {:induction false} UnfoldItemsMore(h: Heap, items: seq<Val>, n: nat, k: nat)
    requires UnfoldItems(h, items, n).Some? && n <= k
    ensures UnfoldItems(h, items, k) == UnfoldItems(h, items, n)
    decreases n, items, 0
  {
    if items != [] {
      UnfoldMore(h, items[0], n, k);
      UnfoldItemsMore(h, items[1..], n, k);
    }
  }

  lemma {:induction false} UnfoldMembersMore(h: Heap, members: seq<Member>, n: nat, k: nat)
    requires UnfoldMembers(h, members, n).Some? && n <= k
    ensures UnfoldMembers(h, members, k) == UnfoldMembers(h, members, n)
    decreases n, members, 0
  {
    if members != [] {
      UnfoldMemberMore(h, members[0], n, k);
      UnfoldMembersMore(h, members[1..], n, k);
    }
  }

  lemma {:induction false} UnfoldMemberMore(h: Heap, m: Member, n: nat, k: nat)
    requires UnfoldMember(h, m, n).Some? && n <= k
    ensures UnfoldMember(h, m, k) == UnfoldMember(h, m, n)
    decreases n, m, 2
  {
    UnfoldMore(h, m.value, n, k);
  }

  // ----- success means a finite unfolding -----

  /** Encoding succeeds only on values whose reachable part is acyclic, and prints exactly
      their unfolding. */
  lemma {:induction false} SuccessIsAcyclic(h: Heap, v: Val, depth: nat, path: Path, max: int)
    requires Encode(h, v, depth, path, max).Ok?
    ensures exists n :: Unfold(h, v, n) == Some(Encode(h, v, depth, path, max).value)
  {
    var n := Fuel(h, v, depth, path, max);
  }

  lemma {:induction false} Fuel(h: Heap, v: Val, depth: nat, path: Path, max: int) returns (n: nat)
    requires Encode(h, v, depth, path, max).Ok?
    ensures Unfold(h, v, n) == Some(Encode(h, v, depth, path, max).value)
    decreases Room(depth, max), Free(h, path), v, 1
  {
    n := 0;
    match v
    case Ptr(r) =>
      if r in h {
        FreeShrinks(h, path, r);
        n := Fuel(h, h[r], depth, path + [r.addr], max);
        n := n + 1;
      }
    case Iface(inner) => n := Fuel(h, inner, depth, path, max);
    case Alias(r) =>
      if r in h {
        match h[r]
        case Arr(items) => n := ItemsFuel(h, items, depth + 1, path, max); n := n + 1;
        case Obj(members) => n := MembersFuel(h, members, depth + 1, path, max); n := n + 1;
        case _ =>
      }
    case Arr(items) => n := ItemsFuel(h, items, depth + 1, path, max);
    case Obj(members) => n := MembersFuel(h, members, depth + 1, path, max);
    case _ =>
  }

  lemma {:induction false} ItemsFuel(h: Heap, items: seq<Val>, depth: nat, path: Path, max: int) returns (n: nat)
    requires EncodeItems(h, items, depth, path, max).Ok?
    ensures UnfoldItems(h, items, n) == Some(EncodeItems(h, items, depth, path, max).value)
    decreases Room(depth, max), Free(h, path), items, 0
  {
    n := 0;
    if items != [] {
      var a := Fuel(h, items[0], depth, path, max);
      var b := ItemsFuel(h, items[1..], depth, path, max);
      n := a + b;
      UnfoldMore(h, items[0], a, n);
      UnfoldItemsMore(h, items[1..], b, n);
    }
  }

  lemma {:induction false} MembersFuel(h: Heap, members: seq<Member>, depth: nat, path: Path, max: int) returns (n: nat)
    requires EncodeMembers(h, members, depth, path, max).Ok?
    ensures UnfoldMembers(h, members, n) == Some(EncodeMembers(h, members, depth, path, max).value)
    decreases Room(depth, max), Free(h, path), members, 0
  {
    n := 0;
    if members != [] {
      var a := MemberFuel(h, members[0], depth, path, max);
      var b := MembersFuel(h, members[1..], depth, path, max);
      n := a + b;
      UnfoldMemberMore(h, members[0], a, n);
      UnfoldMembersMore(h, members[1..], b, n);
    }
  }

  lemma {:induction false} MemberFuel(h: Heap, m: Member, depth: nat, path: Path, max: int) returns (n: nat)
    requires EncodeMember(h, m, depth, path, max).Ok?
    ensures UnfoldMember(h, m, n) == Some(EncodeMember(h, m, depth, path, max).value)
    decreases Room(depth, max), Free(h, path), m, 2
  {
    n := Fuel(h, m.value, depth, path, max);
  }

  // ----- what a cycle error means -----

  /** One step down from a value: into an element or member, through an interface, through a
      pointer, or through a shared map or slice. */
  datatype Step = Element(i: nat) | Inside | Through | Shared

  function Down(h: Heap, v: Val, s: Step): Option<Val> {
    match (v, s)
    case (Arr(items), Element(i)) => if i < |items| then Some(items[i]) else None
    case (Obj(members), Element(i)) => if i < |members| then Some(members[i].value) else None
    case (Iface(inner), Inside) => Some(inner)
    case (Ptr(r), Through) => if r in h then Some(h[r]) else None
    case (Alias(r), Shared) => if r in h then Some(h[r]) else None
    case _ => None
  }

  /** The value reached by a descent. */
  function Follow(h: Heap, v: Val, trace: seq<Step>): Option<Val>
    decreases trace
  {
    if trace == [] then Some(v)
    else
      match Down(h, v, trace[0])
      case None => None
      case Some(w) => Follow(h, w, trace[1..])
  }

  /** The addresses of the pointers a descent goes through. */
  function Crossed(h: Heap, v: Val, trace: seq<Step>): Path
    decreases trace
  {
    if trace == [] then []
    else
      match Down(h, v, trace[0])
      case None => []
      case Some(w) => (if v.Ptr? && trace[0].Through? then [v.ref.addr] else []) + Crossed(h, w, trace[1..])
  }

  /** A descent that ends at a pointer the two-tier test rejects. */
  predicate FalseStep(h: Heap, v: Val, path: Path, trace: seq<Step>, addr: int) {
    match Follow(h, v, trace)
    case Some(Ptr(r)) => r in h && r.addr == addr && Clash(path + Crossed(h, v, trace), addr)
    case _ => false
  }

  lemma ClashRepeats(path: Path, addr: int)
    requires Clash(path, addr)
    ensures addr in path
  {
    if |path| >= INLINE_SIZE {
      OverflowSubset(path, addr);
    }
  }

  lemma {:induction false} OverflowSubset(path: Path, addr: int)
    requires addr in Overflow(path)
    ensures addr in path
  {
    if addr != path[|path| - 1] {
      OverflowSubset(path[..|path| - 1], addr);
    }
  }

  lemma CrossedCons(h: Heap, v: Val, path: Path, s: Step, w: Val, trace: seq<Step>, addr: int)
    requires Down(h, v, s) == Some(w)
    ensures var p := if v.Ptr? then path + [v.ref.addr] else path;
            FalseStep(h, v, path, [s] + trace, addr) == FalseStep(h, w, p, trace, addr)
  {
    var full := [s] + trace;
    assert full[1..] == trace;
    if v.Ptr? {
      assert path + ([v.ref.addr] + Crossed(h, w, trace)) == (path + [v.ref.addr]) + Crossed(h, w, trace);
    } else {
      assert [] + Crossed(h, w, trace) == Crossed(h, w, trace);
    }
  }

  /** A cycle error is only raised at the end of a descent that meets the address a second
      time: the address lies on the current path. */
  lemma {:induction false} CycleErrorIsRepeat(h: Heap, v: Val, max: int)
    requires Encode(h, v, 0, [], max).Err? && Encode(h, v, 0, [], max).error.Cycle?
    ensures exists trace, r: Ref ::
              Follow(h, v, trace) == Some(Ptr(r)) && r.addr in Crossed(h, v, trace)
              && Encode(h, v, 0, [], max).error.addr == r.addr
  {
    var a := Encode(h, v, 0, [], max).error.addr;
    var trace := Culprit(h, v, 0, [], max);
    assert [] + Crossed(h, v, trace) == Crossed(h, v, trace);
    ClashRepeats(Crossed(h, v, trace), a);
    assert Follow(h, v, trace).value.ref.addr in Crossed(h, v, trace);
  }

  predicate CycleError<T>(r: Result<T>) {
    r.Err? && r.error.Cycle?
  }

  lemma {:induction false} Culprit(h: Heap, v: Val, depth: nat, path: Path, max: int) returns (trace: seq<Step>)
    requires CycleError(Encode(h, v, depth, path, max))
    ensures FalseStep(h, v, path, trace, Encode(h, v, depth, path, max).error.addr)
    decreases Room(depth, max), Free(h, path), v, 1
  {
    var a := Encode(h, v, depth, path, max).error.addr;
    match v
    case Ptr(r) =>
      if Clash(path, r.addr) {
        trace := [];
        assert path + [] == path;
      } else {
        FreeShrinks(h, path, r);
        trace := Culprit(h, h[r], depth, path + [r.addr], max);
        CrossedCons(h, v, path, Through, h[r], trace, a);
        trace := [Through] + trace;
      }
    case Iface(inner) =>
      trace := Culprit(h, inner, depth, path, max);
      CrossedCons(h, v, path, Inside, inner, trace, a);
      trace := [Inside] + trace;
    case Alias(r) =>
      var w := h[r];
      var i;
      if w.Arr? {
        i, trace := CulpritItem(h, w.items, depth + 1, path, max);
        CrossedCons(h, w, path, Element(i), w.items[i], trace, a);
      } else {
        i, trace := CulpritMember(h, w.members, depth + 1, path, max);
        CrossedCons(h, w, path, Element(i), w.members[i].value, trace, a);
      }
      trace := [Element(i)] + trace;
      CrossedCons(h, v, path, Shared, w, trace, a);
      trace := [Shared] + trace;
    case Arr(items) =>
      var i;
      i, trace := CulpritItem(h, items, depth + 1, path, max);
      CrossedCons(h, v, path, Element(i), items[i], trace, a);
      trace := [Element(i)] + trace;
    case Obj(members) =>
      var i;
      i, trace := CulpritMember(h, members, depth + 1, path, max);
      CrossedCons(h, v, path, Element(i), members[i].value, trace, a);
      trace := [Element(i)] + trace;
    case _ =>
      assert false;
  }

  lemma {:induction false} CulpritItem(h: Heap, items: seq<Val>, depth: nat, path: Path, max: int)
      returns (i: nat, trace: seq<Step>)
    requires CycleError(EncodeItems(h, items, depth, path, max))
    ensures i < |items| && FalseStep(h, items[i], path, trace, EncodeItems(h, items, depth, path, max).error.addr)
    decreases Room(depth, max), Free(h, path), items, 0
  {
    if Encode(h, items[0], depth, path, max).Err? {
      i := 0;
      trace := Culprit(h, items[0], depth, path, max);
    } else {
      i, trace := CulpritItem(h, items[1..], depth, path, max);
      i := i + 1;
    }
  }

  lemma {:induction false} CulpritMember(h: Heap, members: seq<Member>, depth: nat, path: Path, max: int)
      returns (i: nat, trace: seq<Step>)
    requires CycleError(EncodeMembers(h, members, depth, path, max))
    ensures i < |members|
        && FalseStep(h, members[i].value, path, trace, EncodeMembers(h, members, depth, path, max).error.addr)
    decreases Room(depth, max), Free(h, path), members, 0
  {
    if EncodeMember(h, members[0], depth, path, max).Err? {
      i := 0;
      trace := CulpritOf(h, members[0], depth, path, max);
    } else {
      i, trace := CulpritMember(h, members[1..], depth, path, max);
      i := i + 1;
    }
  }

  lemma {:induction false} CulpritOf(h: Heap, m: Member, depth: nat, path: Path, max: int) returns (trace: seq<Step>)
    requires CycleError(EncodeMember(h, m, depth, path, max))
    ensures FalseStep(h, m.value, path, trace, EncodeMember(h, m, depth, path, max).error.addr)
    decreases Room(depth, max), Free(h, path), m, 2
  {
    trace := Culprit(h, m.value, depth, path, max);
  }

  /** A successful encoding meets no rejected pointer on any descent. */
  lemma {:induction false} SuccessHasNoFalseStep(h: Heap, v: Val, depth: nat, path: Path, max: int, trace: seq<Step>,
      addr: int)
    requires Encode(h, v, depth, path, max).Ok?
    ensures !FalseStep(h, v, path, trace, addr)
    decreases |trace|
  {
    if trace == [] {
      assert path + Crossed(h, v, trace) == path;
    } else if Down(h, v, trace[0]).Some? {
      var w := Down(h, v, trace[0]).value;
      assert trace == [trace[0]] + trace[1..];
      CrossedCons(h, v, path, trace[0], w, trace[1..], addr);
      match v
      case Ptr(r) => SuccessHasNoFalseStep(h, w, depth, path + [r.addr], max, trace[1..], addr);
      case Alias(r) =>
        // A shared container is encoded like its contents, one step further down.
        if trace[1..] == [] {
          assert !FalseStep(h, w, path, [], addr);
        } else if Down(h, w, trace[1]).Some? {
          var x := Down(h, w, trace[1]).value;
          assert trace[1..] == [trace[1]] + trace[2..];
          CrossedCons(h, w, path, trace[1], x, trace[2..], addr);
          PartOk(h, w, depth + 1, path, max, trace[1].i);
          SuccessHasNoFalseStep(h, x, depth + 1, path, max, trace[2..], addr);
        }
      case Iface(_) => SuccessHasNoFalseStep(h, w, depth, path, max, trace[1..], addr);
      case Arr(_) =>
        PartOk(h, v, depth + 1, path, max, trace[0].i);
        SuccessHasNoFalseStep(h, w, depth + 1, path, max, trace[1..], addr);
      case Obj(_) =>
        PartOk(h, v, depth + 1, path, max, trace[0].i);
        SuccessHasNoFalseStep(h, w, depth + 1, path, max, trace[1..], addr);
      case _ =>
    }
  }

  /** When a container is encoded, so is each of its elements. */
  lemma {:induction false} PartOk(h: Heap, v: Val, depth: nat, path: Path, max: int, i: nat)
    requires v.Arr? ==> i < |v.items| && EncodeItems(h, v.items, depth, path, max).Ok?
    requires v.Obj? ==> i < |v.members| && EncodeMembers(h, v.members, depth, path, max).Ok?
    ensures v.Arr? ==> Encode(h, v.items[i], depth, path, max).Ok?
    ensures v.Obj? ==> Encode(h, v.members[i].value, depth, path, max).Ok?
    decreases i
  {
    if v.Arr? && i > 0 {
      PartOk(h, Arr(v.items[1..]), depth, path, max, i - 1);
    } else if v.Obj? && i > 0 {
      PartOk(h, Obj(v.members[1..]), depth, path, max, i - 1);
    }
  }

  // ----- when encoding an acyclic value succeeds -----

  /** An acyclic value that fits the depth limit either encodes to its unfolding or is
      stopped by the address test; no other error is possible. */
  lemma {:induction false} AcyclicOutcome(h: Heap, v: Val, n: nat, depth: nat, path: Path, max: int)
    requires Unfold(h, v, n).Some? && depth + Height(Unfold(h, v, n).value) <= max
    ensures var r := Encode(h, v, depth, path, max); r == Ok(Unfold(h, v, n).value) || CycleError(r)
    decreases n, v, 1
  {
    match v
    case Ptr(r) =>
      if r in h && !Clash(path, r.addr) {
        AcyclicOutcome(h, h[r], n - 1, depth, path + [r.addr], max);
      }
    case Iface(inner) => AcyclicOutcome(h, inner, n, depth, path, max);
    case Alias(r) =>
      if r in h {
        match h[r]
        case Arr(items) => AcyclicItemsOutcome(h, items, n - 1, depth + 1, path, max);
        case Obj(members) => AcyclicMembersOutcome(h, members, n - 1, depth + 1, path, max);
        case _ =>
      }
    case Arr(items) => AcyclicItemsOutcome(h, items, n, depth + 1, path, max);
    case Obj(members) => AcyclicMembersOutcome(h, members, n, depth + 1, path, max);
    case _ =>
  }

  lemma {:induction false} AcyclicItemsOutcome(h: Heap, items: seq<Val>, n: nat, depth: nat, path: Path, max: int)
    requires UnfoldItems(h, items, n).Some? && depth + ItemsHeight(UnfoldItems(h, items, n).value) <= max
    ensures var r := EncodeItems(h, items, depth, path, max); r == Ok(UnfoldItems(h, items, n).value) || CycleError(r)
    decreases n, items, 0
  {
    if items != [] {
      var ts := UnfoldItems(h, items, n).value;
      assert ts[1..] == UnfoldItems(h, items[1..], n).value;
      AcyclicOutcome(h, items[0], n, depth, path, max);
      AcyclicItemsOutcome(h, items[1..], n, depth, path, max);
    }
  }

  lemma {:induction false} AcyclicMembersOutcome(h: Heap, members: seq<Member>, n: nat, depth: nat, path: Path,
      max: int)
    requires UnfoldMembers(h, members, n).Some? && depth + MembersHeight(UnfoldMembers(h, members, n).value) <= max
    ensures var r := EncodeMembers(h, members, depth, path, max);
            r == Ok(UnfoldMembers(h, members, n).value) || CycleError(r)
    decreases n, members, 0
  {
    if members != [] {
      var ts := UnfoldMembers(h, members, n).value;
      assert ts[1..] == UnfoldMembers(h, members[1..], n).value;
      AcyclicMemberOutcome(h, members[0], n, depth, path, max);
      AcyclicMembersOutcome(h, members[1..], n, depth, path, max);
    }
  }

  lemma {:induction false} AcyclicMemberOutcome(h: Heap, m: Member, n: nat, depth: nat, path: Path, max: int)
    requires UnfoldMember(h, m, n).Some? && depth + MemberHeight(UnfoldMember(h, m, n).value) <= max
    ensures var r := EncodeMember(h, m, depth, path, max); r == Ok(UnfoldMember(h, m, n).value) || CycleError(r)
    decreases n, m, 2
  {
    AcyclicOutcome(h, m.value, n, depth, path, max);
  }

  /** Which acyclic values are encoded: exactly those on which no descent runs into the
      two-tier address test. */
  lemma AcyclicEncodesIff(h: Heap, v: Val, n: nat, max: int)
    requires Unfold(h, v, n).Some? && Height(Unfold(h, v, n).value) <= max
    ensures Encode(h, v, 0, [], max) == Ok(Unfold(h, v, n).value)
       <==> forall trace, addr :: !FalseStep(h, v, [], trace, addr)
  {
    AcyclicOutcome(h, v, n, 0, [], max);
    var r := Encode(h, v, 0, [], max);
    if CycleError(r) {
      var trace := Culprit(h, v, 0, [], max);
    } else {
      forall trace, addr
        ensures !FalseStep(h, v, [], trace, addr)
      {
        SuccessHasNoFalseStep(h, v, 0, [], max, trace, addr);
      }
    }
  }

  /** Values that are not cyclic and are still refused: an array whose second element points at
      its first. Both pointers carry the array's address. */
  lemma InteriorPointerIsRefused(a: int, k: int, max: int)
    requires max >= 2
    ensures var h: Heap := map[Ref(a, 0) := Arr([Int(k), Ptr(Ref(a, 1))]), Ref(a, 1) := Int(k)];
            && Unfold(h, Ptr(Ref(a, 0)), 2) == Some(Arr([Int(k), Int(k)]))
            && Encode(h, Ptr(Ref(a, 0)), 0, [], max) == Err(Cycle(a))
  {
    var h: Heap := map[Ref(a, 0) := Arr([Int(k), Ptr(Ref(a, 1))]), Ref(a, 1) := Int(k)];
    var inner := Ptr(Ref(a, 1));
    var items := [Int(k), inner];
    assert items[1..] == [inner] && items[1..][1..] == [];
    assert [Int(k)] + [Int(k)] == [Int(k), Int(k)] && [Int(k)] + [] == [Int(k)];
    assert [] + [a] == [a];
    assert Clash([a], a);
    assert Unfold(h, inner, 1) == Some(Int(k));
    assert UnfoldItems(h, items[1..], 1) == Some([Int(k)]);
    assert UnfoldItems(h, items, 1) == Some([Int(k), Int(k)]);
    assert Encode(h, inner, 1, [a], max) == Err(Cycle(a));
    assert EncodeItems(h, items[1..], 1, [a], max) == Err(Cycle(a));
    assert EncodeItems(h, items, 1, [a], max) == Err(Cycle(a));
    assert Encode(h, Arr(items), 0, [a], max) == Err(Cycle(a));
  }

  // ----- the second tier forgets the first -----

  /** The map holds the addresses entered from the ninth on. */
  lemma {:induction false} OverflowIsTail(path: Path, addr: int)
    ensures addr in Overflow(path) <==> exists i | INLINE_SIZE <= i < |path| :: path[i] == addr
  {
    if |path| > INLINE_SIZE {
      var n := |path| - 1;
      OverflowIsTail(path[..n], addr);
      if i :| INLINE_SIZE <= i < n && path[..n][i] == addr {
        assert path[i] == addr;
      }
      if i :| INLINE_SIZE <= i < |path| && path[i] == addr {
        assert i < n ==> path[..n][i] == addr;
      }
    }
  }

  /** `n` pointers, each to the next and the last to the first. */
  function Ring(n: nat): Heap {
    map i: int | 0 <= i < n :: Ref(i, 0) := Ptr(Successor(n, i))
  }

  function Successor(n: nat, i: int): Ref {
    Ref(if i + 1 == n then 0 else i + 1, 0)
  }

  /** The address `k` steps around the ring. */
  function Spot(n: nat, k: nat): (a: nat)
    requires n > 0
    ensures a < n
  {
    if k == 0 then 0
    else
      var a := Spot(n, k - 1);
      if a + 1 == n then 0 else a + 1
  }

  /** The addresses entered by `k` steps around the ring. */
  function Steps(n: nat, k: nat): Path
    requires n > 0
  {
    seq(k, i requires 0 <= i => Spot(n, i))
  }

  /** How many pointers of the ring are entered before the cycle is noticed: one round when the
      inline slots hold it, and otherwise a round that starts behind them. */
  function Noticed(n: nat): nat {
    if n < INLINE_SIZE then n else n + INLINE_SIZE
  }

  lemma {:induction false} FirstRound(n: nat, k: nat)
    requires k < n
    ensures Spot(n, k) == k
  {
    if k > 0 {
      FirstRound(n, k - 1);
    }
  }

  lemma {:induction false} NextRound(n: nat, k: nat)
    requires n > 0
    ensures Spot(n, k + n) == Spot(n, k)
  {
    if k > 0 {
      NextRound(n, k - 1);
    } else {
      FirstRound(n, n - 1);
    }
  }

  lemma {:induction false} NearStepsDiffer(n: nat, i: nat, k: nat)
    requires i < k < i + n
    ensures Spot(n, i) != Spot(n, k)
  {
    if i > 0 {
      NearStepsDiffer(n, i - 1, k - 1);
    } else {
      FirstRound(n, k);
    }
  }

  lemma RingClash(n: nat, k: nat)
    requires n > 0 && k <= Noticed(n)
    ensures Clash(Steps(n, k), Spot(n, k)) <==> k == Noticed(n)
  {
    hide Spot;
    var path := Steps(n, k);
    var low := if n < INLINE_SIZE then 0 else INLINE_SIZE;
    OverflowIsTail(path, Spot(n, k));
    forall i: nat | low <= i < k
      ensures path[i] == Spot(n, k) <==> i + n == k
    {
      NextRound(n, i);
      if i + n != k {
        NearStepsDiffer(n, i, k);
      }
    }
    if k == Noticed(n) {
      assert path[low] == Spot(n, k);
    }
    if k < INLINE_SIZE <= n {
      forall i: nat | i < k
        ensures path[i] != Spot(n, k)
      {
        NearStepsDiffer(n, i, k);
      }
    }
  }

  lemma {:induction false} RingFrom(n: nat, k: nat, max: int)
    requires n > 0 && k <= Noticed(n) && max > 0
    ensures Encode(Ring(n), Ptr(Ref(Spot(n, k), 0)), 0, Steps(n, k), max) == Err(Cycle(Spot(n, Noticed(n))))
    decreases Noticed(n) - k
  {
    hide Clash, Free, Overflow;
    var h, r := Ring(n), Ref(Spot(n, k), 0);
    RingClash(n, k);
    assert r in h;
    if k < Noticed(n) {
      assert Steps(n, k) + [r.addr] == Steps(n, k + 1);
      assert h[r] == Ptr(Successor(n, r.addr)) == Ptr(Ref(Spot(n, k + 1), 0));
      RingFrom(n, k + 1, max);
    }
  }

  /** A ring of pointers is refused at its first pointer when it has fewer than eight, and at its
      ninth step otherwise, on the second round. */
  lemma RingIsNoticed(n: nat, max: int)
    requires n > 0 && max > 0
    ensures Encode(Ring(n), Ptr(Ref(0, 0)), 0, [], max)
         == Err(Cycle(if n < 8 then 0 else Spot(n, 8)))
    ensures forall k: nat | k <= Noticed(n) :: Clash(Steps(n, k), Spot(n, k)) <==> k == Noticed(n)
  {
    hide Clash, Encode;
    RingFrom(n, 0, max);
    assert Steps(n, 0) == [];
    NextRound(n, 0);
    NextRound(n, INLINE_SIZE);
    forall k: nat | k <= Noticed(n)
      ensures Clash(Steps(n, k), Spot(n, k)) <==> k == Noticed(n)
    {
      RingClash(n, k);
    }
  }

  /** No two references share an address: there are no interior pointers. */
  predicate OneTypePerAddress(h: Heap) {
    forall r, s | r in h && s in h && r.addr == s.addr :: r == s
  }

  /** What is reachable from `r` needs at least as many steps to unfold as `v`. */
  ghost predicate Above(h: Heap, r: Ref, v: Val)
    requires r in h
  {
    forall k: nat | Unfold(h, h[r], k).Some? :: Unfold(h, v, k).Some?
  }

  ghost predicate AllAbove(h: Heap, path: Path, v: Val) {
    forall r | r in h && r.addr in path :: Above(h, r, v)
  }

  lemma {:induction false} NotAboveItself(h: Heap, r: Ref, k: nat)
    requires r in h && Above(h, r, Ptr(r)) && Unfold(h, h[r], k).Some?
    ensures false
  {
    assert Unfold(h, Ptr(r), k).Some?;
    NotAboveItself(h, r, k - 1);
  }

  /** Shared but acyclic values never run into the address test when no two references share
      an address. */
  lemma {:induction false} NoFalseAlarm(h: Heap, v: Val, n: nat, depth: nat, path: Path, max: int)
    requires OneTypePerAddress(h) && Unfold(h, v, n).Some? && AllAbove(h, path, v)
    ensures !CycleError(Encode(h, v, depth, path, max))
    decreases n, v, 1
  {
    if depth < max {
      match v
      case Ptr(r) =>
        if r in h {
          if r.addr in path {
            NotAboveItself(h, r, n - 1);
          } else {
            EnterAbove(h, r, path);
            NoFalseAlarm(h, h[r], n - 1, depth, path + [r.addr], max);
            if Clash(path, r.addr) {
              ClashRepeats(path, r.addr);
            }
          }
        }
      case Iface(inner) => NoFalseAlarm(h, inner, n, depth, path, max);
      case Alias(r) =>
        if r in h {
          AliasAbove(h, r, path);
          match h[r]
          case Arr(items) => NoFalseAlarmItems(h, items, n - 1, depth + 1, path, max);
          case Obj(members) => NoFalseAlarmMembers(h, members, n - 1, depth + 1, path, max);
          case _ =>
        }
      case Arr(items) => NoFalseAlarmItems(h, items, n, depth + 1, path, max);
      case Obj(members) => NoFalseAlarmMembers(h, members, n, depth + 1, path, max);
      case _ =>
    }
  }

  lemma EnterAbove(h: Heap, r: Ref, path: Path)
    requires OneTypePerAddress(h) && r in h && AllAbove(h, path, Ptr(r))
    ensures AllAbove(h, path + [r.addr], h[r])
  {
    forall s | s in h && s.addr in path + [r.addr]
      ensures Above(h, s, h[r])
    {
      if s != r {
        assert Above(h, s, Ptr(r));
        forall k: nat | Unfold(h, h[s], k).Some?
          ensures Unfold(h, h[r], k).Some?
        {
          assert Unfold(h, Ptr(r), k).Some?;
          UnfoldMore(h, h[r], k - 1, k);
        }
      }
    }
  }

  lemma AliasAbove(h: Heap, r: Ref, path: Path)
    requires r in h && AllAbove(h, path, Alias(r))
    ensures AllAbove(h, path, h[r])
  {
    forall s | s in h && s.addr in path
      ensures Above(h, s, h[r])
    {
      assert Above(h, s, Alias(r));
      forall k: nat | Unfold(h, h[s], k).Some?
        ensures Unfold(h, h[r], k).Some?
      {
        assert Unfold(h, Alias(r), k).Some?;
        UnfoldMore(h, h[r], k - 1, k);
      }
    }
  }

  /** What unfolds as a whole unfolds in its parts. */
  lemma UnfoldParts(h: Heap, items: seq<Val>, k: nat)
    requires items != [] && Unfold(h, Arr(items), k).Some?
    ensures Unfold(h, items[0], k).Some? && Unfold(h, Arr(items[1..]), k).Some?
  {
    assert UnfoldItems(h, items, k).Some?;
    assert UnfoldItems(h, items[1..], k).Some?;
  }

  lemma UnfoldMemberParts(h: Heap, members: seq<Member>, k: nat)
    requires members != [] && Unfold(h, Obj(members), k).Some?
    ensures UnfoldMember(h, members[0], k).Some? && Unfold(h, members[0].value, k).Some?
    ensures Unfold(h, Obj(members[1..]), k).Some?
  {
    assert UnfoldMembers(h, members, k).Some?;
    assert UnfoldMember(h, members[0], k).Some?;
    assert UnfoldMembers(h, members[1..], k).Some?;
  }

  lemma {:induction false} NoFalseAlarmItems(h: Heap, items: seq<Val>, n: nat, depth: nat, path: Path, max: int)
    requires OneTypePerAddress(h) && UnfoldItems(h, items, n).Some? && AllAbove(h, path, Arr(items))
    ensures !CycleError(EncodeItems(h, items, depth, path, max))
    decreases n, items, 0
  {
    if items != [] {
      forall r | r in h && r.addr in path
        ensures Above(h, r, items[0]) && Above(h, r, Arr(items[1..]))
      {
        assert Above(h, r, Arr(items));
        forall k: nat | Unfold(h, h[r], k).Some?
          ensures Unfold(h, items[0], k).Some? && Unfold(h, Arr(items[1..]), k).Some?
        {
          assert Unfold(h, Arr(items), k).Some?;
          UnfoldParts(h, items, k);
        }
      }
      NoFalseAlarm(h, items[0], n, depth, path, max);
      NoFalseAlarmItems(h, items[1..], n, depth, path, max);
    }
  }

  lemma {:induction false} NoFalseAlarmMembers(h: Heap, members: seq<Member>, n: nat, depth: nat, path: Path, max: int)
    requires OneTypePerAddress(h) && UnfoldMembers(h, members, n).Some? && AllAbove(h, path, Obj(members))
    ensures !CycleError(EncodeMembers(h, members, depth, path, max))
    decreases n, members, 0
  {
    if members != [] {
      forall r | r in h && r.addr in path
        ensures Above(h, r, members[0].value) && Above(h, r, Obj(members[1..]))
      {
        assert Above(h, r, Obj(members));
        forall k: nat | Unfold(h, h[r], k).Some?
          ensures Unfold(h, members[0].value, k).Some? && Unfold(h, Obj(members[1..]), k).Some?
        {
          assert Unfold(h, Obj(members), k).Some?;
          UnfoldMemberParts(h, members, k);
        }
      }
      NoFalseAlarmMember(h, members[0], n, depth, path, max);
      NoFalseAlarmMembers(h, members[1..], n, depth, path, max);
    }
  }

  lemma {:induction false} NoFalseAlarmMember(h: Heap, m: Member, n: nat, depth: nat, path: Path, max: int)
    requires OneTypePerAddress(h) && UnfoldMember(h, m, n).Some? && AllAbove(h, path, m.value)
    ensures !CycleError(EncodeMember(h, m, depth, path, max))
    decreases n, m, 2
  {
    NoFalseAlarm(h, m.value, n, depth, path, max);
  }

  /** Without interior pointers encodeValue accepts exactly the acyclic values that fit the
      depth limit, and prints their unfolding. */
  lemma EncodeExact(h: Heap, v: Val, max: int, t: Val)
    requires OneTypePerAddress(h)
    ensures Encode(h, v, 0, [], max) == Ok(t)
       <==> Height(t) <= max && exists n :: Unfold(h, v, n) == Some(t)
  {
    var r := Encode(h, v, 0, [], max);
    if r == Ok(t) {
      SuccessIsAcyclic(h, v, 0, [], max);
      EncodeOk(h, v, 0, [], max);
    } else if Height(t) <= max && exists n :: Unfold(h, v, n) == Some(t) {
      var n :| Unfold(h, v, n) == Some(t);
      AcyclicOutcome(h, v, n, 0, [], max);
      NoFalseAlarm(h, v, n, 0, [], max);
    }
  }
}
