/** Which error encoding stops with: the leftmost descent that cannot be finished decides. */
module Routes {
  import opened Bytes
  import opened Values
  import opened Reflection
  import opened Cycles
  import opened Mixture

  /** Who looks at a typed cell: encodeValue, or compiled code. */
  datatype Mode = Reflective(addressable: bool) | Compiled

  /** A value on the way down, with the depth and the pointers recorded so far: for reflection
      alone, or for reflection and compiled code in turns. `Wrong` is a member that is refused as
      it stands. */
  datatype Node =
    | Plain(h: Heap, v: Val, depth: nat, path: Path)
    | Typed(s: Store, t: Typ, c: Cell, mode: Mode, depth: nat, path: Path)
    | Wrong

  /** How many levels the depth test at a node asks for. Compiled code only tests inside
      containers, for the level below. */
  function Need(n: Node): nat {
    match n
    case Plain(_, _, depth, _) => depth + 1
    case Typed(s, t, c, mode, depth, _) =>
      if mode.Reflective? then depth + 1
      else if (t.TSlice? && c.CSlice? && c.r in s && s[c.r].CList?) || (t.TStruct? && c.CRecord?) then depth + 2
      else 0
    case Wrong => 0
  }

  /** The error a descent ends with at a node, whatever the limit. Only a recorded pointer can
      clash, and only reflection looks. */
  function Event(n: Node): Option<Error> {
    match n
    case Plain(h, v, _, path) =>
      (match v
       case Ptr(r) => if r in h && Clash(path, r.addr) then Some(Cycle(r.addr)) else None
       case Alias(r) => if r in h && !h[r].Arr? && !h[r].Obj? then Some(BadType) else None
       case Unsupported => Some(BadType)
       case _ => None)
    case Typed(s, t, c, mode, _, path) =>
      (match (t, c)
       case (TScalar, CText(_)) => None
       case (TIface, _) => if mode.Compiled? || c.CNil? || c.CBox? then None else Some(BadType)
       case (TPtr(_), CPtr(r)) =>
         if mode.Reflective? && r in s && Clash(path, r.addr) then Some(Cycle(r.addr)) else None
       case (TSlice(_), CSlice(r)) => if r in s && !s[r].CList? then Some(BadType) else None
       case (TStruct(_), CRecord(_)) => None
       case _ => Some(BadType))
    case Wrong => Some(BadType)
  }

  /** Where a descent can go on. */
  function Kids(n: Node): seq<Node> {
    match n
    case Plain(h, v, depth, path) => PlainKids(h, v, depth, path)
    case Typed(s, t, c, Reflective(addressable), depth, path) => ReflectiveKids(s, t, c, addressable, depth, path)
    case Typed(s, t, c, Compiled, depth, path) => CompiledKids(s, t, c, depth, path)
    case Wrong => []
  }

  function PlainKids(h: Heap, v: Val, depth: nat, path: Path): seq<Node> {
    match v
    case Ptr(r) => if r in h then [Plain(h, h[r], depth, path + [r.addr])] else []
    case Iface(inner) => [Plain(h, inner, depth, path)]
    case Alias(r) =>
      if r in h && h[r].Arr? then Items(h, h[r].items, depth + 1, path)
      else if r in h && h[r].Obj? then Members(h, h[r].members, depth + 1, path)
      else []
    case Arr(items) => Items(h, items, depth + 1, path)
    case Obj(members) => Members(h, members, depth + 1, path)
    case _ => []
  }

  function Items(h: Heap, items: seq<Val>, depth: nat, path: Path): seq<Node> {
    if items == [] then [] else [Plain(h, items[0], depth, path)] + Items(h, items[1..], depth, path)
  }

  function Members(h: Heap, members: seq<Member>, depth: nat, path: Path): seq<Node> {
    if members == [] then []
    else
      [if members[0].key.OtherKey? then Wrong else Plain(h, members[0].value, depth, path)]
      + Members(h, members[1..], depth, path)
  }

  /** What encodeValue goes on with: the elements of a slice and what a pointer points at have an
      address, the fields of an addressable struct are left to compiled code. */
  function ReflectiveKids(s: Store, t: Typ, c: Cell, addressable: bool, depth: nat, path: Path): seq<Node> {
    match (t, c)
    case (TIface, CBox(dt, inner)) =>
      [if dt.TIface? then Wrong else Typed(s, dt, inner, Reflective(false), depth, path)]
    case (TPtr(e), CPtr(r)) => if r in s then [Typed(s, e, s[r], Reflective(true), depth, path + [r.addr])] else []
    case (TSlice(e), CSlice(r)) =>
      if r in s && s[r].CList? then Elements(s, e, s[r].items, Reflective(true), depth + 1, path) else []
    case (TStruct(ts), CRecord(slots)) =>
      Slots(s, ts, slots, if addressable then Compiled else Reflective(false), depth + 1, path)
    case _ => []
  }

  /** What compiled code goes on with: a pointer is not recorded, an interface goes back to
      encodeValue. */
  function CompiledKids(s: Store, t: Typ, c: Cell, depth: nat, path: Path): seq<Node> {
    match (t, c)
    case (TIface, _) => [Typed(s, TIface, c, Reflective(true), depth, path)]
    case (TPtr(e), CPtr(r)) => if r in s then [Typed(s, e, s[r], Compiled, depth, path)] else []
    case (TSlice(e), CSlice(r)) =>
      if r in s && s[r].CList? then Elements(s, e, s[r].items, Compiled, depth + 1, path) else []
    case (TStruct(ts), CRecord(slots)) => Slots(s, ts, slots, Compiled, depth + 1, path)
    case _ => []
  }

  function Elements(s: Store, t: Typ, items: seq<Cell>, mode: Mode, depth: nat, path: Path): seq<Node> {
    if items == [] then []
    else [Typed(s, t, items[0], mode, depth, path)] + Elements(s, t, items[1..], mode, depth, path)
  }

  function Slots(s: Store, ts: seq<Typ>, slots: seq<Slot>, mode: Mode, depth: nat, path: Path): seq<Node> {
    if ts == [] || slots == [] then (if ts == [] && slots == [] then [] else [Wrong])
    else [Typed(s, ts[0], slots[0].cell, mode, depth, path)] + Slots(s, ts[1..], slots[1..], mode, depth, path)
  }

  // ----- routes -----

  /** Where a route leads: at every node it names the part to go on with. None leads past an event. */
  function Walk(n: Node, route: seq<nat>): Option<Node>
    decreases route
  {
    if route == [] then Some(n)
    else if Event(n).Some? || route[0] >= |Kids(n)| then None
    else Walk(Kids(n)[route[0]], route[1..])
  }

  /** The limit a route needs: the most levels any node on it asks for. */
  function Levels(n: Node, route: seq<nat>): nat
    decreases route
  {
    if route == [] || Event(n).Some? || route[0] >= |Kids(n)| then Need(n)
    else Max(Need(n), Levels(Kids(n)[route[0]], route[1..]))
  }

  /** What is wrong with a route: it needs more levels than the limit, or it ends at an event. */
  function Fault(n: Node, route: seq<nat>, max: int): Option<Error> {
    match Walk(n, route)
    case None => None
    case Some(end) => if Levels(n, route) > Room(0, max) then Some(TooDeep) else Event(end)
  }

  /** Branches off to the left of the other route. */
  predicate Left(a: seq<nat>, b: seq<nat>)
    decreases a
  {
    a != [] && b != [] && (a[0] < b[0] || (a[0] == b[0] && Left(a[1..], b[1..])))
  }

  /** Everything to the left of a route is in order: what comes before it is encoded. */
  ghost predicate Clear(n: Node, route: seq<nat>, max: int) {
    forall u | Left(u, route) :: Fault(n, u, max).None?
  }

  /** The route ends with this error, and nothing before it or above it stops the encoding. */
  ghost predicate Reached(n: Node, route: seq<nat>, max: int, e: Error) {
    Fault(n, route, max) == Some(e) && Clear(n, route, max)
  }

  // ----- what the encoders decide, one node at a time -----

  function ErrorOf<T>(r: Result<T>): Option<Error> {
    match r
    case Ok(_) => None
    case Err(e) => Some(e)
  }

  /** The error the encoder in charge stops with. */
  function Outcome(n: Node, max: int): Option<Error> {
    match n
    case Plain(h, v, depth, path) => ErrorOf(Encode(h, v, depth, path, max))
    case Typed(s, t, c, Reflective(addressable), depth, path) =>
      ErrorOf(Reflect(s, t, c, addressable, depth, path, max))
    case Typed(s, t, c, Compiled, depth, path) => ErrorOf(Run(s, t, c, depth, path, max))
    case Wrong => Some(BadType)
  }

  function FirstOf(kids: seq<Node>, max: int): Option<Error> {
    if kids == [] then None
    else
      match Outcome(kids[0], max)
      case Some(e) => Some(e)
      case None => FirstOf(kids[1..], max)
  }

  function Stop(n: Node, max: int): Option<Error> {
    if Need(n) > Room(0, max) then Some(TooDeep) else Event(n)
  }

  lemma {:induction false} ItemsLaw(h: Heap, items: seq<Val>, depth: nat, path: Path, max: int)
    ensures ErrorOf(EncodeItems(h, items, depth, path, max)) == FirstOf(Items(h, items, depth, path), max)
    decreases items
  {
    if items != [] {
      ItemsLaw(h, items[1..], depth, path, max);
    }
  }

  lemma {:induction false} MembersLaw(h: Heap, members: seq<Member>, depth: nat, path: Path, max: int)
    ensures ErrorOf(EncodeMembers(h, members, depth, path, max)) == FirstOf(Members(h, members, depth, path), max)
    decreases members
  {
    if members != [] {
      MembersLaw(h, members[1..], depth, path, max);
    }
  }

  lemma {:induction false} ElementsLaw(s: Store, t: Typ, items: seq<Cell>, depth: nat, path: Path, max: int)
    ensures ErrorOf(ReflectItems(s, t, items, depth, path, max))
         == FirstOf(Elements(s, t, items, Reflective(true), depth, path), max)
    ensures ErrorOf(RunItems(s, t, items, depth, path, max))
         == FirstOf(Elements(s, t, items, Compiled, depth, path), max)
    decreases items
  {
    if items != [] {
      ElementsLaw(s, t, items[1..], depth, path, max);
    }
  }

  lemma {:induction false} SlotsLaw(s: Store, ts: seq<Typ>, slots: seq<Slot>, depth: nat, path: Path, max: int)
    ensures ErrorOf(ReflectSlots(s, ts, slots, depth, path, max))
         == FirstOf(Slots(s, ts, slots, Reflective(false), depth, path), max)
    ensures ErrorOf(RunSlots(s, ts, slots, depth, path, max))
         == FirstOf(Slots(s, ts, slots, Compiled, depth, path), max)
    decreases slots
  {
    if ts != [] && slots != [] {
      SlotsLaw(s, ts[1..], slots[1..], depth, path, max);
    }
  }

  /** At every node the encoder in charge first looks at the node, and then at its parts in order. */
  lemma Law(n: Node, max: int)
    ensures Outcome(n, max) == if Stop(n, max).Some? then Stop(n, max) else FirstOf(Kids(n), max)
  {
    match n
    case Plain(h, v, depth, path) => PlainLaw(h, v, depth, path, max);
    case Typed(s, t, c, Reflective(addressable), depth, path) => ReflectiveLaw(s, t, c, addressable, depth, path, max);
    case Typed(s, t, c, Compiled, depth, path) => CompiledLaw(s, t, c, depth, path, max);
    case Wrong =>
  }

  lemma PlainLaw(h: Heap, v: Val, depth: nat, path: Path, max: int)
    ensures var n := Plain(h, v, depth, path);
            Outcome(n, max) == if Stop(n, max).Some? then Stop(n, max) else FirstOf(Kids(n), max)
  {
    hide Clash;
    match v
    case Alias(r) =>
      if r in h && h[r].Arr? {
        ItemsLaw(h, h[r].items, depth + 1, path, max);
      } else if r in h && h[r].Obj? {
        MembersLaw(h, h[r].members, depth + 1, path, max);
      }
    case Arr(items) => ItemsLaw(h, items, depth + 1, path, max);
    case Obj(members) => MembersLaw(h, members, depth + 1, path, max);
    case _ =>
  }

  lemma ReflectiveLaw(s: Store, t: Typ, c: Cell, addressable: bool, depth: nat, path: Path, max: int)
    ensures var n := Typed(s, t, c, Reflective(addressable), depth, path);
            Outcome(n, max) == if Stop(n, max).Some? then Stop(n, max) else FirstOf(Kids(n), max)
  {
    hide Clash;
    if depth < max && !(t.TIface? && (c.CNil? || c.CBox?)) {
      assert Reflect(s, t, c, addressable, depth, path, max) == Concrete(s, t, c, addressable, depth, path, max);
    }
    match (t, c)
    case (TSlice(e), CSlice(r)) =>
      if r in s && s[r].CList? {
        ElementsLaw(s, e, s[r].items, depth + 1, path, max);
      }
    case (TStruct(ts), CRecord(slots)) => SlotsLaw(s, ts, slots, depth + 1, path, max);
    case (TIface, CBox(dt, inner)) =>
      OneKid(if dt.TIface? then Wrong else Typed(s, dt, inner, Reflective(false), depth, path), max);
      if depth < max {
        assert Concrete(s, dt, inner, false, depth, path, max)
            == if dt.TIface? then Err(BadType) else Reflect(s, dt, inner, false, depth, path, max);
      }
    case (TPtr(e), CPtr(r)) =>
      if r in s && !Clash(path, r.addr) {
        OneKid(Typed(s, e, s[r], Reflective(true), depth, path + [r.addr]), max);
      }
    case (TIface, _) =>
    case (TScalar, _) =>
    case (TPtr(_), _) =>
    case (TSlice(_), _) =>
    case (TStruct(_), _) =>
  }

  lemma CompiledLaw(s: Store, t: Typ, c: Cell, depth: nat, path: Path, max: int)
    ensures var n := Typed(s, t, c, Compiled, depth, path);
            Outcome(n, max) == if Stop(n, max).Some? then Stop(n, max) else FirstOf(Kids(n), max)
  {
    match (t, c)
    case (TSlice(e), CSlice(r)) =>
      if r in s && s[r].CList? {
        ElementsLaw(s, e, s[r].items, depth + 1, path, max);
      }
    case (TStruct(ts), CRecord(slots)) => SlotsLaw(s, ts, slots, depth + 1, path, max);
    case (TIface, _) => OneKid(Typed(s, TIface, c, Reflective(true), depth, path), max);
    case (TPtr(e), CPtr(r)) =>
      if r in s {
        OneKid(Typed(s, e, s[r], Compiled, depth, path), max);
      }
    case (TScalar, _) =>
    case (TPtr(_), _) =>
    case (TSlice(_), _) =>
    case (TStruct(_), _) =>
  }

  lemma OneKid(n: Node, max: int)
    ensures FirstOf([n], max) == Outcome(n, max)
  {
    assert FirstOf([], max) == None;
  }

  // ----- the descent ends -----

  function Spare(n: Node, max: int): nat {
    match n
    case Wrong => 0
    case _ => Room(n.depth, max)
  }

  function Open(n: Node): nat {
    match n
    case Plain(h, _, _, path) => Free(h, path)
    case Typed(s, _, _, _, _, path) => Free(EraseStore(s), path)
    case Wrong => 0
  }

  /** Interfaces around a value. */
  function Wraps(v: Val): nat {
    if v.Iface? then 1 + Wraps(v.inner) else 0
  }

  /** Pointers before the next container, by type. */
  function Links(t: Typ): nat {
    if t.TPtr? then 1 + Links(t.elem) else 0
  }

  function Nested(n: Node): nat {
    match n
    case Plain(_, v, _, _) => Wraps(v)
    case Typed(_, t, _, mode, _, _) => if mode.Compiled? then 2 + Links(t) else if t.TIface? then 1 else 0
    case Wrong => 0
  }

  predicate Shrinks(n: Node, k: Node, max: int) {
    Spare(k, max) < Spare(n, max)
    || (Spare(k, max) == Spare(n, max)
        && (Open(k) < Open(n) || (Open(k) == Open(n) && Nested(k) < Nested(n))))
  }

  /** A part is encoded with less room, or in the same room with fewer pointers left to enter, or
      it is nearer to the next container. */
  lemma KidShrinks(n: Node, i: nat, max: int)
    requires Stop(n, max).None? && i < |Kids(n)| && !Kids(n)[i].Wrong?
    ensures Shrinks(n, Kids(n)[i], max)
  {
    match n
    case Plain(h, v, depth, path) => PlainShrinks(h, v, depth, path, i, max);
    case Typed(s, t, c, mode, depth, path) => TypedShrinks(s, t, c, mode, depth, path, i, max);
  }

  lemma PlainShrinks(h: Heap, v: Val, depth: nat, path: Path, i: nat, max: int)
    requires var n := Plain(h, v, depth, path); Stop(n, max).None? && i < |Kids(n)| && !Kids(n)[i].Wrong?
    ensures Shrinks(Plain(h, v, depth, path), Kids(Plain(h, v, depth, path))[i], max)
  {
    hide Free, Clash;
    match v
    case Ptr(r) => FreeShrinks(h, path, r);
    case Alias(r) =>
      if r in h && h[r].Arr? {
        ItemsAt(h, h[r].items, depth + 1, path, i);
      } else if r in h && h[r].Obj? {
        MembersAt(h, h[r].members, depth + 1, path, i);
      }
    case Arr(items) => ItemsAt(h, items, depth + 1, path, i);
    case Obj(members) => MembersAt(h, members, depth + 1, path, i);
    case _ =>
  }

  lemma TypedShrinks(s: Store, t: Typ, c: Cell, mode: Mode, depth: nat, path: Path, i: nat, max: int)
    requires var n := Typed(s, t, c, mode, depth, path); Stop(n, max).None? && i < |Kids(n)| && !Kids(n)[i].Wrong?
    ensures Shrinks(Typed(s, t, c, mode, depth, path), Kids(Typed(s, t, c, mode, depth, path))[i], max)
  {
    hide Free, Clash;
    match (t, c)
    case (TPtr(e), CPtr(r)) =>
      if mode.Reflective? {
        FreeShrinks(EraseStore(s), path, r);
      }
    case (TSlice(e), CSlice(r)) =>
      if r in s && s[r].CList? {
        ElementsAt(s, e, s[r].items, if mode.Compiled? then mode else Reflective(true), depth + 1, path, i);
      }
    case (TStruct(ts), CRecord(slots)) =>
      SlotsAt(s, ts, slots, if mode == Reflective(true) then Compiled else mode, depth + 1, path, i);
    case _ =>
  }

  lemma {:induction false} ItemsAt(h: Heap, items: seq<Val>, depth: nat, path: Path, i: nat)
    requires i < |Items(h, items, depth, path)|
    ensures i < |items| && Items(h, items, depth, path)[i] == Plain(h, items[i], depth, path)
  {
    if i > 0 {
      ItemsAt(h, items[1..], depth, path, i - 1);
    }
  }

  lemma {:induction false} MembersAt(h: Heap, members: seq<Member>, depth: nat, path: Path, i: nat)
    requires i < |Members(h, members, depth, path)|
    ensures i < |members|
    ensures Members(h, members, depth, path)[i]
         == if members[i].key.OtherKey? then Wrong else Plain(h, members[i].value, depth, path)
  {
    if i > 0 {
      MembersAt(h, members[1..], depth, path, i - 1);
    }
  }

  lemma {:induction false} ElementsAt(s: Store, t: Typ, items: seq<Cell>, mode: Mode, depth: nat, path: Path, i: nat)
    requires i < |Elements(s, t, items, mode, depth, path)|
    ensures i < |items| && Elements(s, t, items, mode, depth, path)[i] == Typed(s, t, items[i], mode, depth, path)
  {
    if i > 0 {
      ElementsAt(s, t, items[1..], mode, depth, path, i - 1);
    }
  }

  lemma {:induction false} SlotsAt(s: Store, ts: seq<Typ>, slots: seq<Slot>, mode: Mode, depth: nat, path: Path, i: nat)
    requires i < |Slots(s, ts, slots, mode, depth, path)|
    ensures var k := Slots(s, ts, slots, mode, depth, path)[i];
            k.Wrong? || (i < |ts| && i < |slots| && k == Typed(s, ts[i], slots[i].cell, mode, depth, path))
  {
    if i > 0 {
      SlotsAt(s, ts[1..], slots[1..], mode, depth, path, i - 1);
    }
  }

  // ----- the first fault decides -----

  /** A route through a node is judged at the node first, and then like its rest. */
  lemma FaultStep(n: Node, i: nat, rest: seq<nat>, max: int)
    ensures Fault(n, [], max) == Stop(n, max)
    ensures Stop(n, max).Some? ==> Fault(n, [i] + rest, max).None? || Fault(n, [i] + rest, max) == Stop(n, max)
    ensures Stop(n, max).None? ==>
              Fault(n, [i] + rest, max) == if i < |Kids(n)| then Fault(Kids(n)[i], rest, max) else None
  {
    hide Need, Event, Kids;
    var route := [i] + rest;
    assert route[0] == i && route[1..] == rest;
  }

  lemma Split(route: seq<nat>)
    requires route != []
    ensures route == [route[0]] + route[1..]
  {
  }

  lemma {:induction false} FirstIs(kids: seq<Node>, max: int) returns (i: nat)
    ensures i <= |kids| && forall j | 0 <= j < i :: Outcome(kids[j], max).None?
    ensures if i == |kids| then FirstOf(kids, max).None?
            else Outcome(kids[i], max).Some? && FirstOf(kids, max) == Outcome(kids[i], max)
    decreases kids
  {
    hide Outcome;
    i := 0;
    if kids != [] && Outcome(kids[0], max).None? {
      i := FirstIs(kids[1..], max);
      forall j | 0 <= j < i + 1
        ensures Outcome(kids[j], max).None?
      {
        if j > 0 {
          assert kids[1..][j - 1] == kids[j];
        }
      }
      i := i + 1;
    }
  }

  /** When a value is encoded, no route into it is at fault. */
  lemma {:induction false} SuccessHasNoFault(n: Node, route: seq<nat>, max: int)
    requires Outcome(n, max).None?
    ensures Fault(n, route, max).None?
    decreases route
  {
    hide Outcome, Fault, Stop, Kids;
    Law(n, max);
    if route == [] {
      FaultStep(n, 0, [], max);
    } else {
      Split(route);
      FaultStep(n, route[0], route[1..], max);
      var i := FirstIs(Kids(n), max);
      if route[0] < |Kids(n)| {
        SuccessHasNoFault(Kids(n)[route[0]], route[1..], max);
      }
    }
  }

  lemma {:induction false} FirstFault(n: Node, max: int) returns (route: seq<nat>)
    requires Outcome(n, max).Some?
    ensures Reached(n, route, max, Outcome(n, max).value)
    decreases Spare(n, max), Open(n), Nested(n)
  {
    hide Outcome, Fault, Stop, Kids, Spare, Open, Nested;
    Law(n, max);
    FaultStep(n, 0, [], max);
    route := [];
    if Stop(n, max).None? {
      var i := FirstIs(Kids(n), max);
      var k := Kids(n)[i];
      var rest := [];
      if k.Wrong? {
        WrongStops(max);
      } else {
        KidShrinks(n, i, max);
        rest := FirstFault(k, max);
      }
      FaultStep(n, i, rest, max);
      route := [i] + rest;
      forall u | Left(u, route)
        ensures Fault(n, u, max).None?
      {
        Split(u);
        FaultStep(n, u[0], u[1..], max);
        assert route[1..] == rest;
        if u[0] < i {
          SuccessHasNoFault(Kids(n)[u[0]], u[1..], max);
        }
      }
    }
  }

  lemma WrongStops(max: int)
    ensures Fault(Wrong, [], max) == Outcome(Wrong, max)
    ensures Clear(Wrong, [], max)
  {
  }

  /** Two routes at fault, neither left of the other, are at fault for the same reason. */
  lemma {:induction false} SameFault(n: Node, a: seq<nat>, b: seq<nat>, max: int)
    requires Fault(n, a, max).Some? && Fault(n, b, max).Some? && !Left(a, b) && !Left(b, a)
    ensures Fault(n, a, max) == Fault(n, b, max)
    decreases a
  {
    hide Fault, Stop, Kids;
    if a != [] {
      Split(a);
      FaultStep(n, a[0], a[1..], max);
    } else {
      FaultStep(n, 0, [], max);
    }
    if b != [] {
      Split(b);
      FaultStep(n, b[0], b[1..], max);
    }
    if a != [] && b != [] && Stop(n, max).None? {
      SameFault(Kids(n)[a[0]], a[1..], b[1..], max);
    }
  }

  /** The encoder stops with an error exactly when some route meets it, and everything above and
      to the left of it is in order. */
  lemma StopsIff(n: Node, max: int, e: Error)
    ensures Outcome(n, max) == Some(e) <==> exists route :: Reached(n, route, max, e)
  {
    hide Outcome, Fault;
    if Outcome(n, max) == Some(e) {
      var route := FirstFault(n, max);
    }
    if route :| Reached(n, route, max, e) {
      if Outcome(n, max).None? {
        SuccessHasNoFault(n, route, max);
      }
      var first := FirstFault(n, max);
      SameFault(n, route, first, max);
    }
  }

  /** It succeeds exactly when no route is at fault. */
  lemma SucceedsIff(n: Node, max: int)
    ensures Outcome(n, max).None? <==> forall route :: Fault(n, route, max).None?
  {
    hide Outcome, Fault;
    if Outcome(n, max).None? {
      forall route
        ensures Fault(n, route, max).None?
      {
        SuccessHasNoFault(n, route, max);
      }
    } else {
      var route := FirstFault(n, max);
    }
  }

  /** Every part to the left of the route is encoded. */
  predicate LeftEncoded(n: Node, route: seq<nat>, max: int)
    decreases route
  {
    route != [] && route[0] < |Kids(n)| ==>
      && (forall j | 0 <= j < route[0] :: Outcome(Kids(n)[j], max).None?)
      && LeftEncoded(Kids(n)[route[0]], route[1..], max)
  }

  /** Nothing to the left of a route that fits the limit is at fault exactly when all of it is
      encoded. */
  lemma {:induction false} ClearIff(n: Node, route: seq<nat>, max: int)
    requires Walk(n, route).Some? && Levels(n, route) <= Room(0, max)
    ensures Clear(n, route, max) <==> LeftEncoded(n, route, max)
    decreases route
  {
    hide Need, Event, Kids, Outcome, Fault;
    if route != [] {
      var i, rest := route[0], route[1..];
      FitsAbove(n, route, max);
      ClearIff(Kids(n)[i], rest, max);
      if Clear(n, route, max) {
        forall j: nat | j < i
          ensures Outcome(Kids(n)[j], max).None?
        {
          ClearKid(n, route, j, max);
        }
        forall u | Left(u, rest)
          ensures Fault(Kids(n)[i], u, max).None?
        {
          FaultStep(n, i, u, max);
          assert ([i] + u)[1..] == u && Left([i] + u, route);
        }
      }
      if LeftEncoded(n, route, max) {
        forall u | Left(u, route)
          ensures Fault(n, u, max).None?
        {
          Split(u);
          FaultStep(n, u[0], u[1..], max);
          if u[0] < i {
            SuccessHasNoFault(Kids(n)[u[0]], u[1..], max);
          }
        }
      }
    }
  }

  lemma FitsAbove(n: Node, route: seq<nat>, max: int)
    requires Walk(n, route).Some? && Levels(n, route) <= Room(0, max) && route != []
    ensures Stop(n, max).None? && route[0] < |Kids(n)|
    ensures Levels(Kids(n)[route[0]], route[1..]) <= Room(0, max)
  {
    hide Need, Event, Kids;
  }

  lemma ClearKid(n: Node, route: seq<nat>, j: nat, max: int)
    requires Clear(n, route, max) && Stop(n, max).None? && route != [] && j < route[0] < |Kids(n)|
    ensures Outcome(Kids(n)[j], max).None?
  {
    hide Need, Event, Kids, Outcome, Fault;
    forall u
      ensures Fault(Kids(n)[j], u, max).None?
    {
      FaultStep(n, j, u, max);
      assert Left([j] + u, route);
    }
    SucceedsIff(Kids(n)[j], max);
  }

  /** The route ends at an event, whatever the limit. */
  predicate Ends(n: Node, route: seq<nat>, e: Error) {
    match Walk(n, route)
    case None => false
    case Some(end) => Event(end) == Some(e)
  }

  /** By reflection alone a cycle is reported exactly when some descent ends at a pointer that
      clashes with the ones crossed, fits the limit, and has only encodable values to its left. */
  lemma CycleReportedIff(h: Heap, v: Val, max: int, addr: int)
    ensures Encode(h, v, 0, [], max) == Err(Cycle(addr))
       <==> exists route :: var n := Plain(h, v, 0, []);
              Ends(n, route, Cycle(addr)) && Levels(n, route) <= max && LeftEncoded(n, route, max)
  {
    var n := Plain(h, v, 0, []);
    StopsIff(n, max, Cycle(addr));
    CycleRoute(n, max, addr);
  }

  /** The same where compiled code and the detector take turns: only pointers that reflection has
      recorded can clash. */
  lemma MixedCycleReportedIff(s: Store, t: Typ, c: Cell, addressable: bool, max: int, addr: int)
    ensures Reflect(s, t, c, addressable, 0, [], max) == Err(Cycle(addr))
       <==> exists route :: var n := Typed(s, t, c, Reflective(addressable), 0, []);
              Ends(n, route, Cycle(addr)) && Levels(n, route) <= max && LeftEncoded(n, route, max)
  {
    var n := Typed(s, t, c, Reflective(addressable), 0, []);
    StopsIff(n, max, Cycle(addr));
    CycleRoute(n, max, addr);
  }

  lemma CycleRoute(n: Node, max: int, addr: int)
    requires Need(n) > 0
    ensures (exists route :: Reached(n, route, max, Cycle(addr)))
       <==> exists route :: Ends(n, route, Cycle(addr)) && Levels(n, route) <= max && LeftEncoded(n, route, max)
  {
    hide Clear, LeftEncoded;
    if route :| Reached(n, route, max, Cycle(addr)) {
      ClearIff(n, route, max);
      assert Ends(n, route, Cycle(addr)) && Levels(n, route) <= max;
    }
    if route :| Ends(n, route, Cycle(addr)) && Levels(n, route) <= max && LeftEncoded(n, route, max) {
      ClearIff(n, route, max);
      assert Reached(n, route, max, Cycle(addr));
    }
  }

  // ----- growing the limit -----

  /** A larger limit changes nothing but TooDeep: every other result is final. */
  lemma LargerLimit(n: Node, max: int, more: int)
    requires max <= more && Outcome(n, max) != Some(TooDeep)
    ensures Outcome(n, more) == Outcome(n, max)
  {
    hide Outcome, Walk, Levels, Event;
    if Outcome(n, max).None? {
      SucceedsIff(n, max);
      forall route
        ensures Fault(n, route, more).None?
      {
        assert Fault(n, route, max).None?;
      }
      SucceedsIff(n, more);
    } else {
      var e := Outcome(n, max).value;
      StopsIff(n, max, e);
      var route :| Reached(n, route, max, e);
      assert Reached(n, route, more, e);
      StopsIff(n, more, e);
    }
  }

  /** The encoder stops with this error from some limit on. */
  ghost predicate StopsFrom(n: Node, least: int, e: Error) {
    forall max: int | least <= max :: Outcome(n, max) == Some(e)
  }

  ghost predicate AlwaysTooDeep(n: Node) {
    forall max: int :: Outcome(n, max) == Some(TooDeep)
  }

  /** An error other than TooDeep is what is reported from some limit on exactly when, under some
      limit, a route meets it first. */
  lemma SettlesIff(n: Node, e: Error)
    requires e != TooDeep
    ensures (exists least: int :: StopsFrom(n, least, e)) <==> exists route, max: int :: Reached(n, route, max, e)
  {
    hide Outcome, Reached;
    if least: int :| StopsFrom(n, least, e) {
      assert Outcome(n, least) == Some(e);
      StopsIff(n, least, e);
    }
    if route, max: int :| Reached(n, route, max, e) {
      StopsIff(n, max, e);
      ReachedFrom(n, max, e);
    }
  }

  /** A value that is never encoded is either refused as TooDeep under every limit, exactly when
      no route meets another error first, or from some limit on for one and the same reason. */
  lemma Settled(n: Node)
    requires forall max: int :: Outcome(n, max).Some?
    ensures AlwaysTooDeep(n) <==> forall route, max: int, e :: Reached(n, route, max, e) ==> e == TooDeep
    ensures AlwaysTooDeep(n) || exists least: int, e :: e != TooDeep && StopsFrom(n, least, e)
  {
    hide Outcome, Reached;
    if max: int :| Outcome(n, max) != Some(TooDeep) {
      var e := Outcome(n, max).value;
      StopsIff(n, max, e);
      ReachedFrom(n, max, e);
      var route :| Reached(n, route, max, e);
    } else {
      forall route, max: int, e | Reached(n, route, max, e)
        ensures e == TooDeep
      {
        StopsIff(n, max, e);
      }
    }
  }

  lemma ReachedFrom(n: Node, max: int, e: Error)
    ensures Outcome(n, max) == Some(e) && e != TooDeep ==> StopsFrom(n, max, e)
  {
    hide Outcome;
    if Outcome(n, max) == Some(e) && e != TooDeep {
      forall more: int | max <= more
        ensures Outcome(n, more) == Some(e)
      {
        LargerLimit(n, max, more);
      }
    }
  }

  // ----- values without a finite unfolding -----

  /** What happens to a value without a finite unfolding by reflection alone: it is TooDeep under
      every limit, exactly when no descent meets another error first, or refused with one error from
      some limit on. That is a cycle error at an address exactly when, under some limit, a descent
      ends at a pointer that clashes with it and everything to its left is encoded. */
  lemma CyclicFate(h: Heap, v: Val, addr: int)
    requires forall k: nat :: Unfold(h, v, k).None?
    ensures var n := Plain(h, v, 0, []);
            && (AlwaysTooDeep(n) <==> forall route, max: int, e :: Reached(n, route, max, e) ==> e == TooDeep)
            && (AlwaysTooDeep(n) || exists least: int, e :: e != TooDeep && StopsFrom(n, least, e))
            && ((exists least: int :: StopsFrom(n, least, Cycle(addr)))
                <==> exists route, max: int ::
                       Ends(n, route, Cycle(addr)) && Levels(n, route) <= max && LeftEncoded(n, route, max))
  {
    hide Reached, Encode, StopsFrom, AlwaysTooDeep;
    var n := Plain(h, v, 0, []);
    forall max: int
      ensures Outcome(n, max).Some?
    {
      if Encode(h, v, 0, [], max).Ok? {
        SuccessIsAcyclic(h, v, 0, [], max);
      }
    }
    Settled(n);
    CycleFrom(n, addr);
  }

  /** The same for the mixture. */
  lemma MixedCyclicFate(s: Store, t: Typ, c: Cell, addressable: bool, addr: int)
    requires forall k: nat :: Unfold(EraseStore(s), Erase(c), k).None?
    ensures var n := Typed(s, t, c, Reflective(addressable), 0, []);
            && (AlwaysTooDeep(n) <==> forall route, max: int, e :: Reached(n, route, max, e) ==> e == TooDeep)
            && (AlwaysTooDeep(n) || exists least: int, e :: e != TooDeep && StopsFrom(n, least, e))
            && ((exists least: int :: StopsFrom(n, least, Cycle(addr)))
                <==> exists route, max: int ::
                       Ends(n, route, Cycle(addr)) && Levels(n, route) <= max && LeftEncoded(n, route, max))
  {
    hide Reached, Reflect, StopsFrom, AlwaysTooDeep;
    var n := Typed(s, t, c, Reflective(addressable), 0, []);
    forall max: int
      ensures Outcome(n, max).Some?
    {
      if Reflect(s, t, c, addressable, 0, [], max).Ok? {
        MixedSuccessIsAcyclic(s, t, c, addressable, max);
      }
    }
    Settled(n);
    CycleFrom(n, addr);
  }

  lemma CycleFrom(n: Node, addr: int)
    requires Need(n) > 0
    ensures (exists least: int :: StopsFrom(n, least, Cycle(addr)))
       <==> exists route, max: int ::
              Ends(n, route, Cycle(addr)) && Levels(n, route) <= max && LeftEncoded(n, route, max)
  {
    hide StopsFrom, Reached, Ends, Levels, LeftEncoded;
    SettlesIff(n, Cycle(addr));
    if route, max: int :| Reached(n, route, max, Cycle(addr)) {
      CycleRoute(n, max, addr);
    }
    if route, max: int :| Ends(n, route, Cycle(addr)) && Levels(n, route) <= max && LeftEncoded(n, route, max) {
      CycleRoute(n, max, addr);
    }
  }

  /** A slice that holds itself is never reported as a cycle: no pointer is on it. */
  lemma {:induction false} SliceInItself(r: Ref, depth: nat, path: Path, max: int)
    ensures Encode(map[r := Arr([Iface(Alias(r))])], Alias(r), depth, path, max) == Err(TooDeep)
    decreases Room(depth, max)
  {
    if depth < max {
      var h, items := map[r := Arr([Iface(Alias(r))])], [Iface(Alias(r))];
      SliceInItself(r, depth + 1, path, max);
      assert Encode(h, items[0], depth + 1, path, max) == Err(TooDeep);
      assert EncodeItems(h, items, depth + 1, path, max) == Err(TooDeep);
    }
  }

  /** On acyclic memory without two references at one address, the mixture succeeds exactly when
      every route fits the limit and no route ends at a cell that does not have its type. */
  lemma MixedExact(s: Store, t: Typ, c: Cell, addressable: bool, k: nat, max: int)
    requires OneTypePerAddress(EraseStore(s)) && Unfold(EraseStore(s), Erase(c), k).Some?
    ensures var n := Typed(s, t, c, Reflective(addressable), 0, []);
            (Reflect(s, t, c, addressable, 0, [], max) == Ok(Unfold(EraseStore(s), Erase(c), k).value)
             <==> forall route | Walk(n, route).Some? :: Levels(n, route) <= max && !Ends(n, route, BadType))
  {
    hide Unfold, OneTypePerAddress, Walk, Levels, Event, Clear;
    var n := Typed(s, t, c, Reflective(addressable), 0, []);
    MixedNoFalseAlarm(s, t, c, addressable, k, max);
    if Outcome(n, max).None? {
      forall route | Walk(n, route).Some?
        ensures Levels(n, route) <= max && !Ends(n, route, BadType)
      {
        hide Reflect;
        SuccessHasNoFault(n, route, max);
      }
    } else {
      var route := FirstFault(n, max);
      EventKind(Walk(n, route).value);
      assert Reflect(s, t, c, addressable, 0, [], max).Err?;
      assert Walk(n, route).Some? && !(Levels(n, route) <= max && !Ends(n, route, BadType));
    }
  }

  lemma EventKind(n: Node)
    ensures Event(n).Some? ==> Event(n).value.Cycle? || Event(n).value.BadType?
  {
  }

  // ----- the detector can be bypassed -----

  /** A struct with an interface that holds a slice of structs that point back to it. */
  function Outer(): Typ {
    TStruct([TIface])
  }

  function Middle(): Typ {
    TStruct([TPtr(Outer())])
  }

  function Knot(name: Text): Store {
    map[Ref(1, 0) := CRecord([Slot(name, KnotBox())]),
        Ref(2, 0) := CList([CRecord([Slot(name, CPtr(Ref(1, 0)))])])]
  }

  function KnotBox(): Cell {
    CBox(TSlice(Middle()), CSlice(Ref(2, 0)))
  }

  /** What a descent into it passes. Only the first pointer is looked at by reflection. */
  predicate KnotNode(name: Text, n: Node) {
    n.Typed? && n.s == Knot(name)
    && match n.mode
       case Compiled =>
         || (n.t, n.c) == (Outer(), CRecord([Slot(name, KnotBox())]))
         || (n.t, n.c) == (TIface, KnotBox())
         || (n.t, n.c) == (TPtr(Outer()), CPtr(Ref(1, 0)))
       case Reflective(true) =>
         || (n.t, n.c) == (Outer(), CRecord([Slot(name, KnotBox())]))
         || (n.t, n.c) == (TIface, KnotBox())
         || (n.t, n.c) == (Middle(), CRecord([Slot(name, CPtr(Ref(1, 0)))]))
       case Reflective(false) =>
         || (n.t, n.c) == (TSlice(Middle()), CSlice(Ref(2, 0)))
         || ((n.t, n.c) == (TPtr(Outer()), CPtr(Ref(1, 0))) && n.path == [])
  }

  lemma KnotStep(name: Text, n: Node)
    requires KnotNode(name, n)
    ensures Event(n).None? && |Kids(n)| == 1 && KnotNode(name, Kids(n)[0])
  {
    if n.t.TStruct? {
      var slot := n.c.slots[0];
      assert Slots(n.s, n.t.fields, n.c.slots, Compiled, n.depth + 1, n.path)
          == [Typed(n.s, n.t.fields[0], slot.cell, Compiled, n.depth + 1, n.path)];
    } else if n.t.TSlice? {
      var items := n.s[Ref(2, 0)].items;
      assert Elements(n.s, Middle(), items, Reflective(true), n.depth + 1, n.path)
          == [Typed(n.s, Middle(), items[0], Reflective(true), n.depth + 1, n.path)];
    }
  }

  lemma {:induction false} KnotNeverEnds(name: Text, n: Node, route: seq<nat>)
    requires KnotNode(name, n) && Walk(n, route).Some?
    ensures Event(Walk(n, route).value).None?
    decreases route
  {
    hide KnotNode, Event, Kids;
    KnotStep(name, n);
    if route != [] {
      KnotNeverEnds(name, Kids(n)[0], route[1..]);
    }
  }

  lemma OneSlot(name: Text, c: Cell)
    ensures EraseSlots([Slot(name, c)]) == [Member(Name(name), Erase(c))]
  {
    assert [Slot(name, c)][1..] == [];
  }

  lemma KnotErased(name: Text)
    ensures var h := EraseStore(Knot(name));
            && h[Ref(1, 0)] == Obj([Member(Name(name), Iface(Alias(Ref(2, 0))))])
            && h[Ref(2, 0)] == Arr([Obj([Member(Name(name), Ptr(Ref(1, 0)))])])
  {
    OneSlot(name, KnotBox());
    OneSlot(name, CPtr(Ref(1, 0)));
    assert EraseItems([CRecord([Slot(name, CPtr(Ref(1, 0)))])]) == [Obj([Member(Name(name), Ptr(Ref(1, 0)))])];
  }

  lemma {:induction false} KnotIsCyclic(name: Text, k: nat)
    ensures Unfold(EraseStore(Knot(name)), Ptr(Ref(1, 0)), k).None?
  {
    var h, back := EraseStore(Knot(name)), Ptr(Ref(1, 0));
    var outer, inner := Member(Name(name), Iface(Alias(Ref(2, 0)))), Member(Name(name), back);
    KnotErased(name);
    if k > 1 {
      KnotIsCyclic(name, k - 2);
      assert UnfoldMember(h, inner, k - 2).None?;
      assert UnfoldMembers(h, [inner], k - 2).None?;
      assert UnfoldItems(h, [Obj([inner])], k - 2).None?;
    }
    if k > 0 {
      assert Unfold(h, Alias(Ref(2, 0)), k - 1).None?;
      assert UnfoldMember(h, outer, k - 1).None?;
      assert UnfoldMembers(h, [outer], k - 1).None?;
    }
  }

  /** On this cycle the detector never sees a pointer twice, under any limit: no route ends, so
      only the limit ends the encoding. By reflection alone it is found as soon as the limit permits. */
  lemma DetectorIsBypassed(name: Text, max: int)
    ensures Reflect(Knot(name), TPtr(Outer()), CPtr(Ref(1, 0)), false, 0, [], max) == Err(TooDeep)
    ensures max > 3 ==> Encode(EraseStore(Knot(name)), Erase(CPtr(Ref(1, 0))), 0, [], max) == Err(Cycle(1))
  {
    hide Reflect, KnotNode;
    var n := Typed(Knot(name), TPtr(Outer()), CPtr(Ref(1, 0)), Reflective(false), 0, []);
    forall k: nat
      ensures Unfold(EraseStore(Knot(name)), Erase(n.c), k).None?
    {
      KnotIsCyclic(name, k);
    }
    MixedCyclicFate(n.s, n.t, n.c, false, 1);
    forall route, most: int, e | Reached(n, route, most, e)
      ensures e == TooDeep
    {
      KnotRoot(name);
      KnotNeverEnds(name, n, route);
    }
    assert Outcome(n, max) == Some(TooDeep);
    if max > 3 {
      KnotIsSeen(name, max);
    }
  }

  lemma KnotRoot(name: Text)
    ensures KnotNode(name, Typed(Knot(name), TPtr(Outer()), CPtr(Ref(1, 0)), Reflective(false), 0, []))
  {
  }

  lemma {:induction false} KnotIsSeen(name: Text, max: int)
    requires max > 3
    ensures Encode(EraseStore(Knot(name)), Ptr(Ref(1, 0)), 0, [], max) == Err(Cycle(1))
  {
    var h, back := EraseStore(Knot(name)), Ptr(Ref(1, 0));
    var outer := [Member(Name(name), Iface(Alias(Ref(2, 0))))];
    var inner := [Member(Name(name), back)];
    KnotErased(name);
    assert [] + [1] == [1];
    assert Encode(h, back, 3, [1], max) == Err(Cycle(1));
    assert EncodeMember(h, inner[0], 3, [1], max) == Err(Cycle(1));
    assert EncodeMembers(h, inner, 3, [1], max) == Err(Cycle(1));
    assert Encode(h, Obj(inner), 2, [1], max) == Err(Cycle(1));
    assert EncodeItems(h, [Obj(inner)], 2, [1], max) == Err(Cycle(1));
    assert Encode(h, Alias(Ref(2, 0)), 1, [1], max) == Err(Cycle(1));
    assert EncodeMember(h, outer[0], 1, [1], max) == Err(Cycle(1));
    assert EncodeMembers(h, outer, 1, [1], max) == Err(Cycle(1));
    assert Encode(h, Obj(outer), 0, [1], max) == Err(Cycle(1));
  }
}
