/** Values on which compiled code and the cycle detector take turns: an interface leads compiled
    code back to encodeValue. Field options are left out. */
module Mixture {
  import opened Bytes
  import opened Values
  import opened Reflection
  import opened Cycles

  datatype Typ = TScalar | TIface | TPtr(elem: Typ) | TSlice(elem: Typ) | TStruct(fields: seq<Typ>)

  /** Memory. An interface holds a value with its type; the elements of a slice lie behind its
      reference. A reference that is not in the store is nil. */
  datatype Cell =
    | CText(text: Text)
    | CNil
    | CBox(typ: Typ, inner: Cell)
    | CPtr(r: Ref)
    | CSlice(r: Ref)
    | CList(items: seq<Cell>)
    | CRecord(slots: seq<Slot>)

  datatype Slot = Slot(name: Text, cell: Cell)

  type Store = map<Ref, Cell>

  /** The value without its types: what the reflective encoder sees. */
  function Erase(c: Cell): Val
    decreases c, 1
  {
    match c
    case CText(t) => Num(t)
    case CNil => Null
    case CBox(_, inner) => Iface(Erase(inner))
    case CPtr(r) => Ptr(r)
    case CSlice(r) => Alias(r)
    case CList(items) => Arr(EraseItems(items))
    case CRecord(slots) => Obj(EraseSlots(slots))
  }

  function EraseItems(items: seq<Cell>): seq<Val>
    decreases items, 0
  {
    if items == [] then [] else [Erase(items[0])] + EraseItems(items[1..])
  }

  function EraseSlots(slots: seq<Slot>): seq<Member>
    decreases slots, 0
  {
    if slots == [] then [] else [EraseSlot(slots[0])] + EraseSlots(slots[1..])
  }

  function EraseSlot(s: Slot): Member
    decreases s, 2
  {
    Member(Name(s.name), Erase(s.cell))
  }

  function EraseStore(s: Store): Heap {
    map r | r in s :: Erase(s[r])
  }

  // ----- encodeValue -----

  /** encodeValue: the depth test, and the way into an interface. */
  function Reflect(s: Store, t: Typ, c: Cell, addressable: bool, depth: nat, path: Path, max: int): Result<Val>
    decreases Room(depth, max), Free(EraseStore(s), path), 1
  {
    if depth >= max then Err(TooDeep)
    else
      match (t, c)
      case (TIface, CNil) => Ok(Null)
      case (TIface, CBox(dt, inner)) => Concrete(s, dt, inner, false, depth, path, max)
      case _ => Concrete(s, t, c, addressable, depth, path, max)
  }

  /** encodeValue on a value that is no interface. A struct that has an address goes to
      encodeStructUnsafe. */
  function Concrete(s: Store, t: Typ, c: Cell, addressable: bool, depth: nat, path: Path, max: int): Result<Val>
    requires depth < max
    decreases Room(depth, max), Free(EraseStore(s), path), 0
  {
    match (t, c)
    case (TScalar, CText(text)) => Ok(Num(text))
    case (TPtr(e), CPtr(r)) =>
      if r !in s then Ok(Null)
      else if Clash(path, r.addr) then Err(Cycle(r.addr))
      else
        FreeShrinks(EraseStore(s), path, r);
        Reflect(s, e, s[r], true, depth, path + [r.addr], max)
    case (TSlice(e), CSlice(r)) =>
      if r !in s then Ok(Null)
      else if !s[r].CList? then Err(BadType)
      else AsArray(ReflectItems(s, e, s[r].items, depth + 1, path, max))
    case (TStruct(ts), CRecord(slots)) =>
      AsObject(if addressable then RunSlots(s, ts, slots, depth + 1, path, max)
               else ReflectSlots(s, ts, slots, depth + 1, path, max))
    case _ => Err(BadType)
  }

  function ReflectItems(s: Store, t: Typ, items: seq<Cell>, depth: nat, path: Path, max: int): Result<seq<Val>>
    decreases Room(depth, max), Free(EraseStore(s), path), 3, items
  {
    if items == [] then Ok([])
    else
      match Reflect(s, t, items[0], true, depth, path, max)
      case Err(e) => Err(e)
      case Ok(v) => Cons(v, ReflectItems(s, t, items[1..], depth, path, max))
  }

  function ReflectSlots(s: Store, ts: seq<Typ>, slots: seq<Slot>, depth: nat, path: Path, max: int): Result<seq<Member>>
    decreases Room(depth, max), Free(EraseStore(s), path), 3, slots
  {
    if ts == [] || slots == [] then (if ts == [] && slots == [] then Ok([]) else Err(BadType))
    else
      match Reflect(s, ts[0], slots[0].cell, false, depth, path, max)
      case Err(e) => Err(e)
      case Ok(v) => Cons(Member(Name(slots[0].name), v), ReflectSlots(s, ts[1..], slots[1..], depth, path, max))
  }

  // ----- compiled code -----

  /** A compiled encoder: pointers are followed without a test, containers test the depth inside,
      and an interface goes back to encodeValue. The detector's state is handed through. */
  function Run(s: Store, t: Typ, c: Cell, depth: nat, path: Path, max: int): Result<Val>
    decreases Room(depth, max), Free(EraseStore(s), path), 2, t
  {
    match (t, c)
    case (TScalar, CText(text)) => Ok(Num(text))
    case (TIface, _) => Reflect(s, TIface, c, true, depth, path, max)
    case (TPtr(e), CPtr(r)) => if r !in s then Ok(Null) else Run(s, e, s[r], depth, path, max)
    case (TSlice(e), CSlice(r)) =>
      if r !in s then Ok(Null)
      else if !s[r].CList? then Err(BadType)
      else if depth + 1 >= max then Err(TooDeep)
      else AsArray(RunItems(s, e, s[r].items, depth + 1, path, max))
    case (TStruct(ts), CRecord(slots)) =>
      if depth + 1 >= max then Err(TooDeep) else AsObject(RunSlots(s, ts, slots, depth + 1, path, max))
    case _ => Err(BadType)
  }

  function RunItems(s: Store, t: Typ, items: seq<Cell>, depth: nat, path: Path, max: int): Result<seq<Val>>
    decreases Room(depth, max), Free(EraseStore(s), path), 3, items
  {
    if items == [] then Ok([])
    else
      match Run(s, t, items[0], depth, path, max)
      case Err(e) => Err(e)
      case Ok(v) => Cons(v, RunItems(s, t, items[1..], depth, path, max))
  }

  function RunSlots(s: Store, ts: seq<Typ>, slots: seq<Slot>, depth: nat, path: Path, max: int): Result<seq<Member>>
    decreases Room(depth, max), Free(EraseStore(s), path), 3, slots
  {
    if ts == [] || slots == [] then (if ts == [] && slots == [] then Ok([]) else Err(BadType))
    else
      match Run(s, ts[0], slots[0].cell, depth, path, max)
      case Err(e) => Err(e)
      case Ok(v) => Cons(Member(Name(slots[0].name), v), RunSlots(s, ts[1..], slots[1..], depth, path, max))
  }

  // ----- success means a finite unfolding -----

  /** However compiled code and the detector take turns: encoding succeeds only on values whose
      reachable part is acyclic, and prints exactly their unfolding. */
  lemma {:induction false} MixedSuccessIsAcyclic(s: Store, t: Typ, c: Cell, addressable: bool, max: int)
    requires Reflect(s, t, c, addressable, 0, [], max).Ok?
    ensures exists n :: Unfold(EraseStore(s), Erase(c), n) == Some(Reflect(s, t, c, addressable, 0, [], max).value)
  {
    var n := ReflectFuel(s, t, c, addressable, 0, [], max);
  }

  lemma {:induction false} ReflectFuel(s: Store, t: Typ, c: Cell, addressable: bool, depth: nat, path: Path, max: int)
      returns (n: nat)
    requires Reflect(s, t, c, addressable, depth, path, max).Ok?
    ensures Unfold(EraseStore(s), Erase(c), n) == Some(Reflect(s, t, c, addressable, depth, path, max).value)
    decreases Room(depth, max), Free(EraseStore(s), path), 1
  {
    if t.TIface? && c.CNil? {
      n := 0;
    } else if t.TIface? && c.CBox? {
      n := ConcreteFuel(s, c.typ, c.inner, false, depth, path, max);
    } else {
      n := ConcreteFuel(s, t, c, addressable, depth, path, max);
    }
  }

  lemma {:induction false} ConcreteFuel(s: Store, t: Typ, c: Cell, addressable: bool, depth: nat, path: Path, max: int)
      returns (n: nat)
    requires depth < max && Concrete(s, t, c, addressable, depth, path, max).Ok?
    ensures Unfold(EraseStore(s), Erase(c), n) == Some(Concrete(s, t, c, addressable, depth, path, max).value)
    decreases Room(depth, max), Free(EraseStore(s), path), 0
  {
    hide Clash, Free, Overflow, Addresses;
    n := 0;
    match (t, c)
    case (TScalar, CText(_)) =>
    case (TPtr(e), CPtr(r)) =>
      if r in s {
        FreeShrinks(EraseStore(s), path, r);
        n := ReflectFuel(s, e, s[r], true, depth, path + [r.addr], max);
        n := n + 1;
      }
    case (TSlice(e), CSlice(r)) =>
      if r in s {
        n := ReflectItemsFuel(s, e, s[r].items, depth + 1, path, max);
        n := n + 1;
      }
    case (TStruct(ts), CRecord(slots)) =>
      if addressable {
        n := RunSlotsFuel(s, ts, slots, depth + 1, path, max);
      } else {
        n := ReflectSlotsFuel(s, ts, slots, depth + 1, path, max);
      }
  }

  lemma {:induction false} ReflectItemsFuel(s: Store, t: Typ, items: seq<Cell>, depth: nat, path: Path, max: int)
      returns (n: nat)
    requires ReflectItems(s, t, items, depth, path, max).Ok?
    ensures UnfoldItems(EraseStore(s), EraseItems(items), n) == Some(ReflectItems(s, t, items, depth, path, max).value)
    decreases Room(depth, max), Free(EraseStore(s), path), 3, items
  {
    n := 0;
    if items != [] {
      var a := ReflectFuel(s, t, items[0], true, depth, path, max);
      var b := ReflectItemsFuel(s, t, items[1..], depth, path, max);
      n := a + b;
      UnfoldMore(EraseStore(s), Erase(items[0]), a, n);
      UnfoldItemsMore(EraseStore(s), EraseItems(items[1..]), b, n);
    }
  }

  lemma {:induction false} ReflectSlotsFuel(s: Store, ts: seq<Typ>, slots: seq<Slot>, depth: nat, path: Path, max: int)
      returns (n: nat)
    requires ReflectSlots(s, ts, slots, depth, path, max).Ok?
    ensures UnfoldMembers(EraseStore(s), EraseSlots(slots), n)
         == Some(ReflectSlots(s, ts, slots, depth, path, max).value)
    decreases Room(depth, max), Free(EraseStore(s), path), 3, slots
  {
    n := 0;
    if slots != [] {
      var a := ReflectFuel(s, ts[0], slots[0].cell, false, depth, path, max);
      var b := ReflectSlotsFuel(s, ts[1..], slots[1..], depth, path, max);
      n := a + b;
      FirstMember(s, slots, a, b);
    }
  }

  lemma {:induction false} RunFuel(s: Store, t: Typ, c: Cell, depth: nat, path: Path, max: int) returns (n: nat)
    requires Run(s, t, c, depth, path, max).Ok?
    ensures Unfold(EraseStore(s), Erase(c), n) == Some(Run(s, t, c, depth, path, max).value)
    decreases Room(depth, max), Free(EraseStore(s), path), 2, t
  {
    n := 0;
    match (t, c)
    case (TScalar, CText(_)) =>
    case (TIface, _) => n := ReflectFuel(s, TIface, c, true, depth, path, max);
    case (TPtr(e), CPtr(r)) =>
      if r in s {
        n := RunFuel(s, e, s[r], depth, path, max);
        n := n + 1;
      }
    case (TSlice(e), CSlice(r)) =>
      if r in s {
        n := RunItemsFuel(s, e, s[r].items, depth + 1, path, max);
        n := n + 1;
      }
    case (TStruct(ts), CRecord(slots)) => n := RunSlotsFuel(s, ts, slots, depth + 1, path, max);
  }

  lemma {:induction false} RunItemsFuel(s: Store, t: Typ, items: seq<Cell>, depth: nat, path: Path, max: int)
      returns (n: nat)
    requires RunItems(s, t, items, depth, path, max).Ok?
    ensures UnfoldItems(EraseStore(s), EraseItems(items), n) == Some(RunItems(s, t, items, depth, path, max).value)
    decreases Room(depth, max), Free(EraseStore(s), path), 3, items
  {
    n := 0;
    if items != [] {
      var a := RunFuel(s, t, items[0], depth, path, max);
      var b := RunItemsFuel(s, t, items[1..], depth, path, max);
      n := a + b;
      UnfoldMore(EraseStore(s), Erase(items[0]), a, n);
      UnfoldItemsMore(EraseStore(s), EraseItems(items[1..]), b, n);
    }
  }

  lemma {:induction false} RunSlotsFuel(s: Store, ts: seq<Typ>, slots: seq<Slot>, depth: nat, path: Path, max: int)
      returns (n: nat)
    requires RunSlots(s, ts, slots, depth, path, max).Ok?
    ensures UnfoldMembers(EraseStore(s), EraseSlots(slots), n) == Some(RunSlots(s, ts, slots, depth, path, max).value)
    decreases Room(depth, max), Free(EraseStore(s), path), 3, slots
  {
    n := 0;
    if slots != [] {
      var a := RunFuel(s, ts[0], slots[0].cell, depth, path, max);
      var b := RunSlotsFuel(s, ts[1..], slots[1..], depth, path, max);
      n := a + b;
      FirstMember(s, slots, a, b);
    }
  }

  /** Fuel for the first member and for the others is together enough for all. */
  lemma FirstMember(s: Store, slots: seq<Slot>, a: nat, b: nat)
    requires slots != []
    requires Unfold(EraseStore(s), Erase(slots[0].cell), a).Some?
    requires UnfoldMembers(EraseStore(s), EraseSlots(slots[1..]), b).Some?
    ensures UnfoldMembers(EraseStore(s), EraseSlots(slots), a + b)
         == Some([Member(Name(slots[0].name), Unfold(EraseStore(s), Erase(slots[0].cell), a).value)]
                 + UnfoldMembers(EraseStore(s), EraseSlots(slots[1..]), b).value)
  {
    UnfoldMore(EraseStore(s), Erase(slots[0].cell), a, a + b);
    UnfoldMembersMore(EraseStore(s), EraseSlots(slots[1..]), b, a + b);
    assert EraseSlots(slots)[1..] == EraseSlots(slots[1..]);
  }

  // ----- no false alarm -----

  /** Shared but acyclic memory never runs into the address test when no two references share an
      address, whichever pointers compiled code has left unrecorded: if the depth suffices, what
      is printed is the unfolding. */
  lemma {:induction false} MixedNoFalseAlarm(s: Store, t: Typ, c: Cell, addressable: bool, n: nat, max: int)
    requires OneTypePerAddress(EraseStore(s)) && Unfold(EraseStore(s), Erase(c), n).Some?
    ensures var r := Reflect(s, t, c, addressable, 0, [], max);
            !CycleError(r) && (r.Ok? ==> r.value == Unfold(EraseStore(s), Erase(c), n).value)
  {
    ReflectNoAlarm(s, t, c, addressable, n, 0, [], max);
    if Reflect(s, t, c, addressable, 0, [], max).Ok? {
      var k := ReflectFuel(s, t, c, addressable, 0, [], max);
      UnfoldMore(EraseStore(s), Erase(c), n, n + k);
      UnfoldMore(EraseStore(s), Erase(c), k, n + k);
    }
  }

  lemma {:induction false} ReflectNoAlarm(s: Store, t: Typ, c: Cell, addressable: bool, n: nat, depth: nat, path: Path,
      max: int)
    requires OneTypePerAddress(EraseStore(s)) && Unfold(EraseStore(s), Erase(c), n).Some?
    requires AllAbove(EraseStore(s), path, Erase(c))
    ensures !CycleError(Reflect(s, t, c, addressable, depth, path, max))
    decreases Room(depth, max), Free(EraseStore(s), path), 1
  {
    if depth < max {
      if t.TIface? && c.CBox? {
        InsideAbove(EraseStore(s), Erase(c.inner), path);
        ConcreteNoAlarm(s, c.typ, c.inner, false, n, depth, path, max);
      } else {
        ConcreteNoAlarm(s, t, c, addressable, n, depth, path, max);
      }
    }
  }

  lemma InsideAbove(h: Heap, v: Val, path: Path)
    requires AllAbove(h, path, Iface(v))
    ensures AllAbove(h, path, v)
  {
    forall r | r in h && r.addr in path
      ensures Above(h, r, v)
    {
      assert Above(h, r, Iface(v));
      forall k: nat | Unfold(h, h[r], k).Some?
        ensures Unfold(h, v, k).Some?
      {
        assert Unfold(h, Iface(v), k).Some?;
      }
    }
  }

  /** Following a pointer without recording it. */
  lemma PassAbove(h: Heap, r: Ref, path: Path)
    requires r in h && AllAbove(h, path, Ptr(r))
    ensures AllAbove(h, path, h[r])
  {
    forall q | q in h && q.addr in path
      ensures Above(h, q, h[r])
    {
      assert Above(h, q, Ptr(r));
      forall k: nat | Unfold(h, h[q], k).Some?
        ensures Unfold(h, h[r], k).Some?
      {
        assert Unfold(h, Ptr(r), k).Some?;
        UnfoldMore(h, h[r], k - 1, k);
      }
    }
  }

  lemma {:induction false} ConcreteNoAlarm(s: Store, t: Typ, c: Cell, addressable: bool, n: nat, depth: nat,
      path: Path, max: int)
    requires depth < max && OneTypePerAddress(EraseStore(s)) && Unfold(EraseStore(s), Erase(c), n).Some?
    requires AllAbove(EraseStore(s), path, Erase(c))
    ensures !CycleError(Concrete(s, t, c, addressable, depth, path, max))
    decreases Room(depth, max), Free(EraseStore(s), path), 0
  {
    hide AllAbove, Clash, Free, OneTypePerAddress;
    var h := EraseStore(s);
    match (t, c)
    case (TPtr(e), CPtr(r)) =>
      if r in s {
        NoRepeat(h, r, n, path);
        EnterAbove(h, r, path);
        FreeShrinks(h, path, r);
        ReflectNoAlarm(s, e, s[r], true, n - 1, depth, path + [r.addr], max);
      }
    case (TSlice(e), CSlice(r)) =>
      if r in s && s[r].CList? {
        AliasAbove(h, r, path);
        ReflectItemsNoAlarm(s, e, s[r].items, n - 1, depth + 1, path, max);
      }
    case (TStruct(ts), CRecord(slots)) =>
      if addressable {
        RunSlotsNoAlarm(s, ts, slots, n, depth + 1, path, max);
      } else {
        ReflectSlotsNoAlarm(s, ts, slots, n, depth + 1, path, max);
      }
    case _ =>
  }

  lemma NoRepeat(h: Heap, r: Ref, n: nat, path: Path)
    requires r in h && AllAbove(h, path, Ptr(r)) && Unfold(h, Ptr(r), n).Some?
    ensures !Clash(path, r.addr)
  {
    var k: nat := n - 1;
    if Clash(path, r.addr) {
      ClashRepeats(path, r.addr);
      NotAboveItself(h, r, k);
    }
  }

  lemma {:induction false} ReflectItemsNoAlarm(s: Store, t: Typ, items: seq<Cell>, n: nat, depth: nat, path: Path,
      max: int)
    requires OneTypePerAddress(EraseStore(s)) && UnfoldItems(EraseStore(s), EraseItems(items), n).Some?
    requires AllAbove(EraseStore(s), path, Arr(EraseItems(items)))
    ensures !CycleError(ReflectItems(s, t, items, depth, path, max))
    decreases Room(depth, max), Free(EraseStore(s), path), 3, items
  {
    if items != [] {
      ItemsAbove(s, items, path);
      ReflectNoAlarm(s, t, items[0], true, n, depth, path, max);
      ReflectItemsNoAlarm(s, t, items[1..], n, depth, path, max);
    }
  }

  lemma {:induction false} ReflectSlotsNoAlarm(s: Store, ts: seq<Typ>, slots: seq<Slot>, n: nat, depth: nat,
      path: Path, max: int)
    requires OneTypePerAddress(EraseStore(s)) && UnfoldMembers(EraseStore(s), EraseSlots(slots), n).Some?
    requires AllAbove(EraseStore(s), path, Obj(EraseSlots(slots)))
    ensures !CycleError(ReflectSlots(s, ts, slots, depth, path, max))
    decreases Room(depth, max), Free(EraseStore(s), path), 3, slots
  {
    if ts != [] && slots != [] {
      SlotsAbove(s, slots, n, path);
      ReflectNoAlarm(s, ts[0], slots[0].cell, false, n, depth, path, max);
      ReflectSlotsNoAlarm(s, ts[1..], slots[1..], n, depth, path, max);
    }
  }

  lemma {:induction false} RunNoAlarm(s: Store, t: Typ, c: Cell, n: nat, depth: nat, path: Path, max: int)
    requires OneTypePerAddress(EraseStore(s)) && Unfold(EraseStore(s), Erase(c), n).Some?
    requires AllAbove(EraseStore(s), path, Erase(c))
    ensures !CycleError(Run(s, t, c, depth, path, max))
    decreases Room(depth, max), Free(EraseStore(s), path), 2, t
  {
    match (t, c)
    case (TIface, _) => ReflectNoAlarm(s, TIface, c, true, n, depth, path, max);
    case (TPtr(e), CPtr(r)) =>
      if r in s {
        PassAbove(EraseStore(s), r, path);
        RunNoAlarm(s, e, s[r], n - 1, depth, path, max);
      }
    case (TSlice(e), CSlice(r)) =>
      if r in s && s[r].CList? && depth + 1 < max {
        AliasAbove(EraseStore(s), r, path);
        RunItemsNoAlarm(s, e, s[r].items, n - 1, depth + 1, path, max);
      }
    case (TStruct(ts), CRecord(slots)) =>
      if depth + 1 < max {
        RunSlotsNoAlarm(s, ts, slots, n, depth + 1, path, max);
      }
    case _ =>
  }

  lemma {:induction false} RunItemsNoAlarm(s: Store, t: Typ, items: seq<Cell>, n: nat, depth: nat, path: Path, max: int)
    requires OneTypePerAddress(EraseStore(s)) && UnfoldItems(EraseStore(s), EraseItems(items), n).Some?
    requires AllAbove(EraseStore(s), path, Arr(EraseItems(items)))
    ensures !CycleError(RunItems(s, t, items, depth, path, max))
    decreases Room(depth, max), Free(EraseStore(s), path), 3, items
  {
    if items != [] {
      ItemsAbove(s, items, path);
      RunNoAlarm(s, t, items[0], n, depth, path, max);
      RunItemsNoAlarm(s, t, items[1..], n, depth, path, max);
    }
  }

  lemma {:induction false} RunSlotsNoAlarm(s: Store, ts: seq<Typ>, slots: seq<Slot>, n: nat, depth: nat, path: Path,
      max: int)
    requires OneTypePerAddress(EraseStore(s)) && UnfoldMembers(EraseStore(s), EraseSlots(slots), n).Some?
    requires AllAbove(EraseStore(s), path, Obj(EraseSlots(slots)))
    ensures !CycleError(RunSlots(s, ts, slots, depth, path, max))
    decreases Room(depth, max), Free(EraseStore(s), path), 3, slots
  {
    if ts != [] && slots != [] {
      SlotsAbove(s, slots, n, path);
      RunNoAlarm(s, ts[0], slots[0].cell, n, depth, path, max);
      RunSlotsNoAlarm(s, ts[1..], slots[1..], n, depth, path, max);
    }
  }

  /** What is above a list is above its first element and the rest. */
  lemma ItemsAbove(s: Store, items: seq<Cell>, path: Path)
    requires items != [] && AllAbove(EraseStore(s), path, Arr(EraseItems(items)))
    ensures AllAbove(EraseStore(s), path, Erase(items[0]))
    ensures AllAbove(EraseStore(s), path, Arr(EraseItems(items[1..])))
  {
    var h, all := EraseStore(s), EraseItems(items);
    assert all[0] == Erase(items[0]) && all[1..] == EraseItems(items[1..]);
    forall r | r in h && r.addr in path
      ensures Above(h, r, all[0]) && Above(h, r, Arr(all[1..]))
    {
      assert Above(h, r, Arr(all));
      forall k: nat | Unfold(h, h[r], k).Some?
        ensures Unfold(h, all[0], k).Some? && Unfold(h, Arr(all[1..]), k).Some?
      {
        assert Unfold(h, Arr(all), k).Some?;
        UnfoldParts(h, all, k);
      }
    }
  }

  lemma SlotsAbove(s: Store, slots: seq<Slot>, n: nat, path: Path)
    requires slots != [] && AllAbove(EraseStore(s), path, Obj(EraseSlots(slots)))
    requires UnfoldMembers(EraseStore(s), EraseSlots(slots), n).Some?
    ensures AllAbove(EraseStore(s), path, Erase(slots[0].cell))
    ensures AllAbove(EraseStore(s), path, Obj(EraseSlots(slots[1..])))
    ensures Unfold(EraseStore(s), Erase(slots[0].cell), n).Some?
    ensures UnfoldMembers(EraseStore(s), EraseSlots(slots[1..]), n).Some?
  {
    var h, all := EraseStore(s), EraseSlots(slots);
    assert all[0] == EraseSlot(slots[0]) && all[1..] == EraseSlots(slots[1..]);
    assert UnfoldMember(h, all[0], n).Some?;
    forall r | r in h && r.addr in path
      ensures Above(h, r, all[0].value) && Above(h, r, Obj(all[1..]))
    {
      assert Above(h, r, Obj(all));
      forall k: nat | Unfold(h, h[r], k).Some?
        ensures Unfold(h, all[0].value, k).Some? && Unfold(h, Obj(all[1..]), k).Some?
      {
        assert Unfold(h, Obj(all), k).Some?;
        UnfoldMemberParts(h, all, k);
      }
    }
  }
}
