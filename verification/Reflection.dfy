/** What encodeValue decides for a value that may contain pointers: the JSON tree it prints,
    or the error it stops with. The text of the tree is Values.Print. */
module Reflection {
  import opened Values

  /** ptrSeenInlineSize. */
  const INLINE_SIZE: nat := 8

  /** Error codes, plus the run-time panic of slicing the buffer past its capacity. */
  datatype Error = TooDeep | Cycle(addr: int) | BadType | BufferOverrun

  datatype Result<+T> = Ok(value: T) | Err(error: Error)

  /** The pointers entered on the way to the current value, outermost first. The first eight
      addresses sit in the inline array, the others in the map. */
  type Path = seq<int>

  function Overflow(path: Path): set<int> {
    if |path| <= INLINE_SIZE then {} else Overflow(path[..|path| - 1]) + {path[|path| - 1]}
  }

  /** The two-tier test: while the inline array has room only it is searched, afterwards only
      the map is. */
  predicate Clash(path: Path, addr: int) {
    if |path| < INLINE_SIZE then addr in path else addr in Overflow(path)
  }

  function Addresses(h: Heap): set<int> {
    set r | r in h :: r.addr
  }

  function Room(depth: nat, max: int): nat {
    if depth < max then max - depth else 0
  }

  /** Pointers that can still be entered: free inline slots plus addresses not in the map. */
  function Free(h: Heap, path: Path): nat {
    (if |path| < INLINE_SIZE then INLINE_SIZE - |path| else 0) + |Addresses(h) - Overflow(path)|
  }

  lemma FreeShrinks(h: Heap, path: Path, r: Ref)
    requires r in h && !Clash(path, r.addr)
    ensures Free(h, path + [r.addr]) < Free(h, path)
  {
    var p := path + [r.addr];
    assert p[..|path|] == path;
    if |path| >= INLINE_SIZE {
      var rest := Addresses(h) - Overflow(p);
      assert Addresses(h) - Overflow(path) == rest + {r.addr};
      assert r.addr !in rest;
    }
  }

  /** encodeValue: the depth test comes first for every value; pointers and interfaces keep the
      depth, containers add one. */
  function Encode(h: Heap, v: Val, depth: nat, path: Path, max: int): Result<Val>
    decreases Room(depth, max), Free(h, path), v, 1
  {
    if depth >= max then Err(TooDeep)
    else
      match v
      case Ptr(r) =>
        if r !in h then Ok(Null)
        else if Clash(path, r.addr) then Err(Cycle(r.addr))
        else
          FreeShrinks(h, path, r);
          Encode(h, h[r], depth, path + [r.addr], max)
      case Iface(inner) => Encode(h, inner, depth, path, max)
      case Alias(r) =>
        if r !in h then Ok(Null)
        else
          (match h[r]
           case Arr(items) => AsArray(EncodeItems(h, items, depth + 1, path, max))
           case Obj(members) => AsObject(EncodeMembers(h, members, depth + 1, path, max))
           case _ => Err(BadType))
      case Arr(items) => AsArray(EncodeItems(h, items, depth + 1, path, max))
      case Obj(members) => AsObject(EncodeMembers(h, members, depth + 1, path, max))
      case Unsupported => Err(BadType)
      case _ => Ok(v)
  }

  function AsArray(r: Result<seq<Val>>): Result<Val> {
    match r
    case Err(e) => Err(e)
    case Ok(items) => Ok(Arr(items))
  }

  function AsObject(r: Result<seq<Member>>): Result<Val> {
    match r
    case Err(e) => Err(e)
    case Ok(members) => Ok(Obj(members))
  }

  function Cons<T>(head: T, r: Result<seq<T>>): Result<seq<T>> {
    match r
    case Err(e) => Err(e)
    case Ok(tail) => Ok([head] + tail)
  }

  function EncodeItems(h: Heap, items: seq<Val>, depth: nat, path: Path, max: int): Result<seq<Val>>
    decreases Room(depth, max), Free(h, path), items, 0
  {
    if items == [] then Ok([])
    else
      match Encode(h, items[0], depth, path, max)
      case Err(e) => Err(e)
      case Ok(t) => Cons(t, EncodeItems(h, items[1..], depth, path, max))
  }

  function EncodeMembers(h: Heap, members: seq<Member>, depth: nat, path: Path, max: int): Result<seq<Member>>
    decreases Room(depth, max), Free(h, path), members, 0
  {
    if members == [] then Ok([])
    else
      match EncodeMember(h, members[0], depth, path, max)
      case Err(e) => Err(e)
      case Ok(t) => Cons(t, EncodeMembers(h, members[1..], depth, path, max))
  }

  function EncodeMember(h: Heap, m: Member, depth: nat, path: Path, max: int): Result<Member>
    decreases Room(depth, max), Free(h, path), m, 2
  {
    if m.key.OtherKey? then Err(BadType)
    else
      match Encode(h, m.value, depth, path, max)
      case Err(e) => Err(e)
      case Ok(t) => Ok(Member(Name(KeyText(m.key)), t))
  }

  /** Encoder.Encode: scalars take a fast path that skips the depth test. */
  function EncodeTop(h: Heap, v: Val, max: int): Result<Val> {
    if v.Null? || v.Bool? || v.Int? || v.Num? || v.Str? then Ok(v) else Encode(h, v, 0, [], max)
  }

  // ----- trees -----

  /** What is printed is a JSON tree that fits the depth limit. */
  lemma {:induction false} EncodeOk(h: Heap, v: Val, depth: nat, path: Path, max: int)
    requires Encode(h, v, depth, path, max).Ok?
    ensures var t := Encode(h, v, depth, path, max).value; IsTree(t) && depth + Height(t) <= max
    decreases Room(depth, max), Free(h, path), v, 1
  {
    match v
    case Ptr(r) =>
      if r in h {
        FreeShrinks(h, path, r);
        EncodeOk(h, h[r], depth, path + [r.addr], max);
      }
    case Iface(inner) => EncodeOk(h, inner, depth, path, max);
    case Alias(r) =>
      if r in h {
        match h[r]
        case Arr(items) => EncodeItemsOk(h, items, depth + 1, path, max);
        case Obj(members) => EncodeMembersOk(h, members, depth + 1, path, max);
        case _ =>
      }
    case Arr(items) => EncodeItemsOk(h, items, depth + 1, path, max);
    case Obj(members) => EncodeMembersOk(h, members, depth + 1, path, max);
    case _ =>
  }

  lemma {:induction false} EncodeItemsOk(h: Heap, items: seq<Val>, depth: nat, path: Path, max: int)
    requires EncodeItems(h, items, depth, path, max).Ok? && depth <= max
    ensures var ts := EncodeItems(h, items, depth, path, max).value; IsTree(Arr(ts)) && depth + ItemsHeight(ts) <= max
    decreases Room(depth, max), Free(h, path), items, 0
  {
    if items != [] {
      EncodeOk(h, items[0], depth, path, max);
      EncodeItemsOk(h, items[1..], depth, path, max);
    }
  }

  lemma {:induction false} EncodeMembersOk(h: Heap, members: seq<Member>, depth: nat, path: Path, max: int)
    requires EncodeMembers(h, members, depth, path, max).Ok? && depth <= max
    ensures var ts := EncodeMembers(h, members, depth, path, max).value;
            IsTree(Obj(ts)) && depth + MembersHeight(ts) <= max
    decreases Room(depth, max), Free(h, path), members, 0
  {
    if members != [] {
      EncodeMemberOk(h, members[0], depth, path, max);
      EncodeMembersOk(h, members[1..], depth, path, max);
    }
  }

  lemma {:induction false} EncodeMemberOk(h: Heap, m: Member, depth: nat, path: Path, max: int)
    requires EncodeMember(h, m, depth, path, max).Ok? && depth <= max
    ensures var t := EncodeMember(h, m, depth, path, max).value;
            IsTree(t.value) && t.key.Name? && depth + MemberHeight(t) <= max
    decreases Room(depth, max), Free(h, path), m, 2
  {
    EncodeOk(h, m.value, depth, path, max);
  }

  /** A tree is printed as it is, exactly when its height fits the depth limit. */
  lemma {:induction false} EncodeTree(h: Heap, v: Val, depth: nat, path: Path, max: int)
    requires IsTree(v)
    ensures Encode(h, v, depth, path, max) == if depth + Height(v) <= max then Ok(v) else Err(TooDeep)
    decreases v, 1
  {
    if depth < max {
      match v
      case Arr(items) => EncodeTreeItems(h, items, depth + 1, path, max);
      case Obj(members) => EncodeTreeMembers(h, members, depth + 1, path, max);
      case _ =>
    }
  }

  lemma {:induction false} EncodeTreeItems(h: Heap, items: seq<Val>, depth: nat, path: Path, max: int)
    requires forall i | 0 <= i < |items| :: IsTree(items[i])
    requires depth <= max
    ensures EncodeItems(h, items, depth, path, max)
        == if depth + ItemsHeight(items) <= max then Ok(items) else Err(TooDeep)
    decreases items, 0
  {
    if items != [] {
      EncodeTree(h, items[0], depth, path, max);
      EncodeTreeItems(h, items[1..], depth, path, max);
      assert items == [items[0]] + items[1..];
    }
  }

  lemma {:induction false} EncodeTreeMembers(h: Heap, members: seq<Member>, depth: nat, path: Path, max: int)
    requires forall i | 0 <= i < |members| :: members[i].key.Name? && IsTree(members[i].value)
    requires depth <= max
    ensures EncodeMembers(h, members, depth, path, max)
        == if depth + MembersHeight(members) <= max then Ok(members) else Err(TooDeep)
    decreases members, 0
  {
    if members != [] {
      EncodeTreeMember(h, members[0], depth, path, max);
      EncodeTreeMembers(h, members[1..], depth, path, max);
      assert members == [members[0]] + members[1..];
    }
  }

  lemma {:induction false} EncodeTreeMember(h: Heap, m: Member, depth: nat, path: Path, max: int)
    requires m.key.Name? && IsTree(m.value)
    requires depth <= max
    ensures EncodeMember(h, m, depth, path, max) == if depth + MemberHeight(m) <= max then Ok(m) else Err(TooDeep)
    decreases m, 2
  {
    EncodeTree(h, m.value, depth, path, max);
  }
}
