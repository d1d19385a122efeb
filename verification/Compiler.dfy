/** The type compiler of the fast path against the reflective interpreter. */
module Compiler {
  import opened Bytes
  import opened Integers
  import opened Values
  import opened Reflection
  import opened Cycles

  datatype IntKind = Int | Int32 | Int64

  /** The finite types whose values the compiler has its own closures for, and `TOther` for the
      scalar kinds it leaves to reflection (unsigned and narrow integers, floats). */
  datatype Typ =
    | TBool
    | TInt(kind: IntKind)
    | TString
    | TPtr(elem: Typ)
    | TSlice(elem: Typ)
    | TStruct(fields: seq<Field>)
    | TOther

  datatype Field = Field(name: Text, omitEmpty: bool, typ: Typ)

  /** What lies in memory behind a pointer to a value. Every pointer carries the address of its
      target. `Opaque` is a scalar given by the text it prints as. */
  datatype Data =
    | Flag(b: bool)
    | Number(i: int)
    | Chars(s: Text)
    | Nil
    | Pointer(addr: int, target: Data)
    | Slice(items: seq<Data>)
    | Record(fields: seq<Data>)
    | Opaque(text: Text, zero: bool)

  predicate InRange(k: IntKind, i: int) {
    match k
    case Int32 => -0x8000_0000 <= i <= 0x7FFF_FFFF
    case _ => MIN_INT64 <= i <= MAX_INT64
  }

  predicate HasType(t: Typ, v: Data)
    decreases v, 1
  {
    match t
    case TBool => v.Flag?
    case TInt(k) => v.Number? && InRange(k, v.i)
    case TString => v.Chars?
    case TPtr(e) => v.Nil? || (v.Pointer? && HasType(e, v.target))
    case TSlice(e) => v.Nil? || (v.Slice? && ItemsHaveType(e, v.items))
    case TStruct(fs) => v.Record? && FieldsHaveType(fs, v.fields)
    case TOther => v.Opaque?
  }

  predicate ItemsHaveType(t: Typ, items: seq<Data>)
    decreases items, 0
  {
    items != [] ==> HasType(t, items[0]) && ItemsHaveType(t, items[1..])
  }

  predicate FieldsHaveType(fs: seq<Field>, vs: seq<Data>)
    ensures FieldsHaveType(fs, vs) ==> |fs| == |vs|
    decreases vs, 0
  {
    |fs| == |vs| && (fs != [] ==> HasType(fs[0].typ, vs[0]) && FieldsHaveType(fs[1..], vs[1..]))
  }

  // ----- the compiler -----

  datatype EmptyTest = IsFalse | IsZero | IsEmptyText | IsEmptySlice | IsNil | IsZeroScalar

  /** An encoder function. A slice of strings has its own; `CReflect` goes back to reflection. */
  datatype Code =
    | CBool
    | CInt
    | CString
    | CPtr(elem: Code)
    | CSlice(elem: Code)
    | CStringSlice
    | CStruct(fields: seq<FieldCode>)
    | CReflect

  datatype FieldCode = FieldCode(name: Text, omitEmpty: bool, isEmpty: Option<EmptyTest>, code: Code)

  function Compile(t: Typ): Code
    decreases t, 1
  {
    match t
    case TBool => CBool
    case TInt(_) => CInt
    case TString => CString
    case TPtr(e) => CPtr(Compile(e))
    case TSlice(e) => if e.TString? then CStringSlice else CSlice(Compile(e))
    case TStruct(fs) => CStruct(CompileFields(fs))
    case TOther => CReflect
  }

  function CompileFields(fs: seq<Field>): (r: seq<FieldCode>)
    ensures |r| == |fs|
    decreases fs, 0
  {
    if fs == [] then [] else [CompileField(fs[0])] + CompileFields(fs[1..])
  }

  function CompileField(f: Field): FieldCode
    decreases f, 2
  {
    FieldCode(f.name, f.omitEmpty, GetIsEmptyFunc(f.typ), Compile(f.typ))
  }

  function GetIsEmptyFunc(t: Typ): Option<EmptyTest> {
    match t
    case TBool => Some(IsFalse)
    case TInt(_) => Some(IsZero)
    case TString => Some(IsEmptyText)
    case TSlice(_) => Some(IsEmptySlice)
    case TPtr(_) => Some(IsNil)
    case TStruct(_) => None
    case TOther => Some(IsZeroScalar)
  }

  /** What a test reads from memory. */
  predicate Passes(test: EmptyTest, v: Data) {
    match test
    case IsFalse => v.Flag? && !v.b
    case IsZero => v.Number? && v.i == 0
    case IsEmptyText => v.Chars? && v.s == []
    case IsEmptySlice => v.Nil? || (v.Slice? && |v.items| == 0)
    case IsNil => v.Nil?
    case IsZeroScalar => v.Opaque? && v.zero
  }

  predicate Skips(f: FieldCode, v: Data) {
    f.omitEmpty && f.isEmpty.Some? && Passes(f.isEmpty.value, v)
  }

  /** isEmptyValue, by reflection. */
  predicate IsEmptyValue(t: Typ, v: Data) {
    match t
    case TSlice(_) => Len(v) == 0
    case TString => Len(v) == 0
    case TBool => v == Flag(false)
    case TInt(_) => v == Number(0)
    case TPtr(_) => v.Nil?
    case TOther => v.Opaque? && v.zero
    case TStruct(_) => false
  }

  /** reflect.Value.Len on a string or slice; a nil slice has length zero. */
  function Len(v: Data): nat {
    match v
    case Chars(s) => |s|
    case Slice(items) => |items|
    case _ => 0
  }

  /** The memory a piece of code expects. */
  predicate Fits(c: Code, v: Data)
    decreases v, 1
  {
    match c
    case CBool => v.Flag?
    case CInt => v.Number?
    case CString => v.Chars?
    case CPtr(e) => v.Nil? || (v.Pointer? && Fits(e, v.target))
    case CSlice(e) => v.Nil? || (v.Slice? && ItemsFit(e, v.items))
    case CStringSlice => v.Nil? || (v.Slice? && ItemsFit(CString, v.items))
    case CStruct(fs) => v.Record? && FieldsFit(fs, v.fields)
    case CReflect => v.Opaque?
  }

  predicate ItemsFit(c: Code, items: seq<Data>)
    decreases items, 0
  {
    items != [] ==> Fits(c, items[0]) && ItemsFit(c, items[1..])
  }

  predicate FieldsFit(fs: seq<FieldCode>, vs: seq<Data>)
    ensures FieldsFit(fs, vs) ==> |fs| == |vs|
    decreases vs, 0
  {
    |fs| == |vs| && (fs != [] ==> Fits(fs[0].code, vs[0]) && FieldsFit(fs[1..], vs[1..]))
  }

  /** Running compiled code: leaves are not checked against the depth limit, containers check
      the depth inside them, and code that goes back to reflection checks the current depth. */
  function Run(c: Code, v: Data, depth: nat, max: int): Result<Val>
    requires Fits(c, v)
    decreases v, 1
  {
    match c
    case CBool => Ok(Bool(v.b))
    case CInt => Ok(Values.Int(v.i))
    case CString => Ok(Str(v.s))
    case CPtr(e) => if v.Nil? then Ok(Null) else Run(e, v.target, depth, max)
    case CSlice(e) =>
      if v.Nil? then Ok(Null)
      else if depth + 1 >= max then Err(TooDeep)
      else AsArray(RunItems(e, v.items, depth + 1, max))
    case CStringSlice =>
      if v.Nil? then Ok(Null)
      else if depth + 1 >= max then Err(TooDeep)
      else AsArray(RunItems(CString, v.items, depth + 1, max))
    case CStruct(fs) =>
      if depth + 1 >= max then Err(TooDeep)
      else AsObject(RunFields(fs, v.fields, depth + 1, max))
    case CReflect => if depth >= max then Err(TooDeep) else Ok(Num(v.text))
  }

  function RunItems(c: Code, items: seq<Data>, depth: nat, max: int): Result<seq<Val>>
    requires ItemsFit(c, items)
    decreases items, 0
  {
    if items == [] then Ok([])
    else
      match Run(c, items[0], depth, max)
      case Err(e) => Err(e)
      case Ok(t) => Cons(t, RunItems(c, items[1..], depth, max))
  }

  function RunFields(fs: seq<FieldCode>, vs: seq<Data>, depth: nat, max: int): Result<seq<Member>>
    requires FieldsFit(fs, vs)
    decreases vs, 0
  {
    if fs == [] then Ok([])
    else if Skips(fs[0], vs[0]) then RunFields(fs[1..], vs[1..], depth, max)
    else
      match Run(fs[0].code, vs[0], depth, max)
      case Err(e) => Err(e)
      case Ok(t) => Cons(Member(Name(fs[0].name), t), RunFields(fs[1..], vs[1..], depth, max))
  }

  // ----- the interpreter -----

  lemma {:induction false} CompiledFits(t: Typ, v: Data)
    requires HasType(t, v)
    ensures Fits(Compile(t), v)
    decreases v, 1
  {
    match t
    case TPtr(e) => if v.Pointer? { CompiledFits(e, v.target); }
    case TSlice(e) => if v.Slice? { CompiledItemsFit(e, v.items); }
    case TStruct(fs) => CompiledFieldsFit(fs, v.fields);
    case _ =>
  }

  lemma {:induction false} CompiledItemsFit(t: Typ, items: seq<Data>)
    requires ItemsHaveType(t, items)
    ensures ItemsFit(Compile(t), items)
    decreases items, 0
  {
    if items != [] {
      CompiledFits(t, items[0]);
      CompiledItemsFit(t, items[1..]);
    }
  }

  lemma {:induction false} CompiledFieldsFit(fs: seq<Field>, vs: seq<Data>)
    requires FieldsHaveType(fs, vs)
    ensures FieldsFit(CompileFields(fs), vs)
    decreases vs, 0
  {
    if fs != [] {
      CompiledFits(fs[0].typ, vs[0]);
      CompiledFieldsFit(fs[1..], vs[1..]);
      assert CompileFields(fs)[1..] == CompileFields(fs[1..]);
    }
  }

  /** isEmptyValueUnsafe, the hybrid's test on memory. */
  predicate IsEmptyValueUnsafe(t: Typ, v: Data) {
    match t
    case TString => v.Chars? && |v.s| == 0
    case TBool => v.Flag? && !v.b
    case TInt(_) => v.Number? && v.i == 0
    case TSlice(_) => Len(v) == 0
    case TPtr(_) => v.Nil?
    case TOther => v.Opaque? && v.zero
    case TStruct(_) => false
  }

  /** encodeValue on typed memory. Everything reached through a pointer or a slice is
      addressable; an addressable struct is encoded by the hybrid, with compiled code for its
      fields and no further cycle detection. */
  function Interp(t: Typ, v: Data, depth: nat, path: Path, addressable: bool, max: int): Result<Val>
    requires HasType(t, v)
    decreases v, 1
  {
    if depth >= max then Err(TooDeep)
    else
      match t
      case TBool => Ok(Bool(v.b))
      case TInt(_) => Ok(Values.Int(v.i))
      case TString => Ok(Str(v.s))
      case TOther => Ok(Num(v.text))
      case TPtr(e) =>
        if v.Nil? then Ok(Null)
        else if Clash(path, v.addr) then Err(Cycle(v.addr))
        else Interp(e, v.target, depth, path + [v.addr], true, max)
      case TSlice(e) =>
        if v.Nil? then Ok(Null)
        else AsArray(InterpItems(e, v.items, depth + 1, path, max))
      case TStruct(fs) =>
        if addressable then AsObject(HybridFields(fs, v.fields, depth + 1, max))
        else AsObject(InterpFields(fs, v.fields, depth + 1, path, max))
  }

  function InterpItems(t: Typ, items: seq<Data>, depth: nat, path: Path, max: int): Result<seq<Val>>
    requires ItemsHaveType(t, items)
    decreases items, 0
  {
    if items == [] then Ok([])
    else
      match Interp(t, items[0], depth, path, true, max)
      case Err(e) => Err(e)
      case Ok(r) => Cons(r, InterpItems(t, items[1..], depth, path, max))
  }

  function InterpFields(fs: seq<Field>, vs: seq<Data>, depth: nat, path: Path, max: int): Result<seq<Member>>
    requires FieldsHaveType(fs, vs)
    decreases vs, 0
  {
    if fs == [] then Ok([])
    else if fs[0].omitEmpty && IsEmptyValue(fs[0].typ, vs[0]) then InterpFields(fs[1..], vs[1..], depth, path, max)
    else
      match Interp(fs[0].typ, vs[0], depth, path, false, max)
      case Err(e) => Err(e)
      case Ok(t) => Cons(Member(Name(fs[0].name), t), InterpFields(fs[1..], vs[1..], depth, path, max))
  }

  /** encodeStructUnsafe. */
  function HybridFields(fs: seq<Field>, vs: seq<Data>, depth: nat, max: int): Result<seq<Member>>
    requires FieldsHaveType(fs, vs)
    decreases vs, 0
  {
    if fs == [] then Ok([])
    else if fs[0].omitEmpty && IsEmptyValueUnsafe(fs[0].typ, vs[0]) then HybridFields(fs[1..], vs[1..], depth, max)
    else
      CompiledFits(fs[0].typ, vs[0]);
      match Run(Compile(fs[0].typ), vs[0], depth, max)
      case Err(e) => Err(e)
      case Ok(t) => Cons(Member(Name(fs[0].name), t), HybridFields(fs[1..], vs[1..], depth, max))
  }

  // ----- the document of a typed value -----

  function Tree(t: Typ, v: Data): Val
    requires HasType(t, v)
    decreases v, 1
  {
    match t
    case TBool => Bool(v.b)
    case TInt(_) => Values.Int(v.i)
    case TString => Str(v.s)
    case TOther => Num(v.text)
    case TPtr(e) => if v.Nil? then Null else Tree(e, v.target)
    case TSlice(e) => if v.Nil? then Null else Arr(TreeItems(e, v.items))
    case TStruct(fs) => Obj(TreeFields(fs, v.fields))
  }

  function TreeItems(t: Typ, items: seq<Data>): seq<Val>
    requires ItemsHaveType(t, items)
    decreases items, 0
  {
    if items == [] then [] else [Tree(t, items[0])] + TreeItems(t, items[1..])
  }

  function TreeFields(fs: seq<Field>, vs: seq<Data>): seq<Member>
    requires FieldsHaveType(fs, vs)
    decreases vs, 0
  {
    if fs == [] then []
    else
      var rest := TreeFields(fs[1..], vs[1..]);
      if Omitted(fs[0], vs[0]) then rest else [Member(Name(fs[0].name), Tree(fs[0].typ, vs[0]))] + rest
  }

  /** omitempty leaves a field out. */
  predicate Omitted(f: Field, v: Data) {
    f.omitEmpty && IsEmptyValue(f.typ, v)
  }

  /** The three emptiness tests agree on values of their type. */
  lemma EmptyTestsAgree(f: Field, v: Data)
    requires HasType(f.typ, v)
    ensures Skips(CompileField(f), v) <==> Omitted(f, v)
    ensures f.omitEmpty && IsEmptyValueUnsafe(f.typ, v) <==> Omitted(f, v)
  {
  }

  // ----- the room a value needs below the depth limit -----

  /** Compiled code needs `depth + Need <= max`; code that needs nothing never fails. */
  function Need(t: Typ, v: Data): nat
    requires HasType(t, v)
    decreases v, 1
  {
    match t
    case TOther => 1
    case TPtr(e) => if v.Nil? then 0 else Need(e, v.target)
    case TSlice(e) => if v.Nil? then 0 else Max(2, 1 + ItemsNeed(e, v.items))
    case TStruct(fs) => Max(2, 1 + FieldsNeed(fs, v.fields))
    case _ => 0
  }

  function ItemsNeed(t: Typ, items: seq<Data>): nat
    requires ItemsHaveType(t, items)
    decreases items, 0
  {
    if items == [] then 0 else Max(Need(t, items[0]), ItemsNeed(t, items[1..]))
  }

  function FieldsNeed(fs: seq<Field>, vs: seq<Data>): nat
    requires FieldsHaveType(fs, vs)
    decreases vs, 0
  {
    if fs == [] then 0
    else
      var rest := FieldsNeed(fs[1..], vs[1..]);
      if Omitted(fs[0], vs[0]) then rest else Max(Need(fs[0].typ, vs[0]), rest)
  }

  predicate Enough(need: nat, depth: nat, max: int) {
    need == 0 || depth + need <= max
  }

  /** The interpreter needs one level for every value, but none beyond it for an empty
      container, and the hybrid asks nothing for the scalar fields of its struct. */
  function InterpNeed(t: Typ, v: Data, addressable: bool): (n: nat)
    requires HasType(t, v)
    ensures n >= 1
    decreases v, 1
  {
    match t
    case TPtr(e) => if v.Nil? then 1 else InterpNeed(e, v.target, true)
    case TSlice(e) => if v.Nil? then 1 else 1 + InterpItemsNeed(e, v.items)
    case TStruct(fs) => 1 + if addressable then FieldsNeed(fs, v.fields) else InterpFieldsNeed(fs, v.fields)
    case _ => 1
  }

  function InterpItemsNeed(t: Typ, items: seq<Data>): nat
    requires ItemsHaveType(t, items)
    decreases items, 0
  {
    if items == [] then 0 else Max(InterpNeed(t, items[0], true), InterpItemsNeed(t, items[1..]))
  }

  function InterpFieldsNeed(fs: seq<Field>, vs: seq<Data>): nat
    requires FieldsHaveType(fs, vs)
    decreases vs, 0
  {
    if fs == [] then 0
    else
      var rest := InterpFieldsNeed(fs[1..], vs[1..]);
      if Omitted(fs[0], vs[0]) then rest else Max(InterpNeed(fs[0].typ, vs[0], false), rest)
  }

  // ----- compiled code, exactly -----

  function Limited<T>(enough: bool, t: T): Result<T> {
    if enough then Ok(t) else Err(TooDeep)
  }

  /** Compiled code prints the document when the depth limit leaves it enough room, and
      otherwise fails with a depth error. */
  lemma {:induction false} RunExact(t: Typ, v: Data, depth: nat, max: int)
    requires HasType(t, v)
    ensures Fits(Compile(t), v)
    ensures Run(Compile(t), v, depth, max) == Limited(Enough(Need(t, v), depth, max), Tree(t, v))
    decreases v, 1
  {
    hide ItemsHaveType, FieldsHaveType, ItemsFit, FieldsFit, TreeItems, TreeFields, RunItems, RunFields, ItemsNeed,
         FieldsNeed, InRange;
    CompiledFits(t, v);
    match t
    case TPtr(e) => if v.Pointer? { RunExact(e, v.target, depth, max); }
    case TSlice(e) => if v.Slice? { RunItemsExact(e, v.items, depth + 1, max); }
    case TStruct(fs) => RunFieldsExact(fs, v.fields, depth + 1, max);
    case _ =>
  }

  lemma {:induction false} RunItemsExact(t: Typ, items: seq<Data>, depth: nat, max: int)
    requires ItemsHaveType(t, items)
    ensures ItemsFit(Compile(t), items)
    ensures RunItems(Compile(t), items, depth, max)
        == Limited(Enough(ItemsNeed(t, items), depth, max), TreeItems(t, items))
    decreases items, 0
  {
    CompiledItemsFit(t, items);
    if items != [] {
      RunExact(t, items[0], depth, max);
      RunItemsExact(t, items[1..], depth, max);
    }
  }

  lemma {:induction false} RunFieldsExact(fs: seq<Field>, vs: seq<Data>, depth: nat, max: int)
    requires FieldsHaveType(fs, vs)
    ensures FieldsFit(CompileFields(fs), vs)
    ensures RunFields(CompileFields(fs), vs, depth, max)
        == Limited(Enough(FieldsNeed(fs, vs), depth, max), TreeFields(fs, vs))
    ensures HybridFields(fs, vs, depth, max) == RunFields(CompileFields(fs), vs, depth, max)
    decreases vs, 0
  {
    CompiledFieldsFit(fs, vs);
    if fs != [] {
      RunExact(fs[0].typ, vs[0], depth, max);
      RunFieldsExact(fs[1..], vs[1..], depth, max);
      EmptyTestsAgree(fs[0], vs[0]);
      assert CompileFields(fs)[1..] == CompileFields(fs[1..]);
    }
  }

  // ----- the interpreter, exactly -----

  /** No pointer the interpreter follows carries an address it has entered before: its own test,
      along its own route. */
  predicate NoRepeat(t: Typ, v: Data, path: Path, addressable: bool)
    requires HasType(t, v)
    decreases v, 1
  {
    match t
    case TPtr(e) => v.Nil? || (!Clash(path, v.addr) && NoRepeat(e, v.target, path + [v.addr], true))
    case TSlice(e) => v.Nil? || NoRepeatItems(e, v.items, path)
    case TStruct(fs) => addressable || NoRepeatFields(fs, v.fields, path)
    case _ => true
  }

  predicate NoRepeatItems(t: Typ, items: seq<Data>, path: Path)
    requires ItemsHaveType(t, items)
    decreases items, 0
  {
    items != [] ==> NoRepeat(t, items[0], path, true) && NoRepeatItems(t, items[1..], path)
  }

  predicate NoRepeatFields(fs: seq<Field>, vs: seq<Data>, path: Path)
    requires FieldsHaveType(fs, vs)
    decreases vs, 0
  {
    fs != [] ==>
      && (Omitted(fs[0], vs[0]) || NoRepeat(fs[0].typ, vs[0], path, false))
      && NoRepeatFields(fs[1..], vs[1..], path)
  }

  /** The outcome of interpreting: the document exactly when there is room and no address
      repeats; without a repeated address the only other outcome is a depth error. */
  predicate Interpreted<T(==)>(r: Result<T>, enough: bool, noRepeat: bool, t: T) {
    && (r.Ok? <==> enough && noRepeat)
    && (r.Ok? ==> r.value == t)
    && (noRepeat && !enough ==> r == Err(TooDeep))
    && (enough && !noRepeat ==> r.Err? && r.error.Cycle?)
  }

  lemma {:induction false} InterpExact(t: Typ, v: Data, depth: nat, path: Path, addressable: bool, max: int)
    requires HasType(t, v)
    ensures Interpreted(Interp(t, v, depth, path, addressable, max),
                        depth + InterpNeed(t, v, addressable) <= max, NoRepeat(t, v, path, addressable), Tree(t, v))
    decreases v, 1
  {
    match t
    case TPtr(e) => if v.Pointer? { InterpExact(e, v.target, depth, path + [v.addr], true, max); }
    case TSlice(e) => if v.Slice? { InterpItemsExact(e, v.items, depth + 1, path, max); }
    case TStruct(fs) =>
      if addressable {
        RunFieldsExact(fs, v.fields, depth + 1, max);
      } else {
        InterpFieldsExact(fs, v.fields, depth + 1, path, max);
      }
    case _ =>
  }

  lemma {:induction false} InterpItemsExact(t: Typ, items: seq<Data>, depth: nat, path: Path, max: int)
    requires ItemsHaveType(t, items)
    ensures Interpreted(InterpItems(t, items, depth, path, max),
                        Enough(InterpItemsNeed(t, items), depth, max), NoRepeatItems(t, items, path),
                            TreeItems(t, items))
    decreases items, 0
  {
    if items != [] {
      InterpExact(t, items[0], depth, path, true, max);
      InterpItemsExact(t, items[1..], depth, path, max);
    }
  }

  lemma {:induction false} InterpFieldsExact(fs: seq<Field>, vs: seq<Data>, depth: nat, path: Path, max: int)
    requires FieldsHaveType(fs, vs)
    ensures Interpreted(InterpFields(fs, vs, depth, path, max),
                        Enough(InterpFieldsNeed(fs, vs), depth, max), NoRepeatFields(fs, vs, path), TreeFields(fs, vs))
    decreases vs, 0
  {
    if fs != [] {
      InterpExact(fs[0].typ, vs[0], depth, path, false, max);
      InterpFieldsExact(fs[1..], vs[1..], depth, path, max);
    }
  }

  // ----- the two depth disciplines -----

  /** The interpreter needs no more room than compiled code, and at most one level less. */
  lemma {:induction false} NeedsCompare(t: Typ, v: Data, addressable: bool)
    requires HasType(t, v)
    ensures InterpNeed(t, v, addressable) <= Max(1, Need(t, v))
    ensures Need(t, v) <= InterpNeed(t, v, addressable) + 1
    decreases v, 1
  {
    match t
    case TPtr(e) => if v.Pointer? { NeedsCompare(e, v.target, true); }
    case TSlice(e) => if v.Slice? { ItemsNeedsCompare(e, v.items); }
    case TStruct(fs) => FieldsNeedsCompare(fs, v.fields);
    case _ =>
  }

  lemma {:induction false} ItemsNeedsCompare(t: Typ, items: seq<Data>)
    requires ItemsHaveType(t, items)
    ensures InterpItemsNeed(t, items) <= Max(1, ItemsNeed(t, items))
        && ItemsNeed(t, items) <= InterpItemsNeed(t, items) + 1
    decreases items, 0
  {
    if items != [] {
      NeedsCompare(t, items[0], true);
      ItemsNeedsCompare(t, items[1..]);
    }
  }

  lemma {:induction false} FieldsNeedsCompare(fs: seq<Field>, vs: seq<Data>)
    requires FieldsHaveType(fs, vs)
    ensures InterpFieldsNeed(fs, vs) <= Max(1, FieldsNeed(fs, vs)) && FieldsNeed(fs, vs) <= InterpFieldsNeed(fs, vs) + 1
    decreases vs, 0
  {
    if fs != [] {
      NeedsCompare(fs[0].typ, vs[0], false);
      FieldsNeedsCompare(fs[1..], vs[1..]);
    }
  }

  /** Where compiled code succeeds, the interpreter prints the same document under the same limit
      exactly when no address repeats on its route; otherwise it reports a cycle. */
  lemma CompiledThenInterpreted(t: Typ, v: Data, depth: nat, path: Path, addressable: bool, max: int)
    requires HasType(t, v) && Fits(Compile(t), v) && depth < max && Run(Compile(t), v, depth, max).Ok?
    ensures var r := Interp(t, v, depth, path, addressable, max);
            if NoRepeat(t, v, path, addressable) then r == Run(Compile(t), v, depth, max)
            else r.Err? && r.error.Cycle?
  {
    RunExact(t, v, depth, max);
    InterpExact(t, v, depth, path, addressable, max);
    NeedsCompare(t, v, addressable);
  }

  /** Where the interpreter succeeds, compiled code prints the same document under a limit one
      higher. */
  lemma InterpretedThenCompiled(t: Typ, v: Data, depth: nat, path: Path, addressable: bool, max: int)
    requires HasType(t, v) && Interp(t, v, depth, path, addressable, max).Ok?
    ensures Fits(Compile(t), v) && Run(Compile(t), v, depth, max + 1) == Interp(t, v, depth, path, addressable, max)
  {
    RunExact(t, v, depth, max + 1);
    InterpExact(t, v, depth, path, addressable, max);
    NeedsCompare(t, v, addressable);
  }

  /** Under one and the same limit they differ only when the compiled code needs one level more
      and the limit is exactly there. */
  lemma SameUnderOneLimit(t: Typ, v: Data, depth: nat, path: Path, addressable: bool, max: int)
    requires HasType(t, v) && NoRepeat(t, v, path, addressable) && depth < max
    ensures Fits(Compile(t), v)
    ensures Run(Compile(t), v, depth, max) == Interp(t, v, depth, path, addressable, max)
       <==> Need(t, v) <= InterpNeed(t, v, addressable) || depth + InterpNeed(t, v, addressable) != max
  {
    RunExact(t, v, depth, max);
    InterpExact(t, v, depth, path, addressable, max);
    NeedsCompare(t, v, addressable);
  }

  /** An empty container at the limit is such a value. */
  lemma EmptyContainerAtTheLimit(t: Typ, addressable: bool, path: Path, max: nat)
    requires max > 0
    ensures var v := Slice([]);
            && HasType(TSlice(t), v) && Fits(Compile(TSlice(t)), v)
            && Run(Compile(TSlice(t)), v, max - 1, max) == Err(TooDeep)
            && Interp(TSlice(t), v, max - 1, path, addressable, max) == Ok(Arr([]))
  {
    RunExact(TSlice(t), Slice([]), max - 1, max);
  }

  // ----- why addresses do not repeat -----

  /** The size of a type as a tree. */
  function Size(t: Typ): nat
    decreases t, 1
  {
    match t
    case TPtr(e) => 1 + Size(e)
    case TSlice(e) => 1 + Size(e)
    case TStruct(fs) => 1 + FieldsSize(fs)
    case _ => 1
  }

  function FieldsSize(fs: seq<Field>): nat
    decreases fs, 0
  {
    if fs == [] then 0 else FieldSize(fs[0]) + FieldsSize(fs[1..])
  }

  function FieldSize(f: Field): nat
    decreases f, 2
  {
    Size(f.typ)
  }

  /** A value of type `inner` starts where one of type `outer` does. */
  predicate StartsWith(outer: Typ, inner: Typ)
    decreases outer
  {
    outer == inner || (outer.TStruct? && outer.fields != [] && FieldStartsWith(outer.fields[0], inner))
  }

  predicate FieldStartsWith(f: Field, inner: Typ)
    decreases f
  {
    StartsWith(f.typ, inner)
  }

  lemma {:induction false} StartsWithSize(outer: Typ, inner: Typ)
    requires StartsWith(outer, inner)
    ensures Size(inner) <= Size(outer)
    decreases outer
  {
    if outer != inner {
      StartsWithSize(outer.fields[0].typ, inner);
      assert FieldsSize(outer.fields) >= FieldSize(outer.fields[0]);
    }
  }

  /** A pointer's target and the type it has there. */
  datatype View = View(addr: int, typ: Typ)

  /** Two views of one address start with one another, as they do in memory unless objects of
      size zero are involved. Only targets on the way to each other are compared. */
  predicate Laid(t: Typ, v: Data, seen: seq<View>)
    requires HasType(t, v)
    decreases v, 1
  {
    match t
    case TPtr(e) =>
      v.Nil? ||
      (&& (forall i | 0 <= i < |seen| :: seen[i].addr == v.addr ==>
          StartsWith(seen[i].typ, e) || StartsWith(e, seen[i].typ))
       && Laid(e, v.target, seen + [View(v.addr, e)]))
    case TSlice(e) => v.Nil? || LaidItems(e, v.items, seen)
    case TStruct(fs) => LaidFields(fs, v.fields, seen)
    case _ => true
  }

  predicate LaidItems(t: Typ, items: seq<Data>, seen: seq<View>)
    requires ItemsHaveType(t, items)
    decreases items, 0
  {
    items != [] ==> Laid(t, items[0], seen) && LaidItems(t, items[1..], seen)
  }

  predicate LaidFields(fs: seq<Field>, vs: seq<Data>, seen: seq<View>)
    requires FieldsHaveType(fs, vs)
    decreases vs, 0
  {
    fs != [] ==> Laid(fs[0].typ, vs[0], seen) && LaidFields(fs[1..], vs[1..], seen)
  }

  function Addrs(seen: seq<View>): Path {
    seq(|seen|, i requires 0 <= i < |seen| => seen[i].addr)
  }

  /** Every target on the interpreter's path is a pointer or a slice and no smaller than the type
      it has come to: structs end the path, because the hybrid takes over. */
  predicate Passed(seen: seq<View>, t: Typ) {
    forall i | 0 <= i < |seen| :: (seen[i].typ.TPtr? || seen[i].typ.TSlice?) && Size(seen[i].typ) >= Size(t)
  }

  lemma {:induction false} LaidNoRepeat(t: Typ, v: Data, seen: seq<View>, addressable: bool)
    requires HasType(t, v) && Laid(t, v, seen)
    requires !addressable || t.TPtr? || t.TSlice? ==> Passed(seen, t)
    ensures NoRepeat(t, v, Addrs(seen), addressable)
    decreases v, 1
  {
    match t
    case TPtr(e) =>
      if v.Pointer? {
        var next := seen + [View(v.addr, e)];
        assert Addrs(next) == Addrs(seen) + [v.addr];
        if Clash(Addrs(seen), v.addr) {
          ClashRepeats(Addrs(seen), v.addr);
          var i :| 0 <= i < |seen| && Addrs(seen)[i] == v.addr;
          if StartsWith(e, seen[i].typ) {
            StartsWithSize(e, seen[i].typ);
          }
          assert false;
        }
        LaidNoRepeat(e, v.target, next, true);
      }
    case TSlice(e) => if v.Slice? { LaidNoRepeatItems(e, v.items, seen); }
    case TStruct(fs) => if !addressable { LaidNoRepeatFields(fs, v.fields, seen); }
    case _ =>
  }

  lemma {:induction false} LaidNoRepeatItems(t: Typ, items: seq<Data>, seen: seq<View>)
    requires ItemsHaveType(t, items) && LaidItems(t, items, seen) && Passed(seen, t)
    ensures NoRepeatItems(t, items, Addrs(seen))
    decreases items, 0
  {
    if items != [] {
      LaidNoRepeat(t, items[0], seen, true);
      LaidNoRepeatItems(t, items[1..], seen);
    }
  }

  lemma {:induction false} LaidNoRepeatFields(fs: seq<Field>, vs: seq<Data>, seen: seq<View>)
    requires FieldsHaveType(fs, vs) && LaidFields(fs, vs, seen) && Passed(seen, TStruct(fs))
    ensures NoRepeatFields(fs, vs, Addrs(seen))
    decreases vs, 0
  {
    if fs != [] {
      assert Size(fs[0].typ) == FieldSize(fs[0]) && Size(TStruct(fs[1..])) <= Size(TStruct(fs));
      LaidNoRepeat(fs[0].typ, vs[0], seen, false);
      LaidNoRepeatFields(fs[1..], vs[1..], seen);
    }
  }

  /** Compiler correctness on properly laid out memory: the closure's success under a limit
      carries over to the interpreter, with the same document. */
  lemma CompilerCorrect(t: Typ, v: Data, addressable: bool, max: int)
    requires HasType(t, v) && Laid(t, v, []) && max >= 1
    ensures Fits(Compile(t), v)
    ensures Run(Compile(t), v, 0, max).Ok? ==> Interp(t, v, 0, [], addressable, max) == Run(Compile(t), v, 0, max)
    ensures Interp(t, v, 0, [], addressable, max).Ok? ==>
        Run(Compile(t), v, 0, max + 1) == Interp(t, v, 0, [], addressable, max)
  {
    CompiledFits(t, v);
    LaidNoRepeat(t, v, [], addressable);
    assert Addrs([]) == [];
    if Run(Compile(t), v, 0, max).Ok? {
      CompiledThenInterpreted(t, v, 0, [], addressable, max);
    }
    if Interp(t, v, 0, [], addressable, max).Ok? {
      InterpretedThenCompiled(t, v, 0, [], addressable, max);
    }
  }

  /** A pointer that shares its address with its own target, as a pointer to an object of size
      zero beside it can, is refused by the interpreter and printed by compiled code. */
  lemma ZeroSizeNeighbour(a: int, addressable: bool, max: int)
    requires max >= 2
    ensures var t, v := TPtr(TPtr(TStruct([]))), Pointer(a, Pointer(a, Record([])));
            && HasType(t, v) && Fits(Compile(t), v) && !Laid(t, v, [])
            && Run(Compile(t), v, 0, max) == Ok(Obj([]))
            && Interp(t, v, 0, [], addressable, max) == Err(Cycle(a))
  {
    var e := TPtr(TStruct([]));
    var p := Pointer(a, Record([]));
    var t, v := TPtr(e), Pointer(a, p);
    CompiledFits(t, v);
    assert Run(Compile(TStruct([])), Record([]), 0, max) == Ok(Obj([]));
    assert Run(Compile(e), p, 0, max) == Ok(Obj([]));
    assert Interp(e, p, 0, [a], true, max) == Err(Cycle(a));
    assert Interp(t, v, 0, [], addressable, max) == Interp(e, p, 0, [] + [a], true, max) by { assert [] + [a] == [a]; }
    var seen := [View(a, e)];
    assert seen[0].addr == a && !StartsWith(e, e.elem) && !StartsWith(e.elem, e);
    assert !Laid(e, p, seen);
    assert [] + seen == seen;
  }
}
