/** The incremental writer as a state machine: what each Write* call appends when no write to
    the underlying writer fails. */
module WriterSpec {
  import opened Bytes
  import opened Integers
  import opened Strings
  import opened Values
  import Reflection

  const MAX_WRITE_DEPTH: nat := 64

  // Stack frames: bit 0 is the kind (0 array, 1 object), bit 1 is set before the first element.
  const ARRAY_NOT_FIRST: nat := 0
  const OBJECT_NOT_FIRST: nat := 1
  const ARRAY_FIRST: nat := 2
  const OBJECT_FIRST: nat := 3

  predicate IsObject(frame: nat) {
    frame % 2 == 1
  }

  predicate IsFirst(frame: nat) {
    frame / 2 % 2 == 1
  }

  datatype WriteError = InvalidWriteState | StreamFailed | EncodingFailed(e: Reflection.Error)

  /** The calls of the streaming write API. */
  datatype Op =
    | ObjectStart
    | ObjectEnd
    | ArrayStart
    | ArrayEnd
    | Field(key: Text)
    | WriteString(s: Text)
    | WriteInt(i: int)
    | WriteFloat(text: Text)
    | WriteBool(b: bool)
    | WriteNull
    | WriteValue(h: Heap, v: Val)
    | WriteMore
    | Flush

  /** `failed`: a call was out of order or a value could not be encoded; every later call is
      refused. After an encoding error part of the value's text may have been written, which
      `log` does not record. */
  datatype State = State(log: Text, stack: seq<nat>, complete: bool, failed: bool, encodeFailed: bool)

  function Top(s: State): nat
    requires s.stack != []
  {
    s.stack[|s.stack| - 1]
  }

  function Level(s: State): nat {
    |s.stack|
  }

  function Append(s: State, t: Text): State {
    s.(log := s.log + t)
  }

  function Refuse(s: State): State {
    s.(failed := true)
  }

  function SetTop(s: State, frame: nat): State
    requires s.stack != []
  {
    s.(stack := s.stack[..|s.stack| - 1] + [frame])
  }

  function Pop(s: State): State
    requires s.stack != []
  {
    s.(stack := s.stack[..|s.stack| - 1])
  }

  /** The line feed between two documents of one stream. */
  function Session(s: State): Text {
    if s.stack == [] && s.complete then [LF] else []
  }

  function Start(s: State, bracket: byte, frame: nat): State {
    if |s.stack| >= MAX_WRITE_DEPTH then Refuse(s)
    else State(s.log + Session(s) + [bracket], s.stack + [frame], false, s.failed, s.encodeFailed)
  }

  function End(cfg: Config, s: State, bracket: byte, isObject: bool): State {
    if s.stack == [] || IsObject(Top(s)) != isObject then Refuse(s)
    else
      var level := |s.stack| - 1;
      State(s.log + (if IsFirst(Top(s)) then [] else NewLine(cfg, level)) + [bracket], Pop(s).stack, level == 0,
            s.failed, s.encodeFailed)
  }

  /** writeArrayComma: nothing inside an object. */
  function Comma(cfg: Config, s: State): State {
    if s.stack == [] || IsObject(Top(s)) then s
    else if IsFirst(Top(s)) then Append(SetTop(s, ARRAY_NOT_FIRST), NewLine(cfg, Level(s)))
    else Append(s, Separator(cfg, Level(s)))
  }

  function Scalar(cfg: Config, s: State, t: Text): State {
    if s.stack == [] then Refuse(s) else Append(Comma(cfg, s), t)
  }

  function FieldText(cfg: Config, s: State, key: Text): Text
    requires s.stack != []
  {
    (if IsFirst(Top(s)) then NewLine(cfg, Level(s)) else Separator(cfg, Level(s)))
    + Quote(cfg.escapeHTML, key) + ColonText(cfg)
  }

  function Step(cfg: Config, s: State, op: Op): State {
    if s.failed then s
    else
      match op
      case ObjectStart => Start(s, LBRACE, OBJECT_FIRST)
      case ArrayStart => Start(s, LBRACKET, ARRAY_FIRST)
      case ObjectEnd => End(cfg, s, RBRACE, true)
      case ArrayEnd => End(cfg, s, RBRACKET, false)
      case Field(key) =>
        if s.stack == [] || !IsObject(Top(s)) then Refuse(s)
        else Append(SetTop(s, OBJECT_NOT_FIRST), FieldText(cfg, s, key))
      case WriteString(t) => Scalar(cfg, s, Quote(cfg.escapeHTML, t))
      case WriteInt(i) => Scalar(cfg, s, Decimal(i))
      case WriteFloat(t) => Scalar(cfg, s, t)
      case WriteBool(b) => Scalar(cfg, s, BoolText(b))
      case WriteNull => Scalar(cfg, s, NULL_TEXT)
      case WriteValue(h, v) =>
        if s.stack == [] then Refuse(s)
        else
          (match Reflection.EncodeTop(h, v, cfg.maxDepth)
           case Ok(t) => Append(Comma(cfg, s), Print(cfg, t, Level(s)))
           case Err(_) => Comma(cfg, s).(failed := true, encodeFailed := true))
      case WriteMore => if s.stack == [] then Refuse(s) else Append(s, [COMMA])
      case Flush => s
  }

  /** What the call returns in a state where none has failed when no write fails. */
  function Verdict(cfg: Config, s: State, op: Op): Option<WriteError> {
    match op
    case ObjectStart => Unless(|s.stack| < MAX_WRITE_DEPTH)
    case ArrayStart => Unless(|s.stack| < MAX_WRITE_DEPTH)
    case ObjectEnd => Unless(s.stack != [] && IsObject(Top(s)))
    case ArrayEnd => Unless(s.stack != [] && !IsObject(Top(s)))
    case Field(_) => Unless(s.stack != [] && IsObject(Top(s)))
    case Flush => None
    case WriteValue(h, v) =>
      if s.stack == [] then Some(InvalidWriteState)
      else
        (match Reflection.EncodeTop(h, v, cfg.maxDepth)
         case Ok(_) => None
         case Err(e) => Some(EncodingFailed(e)))
    case _ => Unless(s.stack != [])
  }

  function Unless(allowed: bool): Option<WriteError> {
    if allowed then None else Some(InvalidWriteState)
  }

  /** The state machine fails exactly on the calls that return an error. */
  lemma VerdictFails(cfg: Config, s: State, op: Op)
    requires !s.failed && !s.encodeFailed
    ensures Step(cfg, s, op).failed <==> Verdict(cfg, s, op).Some?
    ensures Step(cfg, s, op).encodeFailed <==> Verdict(cfg, s, op).Some? && Verdict(cfg, s, op).value.EncodingFailed?
  {
  }

  /** What the last of several calls returns when no write fails: the first error stays. */
  function RunVerdict(cfg: Config, s: State, ops: seq<Op>): Option<WriteError>
    decreases |ops|
  {
    if ops == [] then None
    else if Verdict(cfg, s, ops[0]).Some? then Verdict(cfg, s, ops[0])
    else RunVerdict(cfg, Step(cfg, s, ops[0]), ops[1..])
  }

  lemma {:induction false} RunVerdictSnoc(cfg: Config, s: State, ops: seq<Op>, op: Op)
    ensures RunVerdict(cfg, s, ops + [op])
         == if RunVerdict(cfg, s, ops).Some? then RunVerdict(cfg, s, ops) else Verdict(cfg, Run(cfg, s, ops), op)
    decreases |ops|
  {
    if ops == [] {
      assert ops + [op] == [op];
    } else {
      assert (ops + [op])[1..] == ops[1..] + [op];
      RunVerdictSnoc(cfg, Step(cfg, s, ops[0]), ops[1..], op);
    }
  }

  function Run(cfg: Config, s: State, ops: seq<Op>): State
    decreases |ops|
  {
    if ops == [] then s else Run(cfg, Step(cfg, s, ops[0]), ops[1..])
  }

  lemma {:induction false} RunConcat(cfg: Config, s: State, a: seq<Op>, b: seq<Op>)
    ensures Run(cfg, s, a + b) == Run(cfg, Run(cfg, s, a), b)
    decreases |a|
  {
    if a == [] {
      assert a + b == b;
    } else {
      assert (a + b)[1..] == a[1..] + b;
      RunConcat(cfg, Step(cfg, s, a[0]), a[1..], b);
    }
  }

  lemma Run1(cfg: Config, s: State, op: Op)
    ensures Run(cfg, s, [op]) == Step(cfg, s, op)
  {
    assert [op][1..] == [];
  }

  /** Output is only ever appended. */
  lemma {:induction false} StepGrows(cfg: Config, s: State, op: Op)
    ensures s.log <= Step(cfg, s, op).log
  {
    hide NewLine, Separator, Print, Quote, Decimal, FieldText, Session, IsFirst, IsObject;
  }

  lemma FieldStep(cfg: Config, m: State, key: Text)
    requires !m.failed && m.stack != [] && IsObject(Top(m))
    ensures Step(cfg, m, Field(key)) == Append(SetTop(m, OBJECT_NOT_FIRST), FieldText(cfg, m, key))
  {
  }

  lemma EndStep(cfg: Config, m: State, op: Op)
    requires !m.failed && (op == ObjectEnd || op == ArrayEnd)
    ensures Step(cfg, m, op) == End(cfg, m, if op.ObjectEnd? then RBRACE else RBRACKET, op.ObjectEnd?)
  {
  }

  // ----- writer equals encoder -----

  /** The call that writes a scalar. */
  function ScalarOp(v: Val): Op {
    match v
    case Bool(b) => WriteBool(b)
    case Int(i) => WriteInt(i)
    case Num(t) => WriteFloat(t)
    case Str(s) => WriteString(s)
    case _ => WriteNull
  }

  predicate IsContainer(v: Val) {
    v.Arr? || v.Obj?
  }

  /** Driving the API with a tree: containers are started and ended as documents and as member
      values; array elements go through the scalar writers or WriteValue. */
  function Drive(v: Val): seq<Op>
    decreases v, 1
  {
    match v
    case Obj(members) => [ObjectStart] + DriveMembers(members) + [ObjectEnd]
    case Arr(items) => [ArrayStart] + DriveItems(items) + [ArrayEnd]
    case _ => [ScalarOp(v)]
  }

  function DriveItems(items: seq<Val>): seq<Op> {
    if items == [] then []
    else [DriveItem(items[0])] + DriveItems(items[1..])
  }

  function DriveItem(v: Val): Op {
    if IsContainer(v) then WriteValue(map[], v) else ScalarOp(v)
  }

  function DriveMembers(members: seq<Member>): seq<Op>
    decreases members, 0
  {
    if members == [] then [] else DriveMember(members[0]) + DriveMembers(members[1..])
  }

  function DriveMember(m: Member): seq<Op>
    decreases m, 2
  {
    [Field(KeyText(m.key))] + Drive(m.value)
  }

  /** Frames the drive needs on the stack. */
  function Frames(v: Val): nat
    decreases v, 1
  {
    match v
    case Obj(members) => 1 + MemberFrames(members)
    case Arr(_) => 1
    case _ => 0
  }

  function MemberFrames(members: seq<Member>): nat
    decreases members, 0
  {
    if members == [] then 0 else Max(FramesOf(members[0]), MemberFrames(members[1..]))
  }

  function FramesOf(m: Member): nat
    decreases m, 2
  {
    Frames(m.value)
  }

  /** A state in which a value may be written: the start of a document, or after a key. */
  predicate ExpectsValue(s: State) {
    !s.failed && (s.stack == [] || (!s.complete && Top(s) == OBJECT_NOT_FIRST))
  }

  /** A state in which a container may be started: there too, and among the elements of an array,
      where the calls for it put no separator. */
  predicate ExpectsContainer(s: State) {
    !s.failed && (s.stack == [] || !s.complete)
  }

  /** The state after a value has been written there. */
  function Written(s: State, t: Text): State {
    s.(log := s.log + Session(s) + t, complete := s.stack == [])
  }

  /** Driving the writer with a tree appends exactly what the batch encoder prints for it, in
      compact and indented mode. */
  lemma {:induction false} DriveEqualsPrint(cfg: Config, s: State, v: Val)
    requires if IsContainer(v) then ExpectsContainer(s) else ExpectsValue(s) && s.stack != []
    requires IsTree(v) && Height(v) <= cfg.maxDepth && |s.stack| + Frames(v) <= MAX_WRITE_DEPTH
    ensures Run(cfg, s, Drive(v)) == Written(s, Print(cfg, v, Level(s)))
    decreases v, 1
  {
    match v
    case Arr(items) => DriveArray(cfg, s, items);
    case Obj(members) => DriveObject(cfg, s, members);
    case _ => DriveScalar(cfg, s, v);
  }

  lemma DriveScalar(cfg: Config, s: State, v: Val)
    requires ExpectsValue(s) && IsTree(v) && !IsContainer(v) && s.stack != []
    ensures Run(cfg, s, [ScalarOp(v)]) == Written(s, Print(cfg, v, Level(s)))
  {
    Run1(cfg, s, ScalarOp(v));
    assert s.log + [] == s.log;
  }

  lemma AppendAppend(s: State, a: Text, b: Text)
    ensures Append(Append(s, a), b) == Append(s, a + b)
  {
    assert s.log + a + b == s.log + (a + b);
  }

  lemma DriveArray(cfg: Config, s: State, items: seq<Val>)
    requires ExpectsContainer(s) && IsTree(Arr(items)) && Height(Arr(items)) <= cfg.maxDepth
        && |s.stack| < MAX_WRITE_DEPTH
    ensures Run(cfg, s, Drive(Arr(items))) == Written(s, Print(cfg, Arr(items), Level(s)))
  {
    var s1 := Start(s, LBRACKET, ARRAY_FIRST);
    DriveItemsPrint(cfg, s1, items);
    var s2 := Run(cfg, s1, DriveItems(items));
    assert s1.stack[..|s.stack|] == s.stack && s1.log + [] == s1.log;
    EndedArray(cfg, s, s2, items);
    RunBracketed(cfg, s, ArrayStart, DriveItems(items), ArrayEnd);
  }

  lemma RunBracketed(cfg: Config, s: State, open: Op, ops: seq<Op>, close: Op)
    ensures Run(cfg, s, [open] + ops + [close]) == Step(cfg, Run(cfg, Step(cfg, s, open), ops), close)
  {
    RunConcat(cfg, s, [open] + ops, [close]);
    RunConcat(cfg, s, [open], ops);
    Run1(cfg, s, open);
    Run1(cfg, Run(cfg, Step(cfg, s, open), ops), close);
  }

  lemma {:induction false} EndedArray(cfg: Config, s: State, s2: State, items: seq<Val>)
    requires !s.failed
        && s2 == s.(log := s2.log, stack := s.stack + [if items == [] then ARRAY_FIRST else ARRAY_NOT_FIRST],
            complete := false)
    requires s2.log
        == s.log + Session(s) + [LBRACKET]
            + (if items == [] then [] else NewLine(cfg, Level(s) + 1) + PrintItems(cfg, items, Level(s) + 1))
    ensures Step(cfg, s2, ArrayEnd) == Written(s, Print(cfg, Arr(items), Level(s)))
  {
    var o, frame := s.log + Session(s), if items == [] then ARRAY_FIRST else ARRAY_NOT_FIRST;
    var level := Level(s);
    PrintArray(cfg, o, items, level);
    EndStep(cfg, s2, ArrayEnd);
    assert IsFirst(frame) <==> items == [];
    assert !IsObject(frame);
    hide Step, Session, NewLine, Print, PrintItems, End, IsObject, IsFirst;
    ArrayBody(o, NewLine(cfg, level + 1), PrintItems(cfg, items, level + 1), NewLine(cfg, level));
    Ended(cfg, s, s2, frame, RBRACKET, false, Print(cfg, Arr(items), level));
  }

  lemma ArrayBody(o: Text, nl: Text, body: Text, end: Text)
    ensures o + [LBRACKET] + (nl + body) + end + [RBRACKET] == o + [LBRACKET] + nl + body + end + [RBRACKET]
    ensures o + [LBRACKET] + [] + [] + [RBRACKET] == o + [LBRACKET] + [RBRACKET]
  {
    assert o + [LBRACKET] + (nl + body) == o + [LBRACKET] + nl + body;
    assert o + [LBRACKET] + [] + [] == o + [LBRACKET];
  }

  /** Closing the frame that was opened on `s` when the text of the container is complete. */
  lemma Ended(cfg: Config, s: State, s2: State, frame: nat, bracket: byte, isObject: bool, t: Text)
    requires s2 == State(s2.log, s.stack + [frame], false, s.failed, s.encodeFailed) && IsObject(frame) == isObject
    requires s2.log + (if IsFirst(frame) then [] else NewLine(cfg, Level(s))) + [bracket] == s.log + Session(s) + t
    ensures End(cfg, s2, bracket, isObject) == Written(s, t)
  {
    assert s2.stack[..|s.stack|] == s.stack;
    hide NewLine, Session, IsObject, IsFirst;
  }

  /** The elements of an array whose first element is still to come. */
  lemma {:induction false} DriveItemsPrint(cfg: Config, s: State, items: seq<Val>)
    requires !s.failed && s.stack != [] && Top(s) == ARRAY_FIRST
    requires IsTree(Arr(items)) && ItemsHeight(items) <= cfg.maxDepth
    ensures Run(cfg, s, DriveItems(items))
         == if items == [] then s
            else Append(SetTop(s, ARRAY_NOT_FIRST), NewLine(cfg, Level(s)) + PrintItems(cfg, items, Level(s)))
  {
    if items != [] {
      var level := Level(s);
      var nl, t := NewLine(cfg, level), Print(cfg, items[0], level);
      var base := SetTop(s, ARRAY_NOT_FIRST);
      ItemParts(items);
      hide Run, Print, PrintItems, NewLine, IsTree, Height, ItemsHeight, Step, Separator, DriveItems, DriveItem, Comma;
      assert Comma(cfg, s) == Append(base, nl) by { FirstComma(cfg, s); }
      ItemStep(cfg, s, items[0]);
      RunCons(cfg, s, DriveItems(items));
      AppendAppend(base, nl, t);
      DriveMoreItems(cfg, Append(base, nl + t), items[1..]);
      FirstAndMoreItems(cfg, base, nl, items, level);
    }
  }

  lemma FirstComma(cfg: Config, s: State)
    requires s.stack != [] && Top(s) == ARRAY_FIRST
    ensures Comma(cfg, s) == Append(SetTop(s, ARRAY_NOT_FIRST), NewLine(cfg, Level(s)))
  {
  }

  lemma {:induction false} ItemParts(items: seq<Val>)
    requires items != []
    ensures ItemsHeight(items) >= Height(items[0]) && ItemsHeight(items) >= ItemsHeight(items[1..])
    ensures IsTree(Arr(items)) ==> IsTree(items[0]) && IsTree(Arr(items[1..]))
    ensures DriveItems(items) == [DriveItem(items[0])] + DriveItems(items[1..])
    ensures |items| == 1 ==> DriveItems(items[1..]) == []
  {
  }

  lemma Rejoin(s: State, lead: Text, t: Text, sep: Text, rest: Text)
    ensures Append(Append(s, lead + t), sep + rest) == Append(s, lead + (t + sep + rest))
  {
    AppendAppend(s, lead + t, sep + rest);
    assert lead + t + (sep + rest) == lead + (t + sep + rest);
  }

  /** The first element after `lead` and the others after separators make up the body. */
  lemma FirstAndMoreItems(cfg: Config, s: State, lead: Text, items: seq<Val>, level: nat)
    requires items != []
    ensures var s1 := Append(s, lead + Print(cfg, items[0], level));
            (if |items| == 1 then s1 else Append(s1, Separator(cfg, level) + PrintItems(cfg, items[1..], level)))
            == Append(s, lead + PrintItems(cfg, items, level))
  {
    Rejoin(s, lead, Print(cfg, items[0], level), Separator(cfg, level), PrintItems(cfg, items[1..], level));
  }

  lemma FirstAndMoreMembers(cfg: Config, s: State, lead: Text, members: seq<Member>, level: nat)
    requires members != []
    ensures var s1 := Append(s, lead + PrintMember(cfg, members[0], level));
            (if |members| == 1 then s1 else Append(s1, Separator(cfg, level) + PrintMembers(cfg, members[1..], level)))
            == Append(s, lead + PrintMembers(cfg, members, level))
  {
    Rejoin(s, lead, PrintMember(cfg, members[0], level), Separator(cfg, level), PrintMembers(cfg, members[1..], level));
  }

  lemma RunCons(cfg: Config, s: State, ops: seq<Op>)
    requires ops != []
    ensures Run(cfg, s, ops) == Run(cfg, Step(cfg, s, ops[0]), ops[1..])
  {
  }

  /** One array element. */
  lemma ItemStep(cfg: Config, s: State, v: Val)
    requires !s.failed && s.stack != [] && IsTree(v) && Height(v) <= cfg.maxDepth
    ensures Step(cfg, s, DriveItem(v)) == Append(Comma(cfg, s), Print(cfg, v, Level(s)))
  {
    if IsContainer(v) {
      Reflection.EncodeTree(map[], v, 0, [], cfg.maxDepth);
    }
  }

  lemma {:induction false} DriveMoreItems(cfg: Config, s: State, items: seq<Val>)
    requires !s.failed && s.stack != [] && Top(s) == ARRAY_NOT_FIRST
    requires IsTree(Arr(items)) && ItemsHeight(items) <= cfg.maxDepth
    ensures Run(cfg, s, DriveItems(items))
         == if items == [] then s else Append(s, Separator(cfg, Level(s)) + PrintItems(cfg, items, Level(s)))
    decreases |items|
  {
    if items != [] {
      var level := Level(s);
      var sep, t := Separator(cfg, level), Print(cfg, items[0], level);
      ItemParts(items);
      assert Comma(cfg, s) == Append(s, sep);
      hide Run, Print, PrintItems, NewLine, IsTree, Height, ItemsHeight, Step, Separator, DriveItems, DriveItem, Comma;
      ItemStep(cfg, s, items[0]);
      RunCons(cfg, s, DriveItems(items));
      AppendAppend(s, sep, t);
      DriveMoreItems(cfg, Append(s, sep + t), items[1..]);
      FirstAndMoreItems(cfg, s, sep, items, level);
    }
  }

  lemma {:induction false} DriveObject(cfg: Config, s: State, members: seq<Member>)
    requires ExpectsContainer(s) && IsTree(Obj(members)) && Height(Obj(members)) <= cfg.maxDepth
    requires |s.stack| + 1 + MemberFrames(members) <= MAX_WRITE_DEPTH
    ensures Run(cfg, s, Drive(Obj(members))) == Written(s, Print(cfg, Obj(members), Level(s)))
    decreases members, 1
  {
    var s1 := Start(s, LBRACE, OBJECT_FIRST);
    DriveMembersPrint(cfg, s1, members);
    var s2 := Run(cfg, s1, DriveMembers(members));
    assert s1.stack[..|s.stack|] == s.stack && s1.log + [] == s1.log;
    EndedObject(cfg, s, s2, members);
    RunBracketed(cfg, s, ObjectStart, DriveMembers(members), ObjectEnd);
  }

  lemma {:induction false} EndedObject(cfg: Config, s: State, s2: State, members: seq<Member>)
    requires !s.failed
        && s2 == s.(log := s2.log, stack := s.stack + [if members == [] then OBJECT_FIRST else OBJECT_NOT_FIRST],
            complete := false)
    requires s2.log == s.log + Session(s) + [LBRACE] + Entries(cfg, members, Level(s) + 1)
    ensures Step(cfg, s2, ObjectEnd) == Written(s, Print(cfg, Obj(members), Level(s)))
  {
    var o, frame := s.log + Session(s), if members == [] then OBJECT_FIRST else OBJECT_NOT_FIRST;
    PrintObject(cfg, o, members, Level(s));
    EndStep(cfg, s2, ObjectEnd);
    assert IsFirst(frame) <==> members == [];
    assert IsObject(frame);
    assert members == [] ==> Entries(cfg, members, Level(s) + 1) == [];
    hide Step, Session, NewLine, Print, Entries, End, IsObject, IsFirst;
    assert members == [] ==> o + [LBRACE] + [] + [] + [RBRACE] == o + [LBRACE] + [RBRACE];
    Ended(cfg, s, s2, frame, RBRACE, true, Print(cfg, Obj(members), Level(s)));
  }

  /** The members of an object whose first member is still to come. */
  lemma {:induction false} DriveMembersPrint(cfg: Config, s: State, members: seq<Member>)
    requires !s.failed && !s.complete && s.stack != [] && Top(s) == OBJECT_FIRST
    requires IsTree(Obj(members)) && MembersHeight(members) <= cfg.maxDepth
    requires |s.stack| + MemberFrames(members) <= MAX_WRITE_DEPTH
    ensures Run(cfg, s, DriveMembers(members))
         == if members == [] then s else Append(SetTop(s, OBJECT_NOT_FIRST), Entries(cfg, members, Level(s)))
    decreases members, 0
  {
    if members != [] {
      var level := Level(s);
      var nl, t := NewLine(cfg, level), PrintMember(cfg, members[0], level);
      var base := SetTop(s, OBJECT_NOT_FIRST);
      DriveMemberPrint(cfg, s, members[0]);
      DriveMoreMembers(cfg, Append(base, nl + t), members[1..]);
      RunConcat(cfg, s, DriveMember(members[0]), DriveMembers(members[1..]));
      hide DriveMember, Print, NewLine, Quote;
      FirstAndMoreMembers(cfg, base, nl, members, level);
    }
  }

  /** A key and its value. */
  lemma {:induction false} DriveMemberPrint(cfg: Config, s: State, m: Member)
    requires !s.failed && !s.complete && s.stack != [] && IsObject(Top(s))
        && (Top(s) == OBJECT_FIRST || Top(s) == OBJECT_NOT_FIRST)
    requires IsTree(m.value) && MemberHeight(m) <= cfg.maxDepth
    requires |s.stack| + FramesOf(m) <= MAX_WRITE_DEPTH
    ensures Run(cfg, s, DriveMember(m))
         == Append(SetTop(s, OBJECT_NOT_FIRST),
                   (if Top(s) == OBJECT_FIRST then NewLine(cfg, Level(s)) else Separator(cfg, Level(s)))
                       + PrintMember(cfg, m, Level(s)))
    decreases m, 2
  {
    var key := KeyText(m.key);
    var base, level := SetTop(s, OBJECT_NOT_FIRST), Level(s);
    var lead := if Top(s) == OBJECT_FIRST then NewLine(cfg, level) else Separator(cfg, level);
    var name, t := Quote(cfg.escapeHTML, key) + ColonText(cfg), Print(cfg, m.value, level);
    assert PrintMember(cfg, m, level) == name + t;
    assert DriveMember(m) == [Field(key)] + Drive(m.value);
    assert FramesOf(m) == Frames(m.value) && MemberHeight(m) == Height(m.value);
    hide Run, Print, NewLine, Separator, Quote, PrintMember, ColonText, Drive, DriveMember, IsTree, Height, Frames;
    KeyDriven(cfg, s, key, lead, name);
    var s1 := Append(base, lead + name);
    RunConcat(cfg, s, [Field(key)], Drive(m.value));
    ValueDriven(cfg, s1, m.value);
    JoinMember(base, lead, name, t);
  }

  lemma JoinMember(s: State, lead: Text, name: Text, t: Text)
    ensures Append(Append(s, lead + name), t) == Append(s, lead + (name + t))
  {
    AppendAppend(s, lead + name, t);
    assert lead + name + t == lead + (name + t);
  }

  /** A key with what precedes and follows it. */
  lemma KeyDriven(cfg: Config, s: State, key: Text, lead: Text, name: Text)
    requires !s.failed && s.stack != [] && IsObject(Top(s)) && (Top(s) == OBJECT_FIRST || Top(s) == OBJECT_NOT_FIRST)
    requires lead == if Top(s) == OBJECT_FIRST then NewLine(cfg, Level(s)) else Separator(cfg, Level(s))
    requires name == Quote(cfg.escapeHTML, key) + ColonText(cfg)
    ensures Run(cfg, s, [Field(key)]) == Append(SetTop(s, OBJECT_NOT_FIRST), lead + name)
  {
    hide Run, NewLine, Separator, Quote, ColonText;
    Run1(cfg, s, Field(key));
    FieldStep(cfg, s, key);
    hide Step;
    assert lead + Quote(cfg.escapeHTML, key) + ColonText(cfg) == lead + name;
  }

  /** A value inside a container. */
  lemma {:induction false} ValueDriven(cfg: Config, s: State, v: Val)
    requires ExpectsValue(s) && IsTree(v) && Height(v) <= cfg.maxDepth && |s.stack| + Frames(v) <= MAX_WRITE_DEPTH
    requires s.stack != []
    ensures Run(cfg, s, Drive(v)) == Append(s, Print(cfg, v, Level(s)))
    decreases v, 2
  {
    DriveEqualsPrint(cfg, s, v);
    assert s.log + [] == s.log;
    hide Run, Print, Drive;
  }

  lemma {:induction false} DriveMoreMembers(cfg: Config, s: State, members: seq<Member>)
    requires !s.failed && !s.complete && s.stack != [] && Top(s) == OBJECT_NOT_FIRST
    requires IsTree(Obj(members)) && MembersHeight(members) <= cfg.maxDepth
    requires |s.stack| + MemberFrames(members) <= MAX_WRITE_DEPTH
    ensures Run(cfg, s, DriveMembers(members))
         == if members == [] then s else Append(s, Separator(cfg, Level(s)) + PrintMembers(cfg, members, Level(s)))
    decreases members, 0
  {
    if members != [] {
      var level := Level(s);
      var sep, t := Separator(cfg, level), PrintMember(cfg, members[0], level);
      assert SetTop(s, OBJECT_NOT_FIRST) == s;
      DriveMemberPrint(cfg, s, members[0]);
      DriveMoreMembers(cfg, Append(s, sep + t), members[1..]);
      RunConcat(cfg, s, DriveMember(members[0]), DriveMembers(members[1..]));
      FirstAndMoreMembers(cfg, s, sep, members, level);
    }
  }

  // ----- containers as array elements -----

  predicate Containers(cfg: Config, s: State, items: seq<Val>) {
    forall i | 0 <= i < |items| ::
      && IsContainer(items[i]) && IsTree(items[i]) && Height(items[i]) <= cfg.maxDepth
      && |s.stack| + Frames(items[i]) <= MAX_WRITE_DEPTH
  }

  /** Elements that are containers, with the separating call that the caller has to make. */
  function DriveContainers(items: seq<Val>): seq<Op> {
    if items == [] then []
    else if |items| == 1 then Drive(items[0])
    else Drive(items[0]) + [WriteMore] + DriveContainers(items[1..])
  }

  lemma {:induction false} DriveContainersPrint(cfg: Config, s: State, items: seq<Val>)
    requires !cfg.doIndent && !s.failed && s.stack != [] && !s.complete && Containers(cfg, s, items)
    ensures Run(cfg, s, DriveContainers(items)) == Append(s, PrintItems(cfg, items, Level(s)))
    decreases |items|
  {
    hide Run, Print, IsTree, Height, Frames, Drive;
    if items == [] {
      RunNothing(cfg, s);
      assert s.log + [] == s.log;
    } else {
      var t := Print(cfg, items[0], Level(s));
      DriveEqualsPrint(cfg, s, items[0]);
      assert s.log + [] == s.log;
      assert Written(s, t) == Append(s, t);
      if |items| > 1 {
        var s1 := Append(s, t);
        var s2 := Append(s1, [COMMA]);
        assert Containers(cfg, s2, items[1..]);
        DriveContainersPrint(cfg, s2, items[1..]);
        RunConcat(cfg, s, Drive(items[0]) + [WriteMore], DriveContainers(items[1..]));
        RunConcat(cfg, s, Drive(items[0]), [WriteMore]);
        Run1(cfg, s1, WriteMore);
        AppendAppend(s, t, [COMMA]);
        AppendAppend(s, t + [COMMA], PrintItems(cfg, items[1..], Level(s)));
        assert Separator(cfg, Level(s)) == [COMMA];
      }
    }
  }

  lemma RunNothing(cfg: Config, s: State)
    ensures Run(cfg, s, []) == s
  {
  }

  /** Driving an array of containers with a separating call between its elements appends its text in
      compact mode. */
  lemma ArrayOfContainers(cfg: Config, s: State, items: seq<Val>)
    requires !cfg.doIndent && ExpectsContainer(s) && |s.stack| < MAX_WRITE_DEPTH
    requires Containers(cfg, Start(s, LBRACKET, ARRAY_FIRST), items)
    ensures Run(cfg, s, [ArrayStart] + DriveContainers(items) + [ArrayEnd])
        == Written(s, Print(cfg, Arr(items), Level(s)))
  {
    hide Run, Print, PrintItems, DriveContainers, Containers, IsTree, Session;
    var s1 := Start(s, LBRACKET, ARRAY_FIRST);
    DriveContainersPrint(cfg, s1, items);
    var o, body := s.log + Session(s), PrintItems(cfg, items, Level(s) + 1);
    var s2 := Append(s1, body);
    PrintArray(cfg, o, items, Level(s));
    assert s2.stack[..|s.stack|] == s.stack;
    assert o + [LBRACKET] + [] + body + [] + [RBRACKET] == o + [LBRACKET] + body + [RBRACKET];
    assert items == [] ==> body == [] by { NoItems(cfg, Level(s) + 1); }
    assert body == [] ==> o + [LBRACKET] + body == o + [LBRACKET];
    EndStep(cfg, s2, ArrayEnd);
    RunBracketed(cfg, s, ArrayStart, DriveContainers(items), ArrayEnd);
  }

  lemma NoItems(cfg: Config, level: nat)
    ensures PrintItems(cfg, [], level) == []
  {
  }

  // ----- several documents -----

  const EMPTY: State := State([], [], false, false, false)

  /** Documents separated by single line feeds. */
  function Lines(cfg: Config, docs: seq<Val>): Text {
    if docs == [] then []
    else if |docs| == 1 then Print(cfg, docs[0], 0)
    else Lines(cfg, docs[..|docs| - 1]) + [LF] + Print(cfg, docs[|docs| - 1], 0)
  }

  function DriveAll(docs: seq<Val>): seq<Op> {
    if docs == [] then [] else DriveAll(docs[..|docs| - 1]) + Drive(docs[|docs| - 1])
  }

  /** A document the writer can be driven with. */
  predicate Drivable(cfg: Config, v: Val) {
    IsTree(v) && IsContainer(v) && Height(v) <= cfg.maxDepth && Frames(v) <= MAX_WRITE_DEPTH
  }

  /** Writing several documents gives their batch texts separated by single line feeds and by
      nothing else. */
  lemma {:induction false} DocumentsAreLines(cfg: Config, docs: seq<Val>)
    requires forall i | 0 <= i < |docs| :: Drivable(cfg, docs[i])
    ensures Run(cfg, EMPTY, DriveAll(docs)) == State(Lines(cfg, docs), [], docs != [], false, false)
    decreases |docs|
  {
    if docs != [] {
      var n := |docs| - 1;
      DocumentsAreLines(cfg, docs[..n]);
      var s := State(Lines(cfg, docs[..n]), [], docs[..n] != [], false, false);
      RunConcat(cfg, EMPTY, DriveAll(docs[..n]), Drive(docs[n]));
      DriveEqualsPrint(cfg, s, docs[n]);
      assert n == 0 ==> [] + [] + Print(cfg, docs[n], 0) == Print(cfg, docs[n], 0);
    }
  }

  function Starts(k: nat): seq<Op> {
    seq(k, _ => ArrayStart)
  }

  /** 64 containers can be open at a time, and no more. */
  lemma {:induction false} NestingLimit(cfg: Config, k: nat)
    ensures RunVerdict(cfg, EMPTY, Starts(k)) == (if k <= 64 then None else Some(InvalidWriteState))
    ensures var s := Run(cfg, EMPTY, Starts(k)); (s.failed <==> k > 64) && (k <= 64 ==> |s.stack| == k)
  {
    if k > 0 {
      NestingLimit(cfg, k - 1);
      assert Starts(k) == Starts(k - 1) + [ArrayStart];
      RunConcat(cfg, EMPTY, Starts(k - 1), [ArrayStart]);
      Run1(cfg, Run(cfg, EMPTY, Starts(k - 1)), ArrayStart);
      RunVerdictSnoc(cfg, EMPTY, Starts(k - 1), ArrayStart);
      hide Run, RunVerdict;
    }
  }
}
