/** Compiled code, the interpreter and the hybrid on typed memory, working on an encoder object:
    what they append is the document of the tree that the functions of Compiler decide on, and
    their errors are the ones decided there. */
module FastEncoding {
  import opened Bytes
  import opened Strings
  import opened Values
  import opened Reflection
  import opened Encoding
  import opened Compiler

  // ----- field names -----

  /** Names are written between quotes without escaping. */
  function EncodedName(name: Text): Text {
    [QUOTE] + name + [QUOTE]
  }

  lemma {:induction false} EscapeGrows(html: bool, s: Text)
    ensures |Escape(html, s)| >= |s| && (!Plain(html, s) ==> |Escape(html, s)| > |s|)
  {
    if s != [] {
      EscapeGrows(html, s[1..]);
      if !Plain(html, s) && Plain(html, s[1..]) {
        assert Special(html, s[0]);
      }
    }
  }

  /** That is a proper key exactly when the name has no byte that needs escaping. */
  lemma EncodedNameExact(html: bool, name: Text)
    ensures EncodedName(name) == Quote(html, name) <==> Plain(html, name)
  {
    EscapeGrows(html, name);
    if Plain(html, name) {
      EscapePlain(html, name);
    }
  }

  /** The room a struct asks for before it is written: braces, names, colons and a guess. */
  function EstimatedSize(fs: seq<Field>): nat {
    if fs == [] then 2
    else |EncodedName(fs[0].name)| + 1 + 15 + (if fs[0].omitEmpty then 0 else 1) + EstimatedSize(fs[1..])
  }

  /** No string in memory needs escaping without the HTML option. */
  predicate PlainData(v: Data) {
    match v
    case Chars(s) => Plain(false, s)
    case Pointer(_, target) => PlainData(target)
    case Slice(items) => forall i | 0 <= i < |items| :: PlainData(items[i])
    case Record(fields) => forall i | 0 <= i < |fields| :: PlainData(fields[i])
    case _ => true
  }

  lemma PlainElement(items: seq<Data>, i: nat)
    requires PlainData(Slice(items)) && i < |items|
    ensures PlainData(items[i])
  {
  }

  lemma PlainSlot(fields: seq<Data>, i: nat)
    requires PlainData(Record(fields)) && i < |fields|
    ensures PlainData(fields[i])
  {
  }

  predicate PlainFields(html: bool, fs: seq<FieldCode>)
    decreases fs, 0
  {
    fs != [] ==> Plain(html, fs[0].name) && PlainField(html, fs[0]) && PlainFields(html, fs[1..])
  }

  predicate PlainField(html: bool, f: FieldCode)
    decreases f, 2
  {
    PlainCode(html, f.code)
  }

  predicate PlainCode(html: bool, c: Code)
    decreases c, 1
  {
    match c
    case CPtr(e) => PlainCode(html, e)
    case CSlice(e) => PlainCode(html, e)
    case CStruct(fs) => PlainFields(html, fs)
    case _ => true
  }

  // ----- one round of each loop, seen from the whole result -----

  lemma RunNextItem(c: Code, items: seq<Data>, i: nat, done: seq<Val>, depth: nat, max: int)
    requires i < |items| && ItemsFit(c, items[i..])
    ensures ItemsFit(c, items[i + 1..]) && Fits(c, items[i])
    ensures var whole := Extend(done, RunItems(c, items[i..], depth, max));
            match Run(c, items[i], depth, max)
            case Err(e) => whole == Err(e)
            case Ok(t) => whole == Extend(done + [t], RunItems(c, items[i + 1..], depth, max))
  {
    assert items[i..][1..] == items[i + 1..];
    var r := Run(c, items[i], depth, max);
    if r.Ok? {
      ExtendCons(done, r.value, RunItems(c, items[i + 1..], depth, max));
    }
  }

  lemma RunNextField(fs: seq<FieldCode>, vs: seq<Data>, i: nat, done: seq<Member>, depth: nat, max: int)
    requires i < |fs| && |fs| == |vs| && FieldsFit(fs[i..], vs[i..])
    ensures FieldsFit(fs[i + 1..], vs[i + 1..]) && Fits(fs[i].code, vs[i])
    ensures var whole, rest := Extend(done, RunFields(fs[i..], vs[i..], depth, max)),
        RunFields(fs[i + 1..], vs[i + 1..], depth, max);
            if Skips(fs[i], vs[i]) then whole == Extend(done, rest)
            else
              match Run(fs[i].code, vs[i], depth, max)
              case Err(e) => whole == Err(e)
              case Ok(t) => whole == Extend(done + [Member(Name(fs[i].name), t)], rest)
  {
    assert fs[i..][1..] == fs[i + 1..] && vs[i..][1..] == vs[i + 1..];
    var r := Run(fs[i].code, vs[i], depth, max);
    if r.Ok? {
      ExtendCons(done, Member(Name(fs[i].name), r.value), RunFields(fs[i + 1..], vs[i + 1..], depth, max));
    }
  }

  lemma InterpNextItem(t: Typ, items: seq<Data>, i: nat, done: seq<Val>, depth: nat, path: Path, max: int)
    requires i < |items| && ItemsHaveType(t, items[i..])
    ensures ItemsHaveType(t, items[i + 1..]) && HasType(t, items[i])
    ensures var whole := Extend(done, InterpItems(t, items[i..], depth, path, max));
            match Interp(t, items[i], depth, path, true, max)
            case Err(e) => whole == Err(e)
            case Ok(r) => whole == Extend(done + [r], InterpItems(t, items[i + 1..], depth, path, max))
  {
    assert items[i..][1..] == items[i + 1..];
    var r := Interp(t, items[i], depth, path, true, max);
    if r.Ok? {
      ExtendCons(done, r.value, InterpItems(t, items[i + 1..], depth, path, max));
    }
  }

  lemma InterpNextField(fs: seq<Field>, vs: seq<Data>, i: nat, done: seq<Member>, depth: nat, path: Path, max: int)
    requires i < |fs| && |fs| == |vs| && FieldsHaveType(fs[i..], vs[i..])
    ensures FieldsHaveType(fs[i + 1..], vs[i + 1..]) && HasType(fs[i].typ, vs[i])
    ensures var whole, rest := Extend(done, InterpFields(fs[i..], vs[i..], depth, path, max)),
                               InterpFields(fs[i + 1..], vs[i + 1..], depth, path, max);
            if fs[i].omitEmpty && IsEmptyValue(fs[i].typ, vs[i]) then whole == Extend(done, rest)
            else
              match Interp(fs[i].typ, vs[i], depth, path, false, max)
              case Err(e) => whole == Err(e)
              case Ok(t) => whole == Extend(done + [Member(Name(fs[i].name), t)], rest)
  {
    assert fs[i..][1..] == fs[i + 1..] && vs[i..][1..] == vs[i + 1..];
    var r := Interp(fs[i].typ, vs[i], depth, path, false, max);
    if r.Ok? {
      ExtendCons(done, Member(Name(fs[i].name), r.value), InterpFields(fs[i + 1..], vs[i + 1..], depth, path, max));
    }
  }

  lemma HybridNextField(fs: seq<Field>, vs: seq<Data>, i: nat, done: seq<Member>, depth: nat, max: int)
    requires i < |fs| && |fs| == |vs| && FieldsHaveType(fs[i..], vs[i..])
    ensures FieldsHaveType(fs[i + 1..], vs[i + 1..]) && HasType(fs[i].typ, vs[i]) && Fits(Compile(fs[i].typ), vs[i])
    ensures var whole, rest := Extend(done, HybridFields(fs[i..], vs[i..], depth, max)),
                               HybridFields(fs[i + 1..], vs[i + 1..], depth, max);
            if fs[i].omitEmpty && IsEmptyValueUnsafe(fs[i].typ, vs[i]) then whole == Extend(done, rest)
            else
              match Run(Compile(fs[i].typ), vs[i], depth, max)
              case Err(e) => whole == Err(e)
              case Ok(t) => whole == Extend(done + [Member(Name(fs[i].name), t)], rest)
  {
    assert fs[i..][1..] == fs[i + 1..] && vs[i..][1..] == vs[i + 1..];
    CompiledFits(fs[i].typ, vs[i]);
    var r := Run(Compile(fs[i].typ), vs[i], depth, max);
    if r.Ok? {
      ExtendCons(done, Member(Name(fs[i].name), r.value), HybridFields(fs[i + 1..], vs[i + 1..], depth, max));
    }
  }

  // ----- compiled code -----

  /** Calling an encoder function. */
  method RunCode(e: Encoder, c: Code, v: Data) returns (err: Option<Error>)
    requires e.Valid() && Fits(c, v) && PlainCode(e.config.escapeHTML, c)
    modifies e`buf, e`cap, e`streamOut, e`streamErr, e`log, e`pending, e`peak, e`forced, e`depth,
             e`indentLevel, e.target
    ensures e.Valid() && e.depth == old(e.depth)
    ensures e.Wrote(Run(c, v, e.depth, e.config.maxDepth),
                    err, old(e.log), old(e.indentLevel), PlainData(v))
    decreases v, 4
  {
    hide Encoder.Open, Encoder.Valid, RunItems, RunFields, Encoder.Panics, Plain;
    err := None;
    match c {
      case CBool => e.EncodeBool(v.b);
      case CInt => e.EncodeInt(v.i);
      case CString => err := e.EncodeString(v.s);
      case CReflect =>
        if e.depth >= e.config.maxDepth {
          return Some(TooDeep);
        }
        e.WriteBytes(v.text);
      case CPtr(elem) =>
        if v.Nil? {
          e.WriteBytes(NULL_TEXT);
        } else {
          err := RunCode(e, elem, v.target);
        }
      case CSlice(elem) =>
        if v.Nil? {
          e.WriteBytes(NULL_TEXT);
        } else {
          err := RunSlice(e, elem, v.items);
        }
      case CStringSlice =>
        if v.Nil? {
          e.WriteBytes(NULL_TEXT);
        } else {
          err := RunSlice(e, CString, v.items);
        }
      case CStruct(fs) => err := RunStruct(e, fs, v.fields);
    }
  }

  /** A slice whose header is not nil: the depth is tested inside the container. */
  method RunSlice(e: Encoder, elem: Code, items: seq<Data>) returns (err: Option<Error>)
    requires e.Valid() && ItemsFit(elem, items) && PlainCode(e.config.escapeHTML, elem)
    modifies e`buf, e`cap, e`streamOut, e`streamErr, e`log, e`pending, e`peak, e`forced, e`depth,
             e`indentLevel, e.target
    ensures e.Valid() && e.depth == old(e.depth)
    ensures e.Wrote(if e.depth + 1 >= e.config.maxDepth then Err(TooDeep)
                    else AsArray(RunItems(elem, items, e.depth + 1, e.config.maxDepth)),
                    err, old(e.log), old(e.indentLevel), PlainData(Slice(items)))
    decreases items, 3
  {
    hide Encoder.Open, Encoder.Valid, PlainData, NewLine, PrintItems, Print, RunItems;
    e.depth := e.depth + 1;
    if e.depth >= e.config.maxDepth {
      e.depth := e.depth - 1;
      return Some(TooDeep);
    }
    ghost var l0, level := e.log, e.indentLevel;
    ghost var elements := RunItems(elem, items, e.depth, e.config.maxDepth);
    e.OpenContainer(LBRACKET, |items| > 0);
    err := RunElements(e, elem, items);
    e.depth := e.depth - 1;
    if err.Some? {
      return;
    }
    e.CloseContainer(RBRACKET, |items| > 0);
    PrintArray(e.config, l0, elements.value, level);
  }

  method RunElements(e: Encoder, elem: Code, items: seq<Data>) returns (err: Option<Error>)
    requires e.Valid() && ItemsFit(elem, items) && PlainCode(e.config.escapeHTML, elem)
    modifies e`buf, e`cap, e`streamOut, e`streamErr, e`log, e`pending, e`peak, e`forced, e`depth,
             e`indentLevel, e.target
    ensures e.Valid() && e.depth == old(e.depth)
    ensures err == Some(BufferOverrun) ==> e.MayPanic(PlainData(Slice(items)))
    ensures err != Some(BufferOverrun) ==>
            match RunItems(elem, items, e.depth, e.config.maxDepth)
            case Ok(ts) => err == None && e.indentLevel == old(e.indentLevel)
                           && |ts| == |items| && e.log == old(e.log) + PrintItems(e.config, ts, e.indentLevel)
                           && (items == [] ==> e.log == old(e.log))
            case Err(x) => err == Some(x)
    decreases items, 0
  {
    hide Encoder.Open, Encoder.Valid, PlainData, NewLine, Print, Separator, Fits, Run;
    ghost var base, done: seq<Val> := e.log, [];
    ExtendNil(RunItems(elem, items, e.depth, e.config.maxDepth));
    assert items[0..] == items;
    for i := 0 to |items|
      invariant e.Valid() && e.depth == old(e.depth) && ItemsFit(elem, items[i..])
      invariant e.indentLevel == old(e.indentLevel) && |done| == i
      invariant e.log == base + PrintItems(e.config, done, e.indentLevel)
      invariant RunItems(elem, items, e.depth, e.config.maxDepth)
             == Extend(done, RunItems(elem, items[i..], e.depth, e.config.maxDepth))
    {
      if i > 0 {
        e.WriteSeparator();
      }
      RunNextItem(elem, items, i, done, e.depth, e.config.maxDepth);
      err := RunCode(e, elem, items[i]);
      if err.Some? {
        if PlainData(Slice(items)) {
          PlainElement(items, i);
        }
        return;
      }
      ghost var t := Run(elem, items[i], e.depth, e.config.maxDepth).value;
      ItemsSnoc(e.config, base, done, t, e.indentLevel);
      done := done + [t];
    }
    assert items[|items|..] == [];
    ExtendEnd(done);
    err := None;
  }

  method RunStruct(e: Encoder, fs: seq<FieldCode>, vs: seq<Data>) returns (err: Option<Error>)
    requires e.Valid() && FieldsFit(fs, vs) && PlainFields(e.config.escapeHTML, fs)
    modifies e`buf, e`cap, e`streamOut, e`streamErr, e`log, e`pending, e`peak, e`forced, e`depth,
             e`indentLevel, e.target
    ensures e.Valid() && e.depth == old(e.depth)
    ensures e.Wrote(if e.depth + 1 >= e.config.maxDepth then Err(TooDeep)
                    else AsObject(RunFields(fs, vs, e.depth + 1, e.config.maxDepth)),
                    err, old(e.log), old(e.indentLevel), PlainData(Record(vs)))
    decreases vs, 3
  {
    hide Encoder.Open, Encoder.Valid, PlainData, NewLine, PrintMembers, Print, RunFields;
    e.depth := e.depth + 1;
    if e.depth >= e.config.maxDepth {
      e.depth := e.depth - 1;
      return Some(TooDeep);
    }
    ghost var l0, level := e.log, e.indentLevel;
    ghost var entries := RunFields(fs, vs, e.depth, e.config.maxDepth);
    e.WriteByte(LBRACE);
    var first;
    err, first := RunFieldLoop(e, fs, vs);
    e.depth := e.depth - 1;
    if err.Some? {
      return;
    }
    e.CloseContainer(RBRACE, !first);
    PrintObject(e.config, l0, entries.value, level);
  }

  /** What a loop over fields has done when it printed the members `r` or failed with `r`. */
  ghost predicate WroteEntries(e: Encoder, r: Result<seq<Member>>, err: Option<Error>, first: bool, before: Text,
      level: nat, plain: bool)
    reads e`log, e`indentLevel, e`config, e`target
  {
    if err == Some(BufferOverrun) then e.MayPanic(plain)
    else
      match r
      case Ok(ts) => err == None && (first <==> ts == []) && e.indentLevel == level + (if first then 0 else 1)
                     && e.log == before + Values.Entries(e.config, ts, level + 1)
      case Err(x) => err == Some(x)
  }

  lemma NoRunFields(cfg: Config, level: nat, depth: nat)
    ensures Values.Entries(cfg, [], level) == [] && RunFields([], [], depth, cfg.maxDepth) == Ok([])
  {
  }

  method RunFieldLoop(e: Encoder, fs: seq<FieldCode>, vs: seq<Data>) returns (err: Option<Error>, first: bool)
    requires e.Valid() && FieldsFit(fs, vs) && PlainFields(e.config.escapeHTML, fs)
    modifies e`buf, e`cap, e`streamOut, e`streamErr, e`log, e`pending, e`peak, e`forced, e`depth,
             e`indentLevel, e.target
    ensures e.Valid() && e.depth == old(e.depth)
    ensures WroteEntries(e, RunFields(fs, vs, e.depth, e.config.maxDepth),
                         err, first, old(e.log), old(e.indentLevel), PlainData(Record(vs)))
    decreases vs, 0
  {
    hide Encoder.Open, Encoder.Valid, PlainData, NewLine, Values.Entries, PrintMember, Separator, RunFields, Run,
        Extend,
         Fits, Plain, PlainCode, Skips;
    err, first := None, true;
    ghost var level, done: seq<Member> := e.indentLevel + 1, [];
    NoRunFields(e.config, level, e.depth);
    ExtendNil(RunFields(fs, vs, e.depth, e.config.maxDepth));
    assert fs[0..] == fs && vs[0..] == vs;
    for i := 0 to |fs|
      invariant e.Valid() && e.depth == old(e.depth) && FieldsFit(fs[i..], vs[i..])
          && PlainFields(e.config.escapeHTML, fs[i..])
      invariant err == None && (first <==> done == []) && e.indentLevel == (if first then level - 1 else level)
      invariant e.log == old(e.log) + Values.Entries(e.config, done, level)
      invariant RunFields(fs, vs, e.depth, e.config.maxDepth)
             == Extend(done, RunFields(fs[i..], vs[i..], e.depth, e.config.maxDepth))
    {
      RunNextField(fs, vs, i, done, e.depth, e.config.maxDepth);
      assert fs[i..][1..] == fs[i + 1..];
      if Skips(fs[i], vs[i]) {
        continue;
      }
      err := RunField(e, fs[i], vs[i], first);
      if err.Some? {
        if PlainData(Record(vs)) {
          PlainSlot(vs, i);
        }
        return;
      }
      first := false;
      ghost var m := Member(Name(fs[i].name), Run(fs[i].code, vs[i], e.depth, e.config.maxDepth).value);
      EntriesSnoc(e.config, old(e.log), done, m, level);
      done := done + [m];
    }
    assert fs[|fs|..] == [] && vs[|fs|..] == [];
    ExtendEnd(done);
  }

  /** The body of the field loop: separator, name, colon, value. */
  method RunField(e: Encoder, f: FieldCode, v: Data, first: bool) returns (err: Option<Error>)
    requires e.Valid() && Fits(f.code, v) && PlainCode(e.config.escapeHTML, f.code)
        && Plain(e.config.escapeHTML, f.name)
    modifies e`buf, e`cap, e`streamOut, e`streamErr, e`log, e`pending, e`peak, e`forced, e`depth,
             e`indentLevel, e.target
    ensures e.Valid() && e.depth == old(e.depth)
    ensures err == Some(BufferOverrun) ==> e.MayPanic(PlainData(v))
    ensures err != Some(BufferOverrun) ==>
            match Run(f.code, v, e.depth, e.config.maxDepth)
            case Ok(t) => err == None && e.indentLevel == old(e.indentLevel) + (if first then 1 else 0)
                          && e.log == old(e.log) + Lead(e.config, first, e.indentLevel)
                              + PrintMember(e.config, Member(Name(f.name), t), e.indentLevel)
            case Err(x) => err == Some(x)
    decreases v, 5
  {
    hide Encoder.Open, Encoder.Valid, Print, Quote, ColonText, Lead, Fits, Run, PlainCode;
    ghost var l0 := WriteName(e, f.name, first);
    err := RunCode(e, f.code, v);
    if err == None {
      Glue3(l0, Quote(e.config.escapeHTML, f.name), ColonText(e.config),
            Print(e.config, Run(f.code, v, e.depth, e.config.maxDepth).value, e.indentLevel));
    }
  }

  function Lead(cfg: Config, first: bool, level: nat): Text {
    if first then NewLine(cfg, level) else Separator(cfg, level)
  }

  /** What precedes the value of a field. */
  method WriteName(e: Encoder, name: Text, first: bool) returns (ghost before: Text)
    requires e.Valid() && Plain(e.config.escapeHTML, name)
    modifies e`buf, e`cap, e`streamOut, e`streamErr, e`log, e`pending, e`peak, e`forced, e`indentLevel, e.target
    ensures e.Valid() && e.indentLevel == old(e.indentLevel) + (if first then 1 else 0)
    ensures before == old(e.log) + Lead(e.config, first, e.indentLevel)
    ensures e.log == before + Quote(e.config.escapeHTML, name) + ColonText(e.config)
  {
    hide Encoder.Open, Encoder.Valid, PlainData, NewLine, Separator, ColonText;
    e.BeginEntry(first);
    before := e.log;
    EncodedNameExact(e.config.escapeHTML, name);
    e.WriteBytes(EncodedName(name));
    e.WriteColonSeparator();
  }

  // ----- the interpreter -----

  predicate PlainNames(html: bool, fs: seq<Field>)
    decreases fs, 0
  {
    fs != [] ==> Plain(html, fs[0].name) && PlainName(html, fs[0]) && PlainNames(html, fs[1..])
  }

  predicate PlainName(html: bool, f: Field)
    decreases f, 2
  {
    PlainType(html, f.typ)
  }

  /** All field names of a type are plain. */
  predicate PlainType(html: bool, t: Typ)
    decreases t, 1
  {
    match t
    case TPtr(e) => PlainType(html, e)
    case TSlice(e) => PlainType(html, e)
    case TStruct(fs) => PlainNames(html, fs)
    case _ => true
  }

  lemma {:induction false} CompiledPlain(html: bool, t: Typ)
    requires PlainType(html, t)
    ensures PlainCode(html, Compile(t))
    decreases t, 1
  {
    match t
    case TPtr(e) => CompiledPlain(html, e);
    case TSlice(e) => CompiledPlain(html, e);
    case TStruct(fs) => CompiledFieldsPlain(html, fs);
    case _ =>
  }

  lemma {:induction false} CompiledFieldsPlain(html: bool, fs: seq<Field>)
    requires PlainNames(html, fs)
    ensures PlainFields(html, CompileFields(fs))
    decreases fs, 0
  {
    if fs != [] {
      CompiledFieldPlain(html, fs[0]);
      CompiledFieldsPlain(html, fs[1..]);
      assert CompileFields(fs)[1..] == CompileFields(fs[1..]);
    }
  }

  lemma {:induction false} CompiledFieldPlain(html: bool, f: Field)
    requires PlainName(html, f)
    ensures PlainField(html, CompileField(f))
    decreases f, 2
  {
    CompiledPlain(html, f.typ);
  }

  /** encodeValue on typed memory. */
  method InterpValue(e: Encoder, t: Typ, v: Data, addressable: bool, ghost path: Path) returns (err: Option<Error>)
    requires e.Valid() && e.Tracks(path) && HasType(t, v) && PlainType(e.config.escapeHTML, t)
    modifies e`buf, e`cap, e`streamOut, e`streamErr, e`log, e`pending, e`peak, e`forced, e`depth, e`indentLevel,
             e`ptrSeenInline, e`ptrSeenCount, e`ptrSeen, e.target
    ensures e.Valid() && e.Tracks(path) && e.depth == old(e.depth)
    ensures e.Wrote(Interp(t, v, e.depth, path, addressable, e.config.maxDepth),
                    err, old(e.log), old(e.indentLevel), PlainData(v))
    decreases v, 4
  {
    hide Encoder.Open, Encoder.Valid, Encoder.Tracks, InterpItems, InterpFields, HybridFields, InRange, Clash,
         Encoder.Panics, Plain;
    if e.depth >= e.config.maxDepth {
      return Some(TooDeep);
    }
    err := None;
    match t {
      case TBool => e.EncodeBool(v.b);
      case TInt(_) => e.EncodeInt(v.i);
      case TString => err := e.EncodeString(v.s);
      case TOther => e.WriteBytes(v.text);
      case TPtr(elem) =>
        if v.Nil? {
          e.WriteBytes(NULL_TEXT);
        } else {
          err := InterpPointer(e, elem, v, path);
        }
      case TSlice(elem) =>
        if v.Nil? {
          e.WriteBytes(NULL_TEXT);
        } else {
          err := InterpSlice(e, elem, v.items, path);
        }
      case TStruct(fs) => err := InterpStruct(e, fs, v.fields, addressable, path);
    }
  }

  /** The pointer case of encodeValue. */
  method InterpPointer(e: Encoder, elem: Typ, v: Data, ghost path: Path) returns (err: Option<Error>)
    requires e.Valid() && e.Tracks(path) && HasType(TPtr(elem), v) && v.Pointer? && PlainType(e.config.escapeHTML, elem)
    requires e.depth < e.config.maxDepth
    modifies e`buf, e`cap, e`streamOut, e`streamErr, e`log, e`pending, e`peak, e`forced, e`depth, e`indentLevel,
             e`ptrSeenInline, e`ptrSeenCount, e`ptrSeen, e.target
    ensures e.Valid() && e.Tracks(path) && e.depth == old(e.depth)
    ensures e.Wrote(Interp(TPtr(elem), v, e.depth, path, true, e.config.maxDepth),
                    err, old(e.log), old(e.indentLevel), PlainData(v))
    decreases v, 3
  {
    hide Encoder.Open, Encoder.Valid, Encoder.Tracks, InterpItems, InterpFields, HybridFields, InRange, Clash, Print;
    var entered, inline := e.EnterPointer(v.addr, path);
    if !entered {
      return Some(Cycle(v.addr));
    }
    err := InterpValue(e, elem, v.target, true, path + [v.addr]);
    e.LeavePointer(v.addr, inline, path);
  }

  method InterpSlice(e: Encoder, elem: Typ, items: seq<Data>, ghost path: Path) returns (err: Option<Error>)
    requires e.Valid() && e.Tracks(path) && ItemsHaveType(elem, items) && PlainType(e.config.escapeHTML, elem)
    modifies e`buf, e`cap, e`streamOut, e`streamErr, e`log, e`pending, e`peak, e`forced, e`depth, e`indentLevel,
             e`ptrSeenInline, e`ptrSeenCount, e`ptrSeen, e.target
    ensures e.Valid() && e.Tracks(path) && e.depth == old(e.depth)
    ensures e.Wrote(AsArray(InterpItems(elem, items, e.depth + 1, path, e.config.maxDepth)),
                    err, old(e.log), old(e.indentLevel), PlainData(Slice(items)))
    decreases items, 3
  {
    hide Encoder.Open, Encoder.Valid, PlainData, Encoder.Tracks, NewLine, PrintItems, Print, InterpItems;
    e.depth := e.depth + 1;
    ghost var l0, level := e.log, e.indentLevel;
    ghost var elements := InterpItems(elem, items, e.depth, path, e.config.maxDepth);
    e.OpenContainer(LBRACKET, |items| > 0);
    err := InterpElements(e, elem, items, path);
    e.depth := e.depth - 1;
    if err.Some? {
      return;
    }
    e.CloseContainer(RBRACKET, |items| > 0);
    PrintArray(e.config, l0, elements.value, level);
  }

  method InterpElements(e: Encoder, elem: Typ, items: seq<Data>, ghost path: Path) returns (err: Option<Error>)
    requires e.Valid() && e.Tracks(path) && ItemsHaveType(elem, items) && PlainType(e.config.escapeHTML, elem)
    modifies e`buf, e`cap, e`streamOut, e`streamErr, e`log, e`pending, e`peak, e`forced, e`depth, e`indentLevel,
             e`ptrSeenInline, e`ptrSeenCount, e`ptrSeen, e.target
    ensures e.Valid() && e.Tracks(path) && e.depth == old(e.depth)
    ensures err == Some(BufferOverrun) ==> e.MayPanic(PlainData(Slice(items)))
    ensures err != Some(BufferOverrun) ==>
            match InterpItems(elem, items, e.depth, path, e.config.maxDepth)
            case Ok(ts) => err == None && e.indentLevel == old(e.indentLevel)
                           && |ts| == |items| && e.log == old(e.log) + PrintItems(e.config, ts, e.indentLevel)
                           && (items == [] ==> e.log == old(e.log))
            case Err(x) => err == Some(x)
    decreases items, 0
  {
    hide Encoder.Open, Encoder.Valid, PlainData, Encoder.Tracks, NewLine, Print, Separator, HasType, Interp;
    ghost var base, done: seq<Val> := e.log, [];
    ExtendNil(InterpItems(elem, items, e.depth, path, e.config.maxDepth));
    assert items[0..] == items;
    for i := 0 to |items|
      invariant e.Valid() && e.Tracks(path) && e.depth == old(e.depth) && ItemsHaveType(elem, items[i..])
      invariant e.indentLevel == old(e.indentLevel) && |done| == i
      invariant e.log == base + PrintItems(e.config, done, e.indentLevel)
      invariant InterpItems(elem, items, e.depth, path, e.config.maxDepth)
             == Extend(done, InterpItems(elem, items[i..], e.depth, path, e.config.maxDepth))
    {
      if i > 0 {
        e.WriteSeparator();
      }
      InterpNextItem(elem, items, i, done, e.depth, path, e.config.maxDepth);
      err := InterpValue(e, elem, items[i], true, path);
      if err.Some? {
        if PlainData(Slice(items)) {
          PlainElement(items, i);
        }
        return;
      }
      ghost var t := Interp(elem, items[i], e.depth, path, true, e.config.maxDepth).value;
      ItemsSnoc(e.config, base, done, t, e.indentLevel);
      done := done + [t];
    }
    assert items[|items|..] == [];
    ExtendEnd(done);
    err := None;
  }

  /** encodeStruct, which hands an addressable struct to the hybrid. */
  method InterpStruct(e: Encoder, fs: seq<Field>, vs: seq<Data>, addressable: bool, ghost path: Path)
      returns (err: Option<Error>)
    requires e.Valid() && e.Tracks(path) && FieldsHaveType(fs, vs) && PlainNames(e.config.escapeHTML, fs)
    modifies e`buf, e`cap, e`streamOut, e`streamErr, e`log, e`pending, e`peak, e`forced, e`depth, e`indentLevel,
             e`ptrSeenInline, e`ptrSeenCount, e`ptrSeen, e.target
    ensures e.Valid() && e.Tracks(path) && e.depth == old(e.depth)
    ensures e.Wrote(AsObject(if addressable then HybridFields(fs, vs, e.depth + 1, e.config.maxDepth)
                             else InterpFields(fs, vs, e.depth + 1, path, e.config.maxDepth)),
                    err, old(e.log), old(e.indentLevel), PlainData(Record(vs)))
    decreases vs, 3
  {
    hide Encoder.Open, Encoder.Valid, PlainData, Encoder.Tracks, NewLine, PrintMembers, Print, InterpFields,
        HybridFields;
    e.depth := e.depth + 1;
    if addressable {
      err := EncodeStructUnsafe(e, fs, vs);
    } else {
      err := InterpStructCopy(e, fs, vs, path);
    }
    e.depth := e.depth - 1;
  }

  /** A struct that has no address. The depth has already been stepped up. */
  method InterpStructCopy(e: Encoder, fs: seq<Field>, vs: seq<Data>, ghost path: Path) returns (err: Option<Error>)
    requires e.Valid() && e.Tracks(path) && FieldsHaveType(fs, vs) && PlainNames(e.config.escapeHTML, fs)
    modifies e`buf, e`cap, e`streamOut, e`streamErr, e`log, e`pending, e`peak, e`forced, e`depth, e`indentLevel,
             e`ptrSeenInline, e`ptrSeenCount, e`ptrSeen, e.target
    ensures e.Valid() && e.Tracks(path) && e.depth == old(e.depth)
    ensures e.Wrote(AsObject(InterpFields(fs, vs, e.depth, path, e.config.maxDepth)),
                    err, old(e.log), old(e.indentLevel), PlainData(Record(vs)))
    decreases vs, 1
  {
    hide Encoder.Open, Encoder.Valid, PlainData, Encoder.Tracks, NewLine, PrintMembers, Print, InterpFields;
    ghost var l0, level := e.log, e.indentLevel;
    ghost var entries := InterpFields(fs, vs, e.depth, path, e.config.maxDepth);
    e.MakeRoom(EstimatedSize(fs));
    e.WriteByte(LBRACE);
    var first;
    err, first := InterpFieldLoop(e, fs, vs, path);
    if err.Some? {
      return;
    }
    e.CloseContainer(RBRACE, !first);
    PrintObject(e.config, l0, entries.value, level);
  }

  /** The hybrid. The depth has already been stepped up. */
  method EncodeStructUnsafe(e: Encoder, fs: seq<Field>, vs: seq<Data>) returns (err: Option<Error>)
    requires e.Valid() && FieldsHaveType(fs, vs) && PlainNames(e.config.escapeHTML, fs)
    modifies e`buf, e`cap, e`streamOut, e`streamErr, e`log, e`pending, e`peak, e`forced, e`depth,
             e`indentLevel, e.target
    ensures e.Valid() && e.depth == old(e.depth)
    ensures e.Wrote(AsObject(HybridFields(fs, vs, e.depth, e.config.maxDepth)),
                    err, old(e.log), old(e.indentLevel), PlainData(Record(vs)))
    decreases vs, 1
  {
    hide Encoder.Open, Encoder.Valid, PlainData, NewLine, PrintMembers, Print, HybridFields;
    ghost var l0, level := e.log, e.indentLevel;
    ghost var entries := HybridFields(fs, vs, e.depth, e.config.maxDepth);
    e.MakeRoom(EstimatedSize(fs));
    e.WriteByte(LBRACE);
    var first;
    err, first := HybridFieldLoop(e, fs, vs);
    if err.Some? {
      return;
    }
    e.CloseContainer(RBRACE, !first);
    PrintObject(e.config, l0, entries.value, level);
  }

  lemma NoInterpFields(cfg: Config, level: nat, depth: nat, path: Path)
    ensures Values.Entries(cfg, [], level) == [] && InterpFields([], [], depth, path, cfg.maxDepth) == Ok([])
  {
  }

  method InterpFieldLoop(e: Encoder, fs: seq<Field>, vs: seq<Data>, ghost path: Path)
      returns (err: Option<Error>, first: bool)
    requires e.Valid() && e.Tracks(path) && FieldsHaveType(fs, vs) && PlainNames(e.config.escapeHTML, fs)
    modifies e`buf, e`cap, e`streamOut, e`streamErr, e`log, e`pending, e`peak, e`forced, e`depth, e`indentLevel,
             e`ptrSeenInline, e`ptrSeenCount, e`ptrSeen, e.target
    ensures e.Valid() && e.Tracks(path) && e.depth == old(e.depth)
    ensures WroteEntries(e, InterpFields(fs, vs, e.depth, path, e.config.maxDepth),
                         err, first, old(e.log), old(e.indentLevel), PlainData(Record(vs)))
    decreases vs, 0
  {
    hide Encoder.Open, Encoder.Valid, PlainData, Encoder.Tracks, NewLine, Values.Entries, PrintMember, Separator,
         InterpFields, Interp, Extend, HasType, Plain, PlainType, IsEmptyValue;
    err, first := None, true;
    ghost var level, done: seq<Member> := e.indentLevel + 1, [];
    NoInterpFields(e.config, level, e.depth, path);
    ExtendNil(InterpFields(fs, vs, e.depth, path, e.config.maxDepth));
    assert fs[0..] == fs && vs[0..] == vs;
    for i := 0 to |fs|
      invariant e.Valid() && e.Tracks(path) && e.depth == old(e.depth)
      invariant FieldsHaveType(fs[i..], vs[i..]) && PlainNames(e.config.escapeHTML, fs[i..])
      invariant err == None && (first <==> done == []) && e.indentLevel == (if first then level - 1 else level)
      invariant e.log == old(e.log) + Values.Entries(e.config, done, level)
      invariant InterpFields(fs, vs, e.depth, path, e.config.maxDepth)
             == Extend(done, InterpFields(fs[i..], vs[i..], e.depth, path, e.config.maxDepth))
    {
      InterpNextField(fs, vs, i, done, e.depth, path, e.config.maxDepth);
      assert fs[i..][1..] == fs[i + 1..];
      if fs[i].omitEmpty && IsEmptyValue(fs[i].typ, vs[i]) {
        continue;
      }
      err := InterpField(e, fs[i], vs[i], first, path);
      if err.Some? {
        if PlainData(Record(vs)) {
          PlainSlot(vs, i);
        }
        return;
      }
      first := false;
      ghost var m := Member(Name(fs[i].name), Interp(fs[i].typ, vs[i], e.depth, path, false, e.config.maxDepth).value);
      EntriesSnoc(e.config, old(e.log), done, m, level);
      done := done + [m];
    }
    assert fs[|fs|..] == [] && vs[|fs|..] == [];
    ExtendEnd(done);
  }

  method InterpField(e: Encoder, f: Field, v: Data, first: bool, ghost path: Path) returns (err: Option<Error>)
    requires e.Valid() && e.Tracks(path) && HasType(f.typ, v)
    requires PlainType(e.config.escapeHTML, f.typ) && Plain(e.config.escapeHTML, f.name)
    modifies e`buf, e`cap, e`streamOut, e`streamErr, e`log, e`pending, e`peak, e`forced, e`depth, e`indentLevel,
             e`ptrSeenInline, e`ptrSeenCount, e`ptrSeen, e.target
    ensures e.Valid() && e.Tracks(path) && e.depth == old(e.depth)
    ensures err == Some(BufferOverrun) ==> e.MayPanic(PlainData(v))
    ensures err != Some(BufferOverrun) ==>
            match Interp(f.typ, v, e.depth, path, false, e.config.maxDepth)
            case Ok(t) => err == None && e.indentLevel == old(e.indentLevel) + (if first then 1 else 0)
                          && e.log == old(e.log) + Lead(e.config, first, e.indentLevel)
                              + PrintMember(e.config, Member(Name(f.name), t), e.indentLevel)
            case Err(x) => err == Some(x)
    decreases v, 5
  {
    hide Encoder.Open, Encoder.Valid, Encoder.Tracks, Print, Quote, ColonText, Lead, HasType, Interp, PlainType;
    ghost var l0 := WriteName(e, f.name, first);
    err := InterpValue(e, f.typ, v, false, path);
    if err == None {
      Glue3(l0, Quote(e.config.escapeHTML, f.name), ColonText(e.config),
            Print(e.config, Interp(f.typ, v, e.depth, path, false, e.config.maxDepth).value, e.indentLevel));
    }
  }

  lemma NoHybridFields(cfg: Config, level: nat, depth: nat)
    ensures Values.Entries(cfg, [], level) == [] && HybridFields([], [], depth, cfg.maxDepth) == Ok([])
  {
  }

  /** encodeStructUnsafe's loop: compiled code for every field. */
  method HybridFieldLoop(e: Encoder, fs: seq<Field>, vs: seq<Data>) returns (err: Option<Error>, first: bool)
    requires e.Valid() && FieldsHaveType(fs, vs) && PlainNames(e.config.escapeHTML, fs)
    modifies e`buf, e`cap, e`streamOut, e`streamErr, e`log, e`pending, e`peak, e`forced, e`depth,
             e`indentLevel, e.target
    ensures e.Valid() && e.depth == old(e.depth)
    ensures WroteEntries(e, HybridFields(fs, vs, e.depth, e.config.maxDepth),
                         err, first, old(e.log), old(e.indentLevel), PlainData(Record(vs)))
    decreases vs, 0
  {
    hide Encoder.Open, Encoder.Valid, PlainData, NewLine, Values.Entries, PrintMember, Separator, HybridFields, Run,
         Extend, HasType, Plain, PlainType, PlainCode, Compile, IsEmptyValueUnsafe, Fits, GetIsEmptyFunc;
    err, first := None, true;
    ghost var level, done: seq<Member> := e.indentLevel + 1, [];
    NoHybridFields(e.config, level, e.depth);
    ExtendNil(HybridFields(fs, vs, e.depth, e.config.maxDepth));
    assert fs[0..] == fs && vs[0..] == vs;
    for i := 0 to |fs|
      invariant e.Valid() && e.depth == old(e.depth)
      invariant FieldsHaveType(fs[i..], vs[i..]) && PlainNames(e.config.escapeHTML, fs[i..])
      invariant err == None && (first <==> done == []) && e.indentLevel == (if first then level - 1 else level)
      invariant e.log == old(e.log) + Values.Entries(e.config, done, level)
      invariant HybridFields(fs, vs, e.depth, e.config.maxDepth)
             == Extend(done, HybridFields(fs[i..], vs[i..], e.depth, e.config.maxDepth))
    {
      HybridNextField(fs, vs, i, done, e.depth, e.config.maxDepth);
      assert fs[i..][1..] == fs[i + 1..];
      if fs[i].omitEmpty && IsEmptyValueUnsafe(fs[i].typ, vs[i]) {
        continue;
      }
      CompiledPlain(e.config.escapeHTML, fs[i].typ);
      err := RunField(e, CompileField(fs[i]), vs[i], first);
      if err.Some? {
        if PlainData(Record(vs)) {
          PlainSlot(vs, i);
        }
        return;
      }
      first := false;
      ghost var m := Member(Name(fs[i].name), Run(Compile(fs[i].typ), vs[i], e.depth, e.config.maxDepth).value);
      EntriesSnoc(e.config, old(e.log), done, m, level);
      done := done + [m];
    }
    assert fs[|fs|..] == [] && vs[|fs|..] == [];
    ExtendEnd(done);
  }

  // ----- entry points -----

  /** What compiled code decides for a value of a type at the top. */
  function FastResult(t: Typ, v: Data, max: int): Result<Val>
    requires HasType(t, v)
  {
    CompiledFits(t, v);
    Run(Compile(t), v, 0, max)
  }

  /** The document of a decided tree. */
  function Document(cfg: Config, r: Result<Val>): Result<Text> {
    match r
    case Ok(tree) => Ok(Print(cfg, tree, 0))
    case Err(e) => Err(e)
  }

  /** FastMarshal: a non-nil pointer is entered without a test, another value is copied to
      memory first. */
  method FastMarshal(t: Typ, v: Data, config: Config, growth: (nat, nat) -> nat) returns (r: Result<Text>)
    requires HasType(t, v) && PlainType(config.escapeHTML, t)
    ensures r == Err(BufferOverrun) ==> !config.escapeHTML && !PlainData(v)
    ensures r != Err(BufferOverrun) ==> r == Document(config, FastResult(t, v, config.maxDepth))
  {
    CompiledFits(t, v);
    CompiledPlain(config.escapeHTML, t);
    var e := new Encoder(config, SCRATCH, growth);
    var err;
    if t.TPtr? {
      if v.Nil? {
        return Ok(NULL_TEXT);
      }
      CompiledPlain(config.escapeHTML, t.elem);
      err := RunCode(e, Compile(t.elem), v.target);
    } else {
      err := RunCode(e, Compile(t), v);
    }
    if err == None {
      assert e.buf == Print(config, FastResult(t, v, config.maxDepth).value, 0);
    }
    r := if err == None then Ok(e.buf) else Err(err.value);
  }

  /** Marshal of a typed value by reflection. */
  method ReflectMarshal(t: Typ, v: Data, config: Config, growth: (nat, nat) -> nat) returns (r: Result<Text>)
    requires HasType(t, v) && PlainType(config.escapeHTML, t)
    ensures r == Err(BufferOverrun) ==> !config.escapeHTML && !PlainData(v)
    ensures r != Err(BufferOverrun) ==> r == Document(config, Interp(t, v, 0, [], false, config.maxDepth))
  {
    var e := new Encoder(config, SCRATCH, growth);
    var err := InterpValue(e, t, v, false, []);
    if err == None {
      assert e.buf == Print(config, Interp(t, v, 0, [], false, config.maxDepth).value, 0);
    }
    r := if err == None then Ok(e.buf) else Err(err.value);
  }
}
