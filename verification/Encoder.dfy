/** The encoder object: a buffer of some capacity that may be bound to a writer and then flushes
    to it whenever it reaches a threshold, the cycle detector's two tiers, and the reflective
    encoding methods that append to the buffer. */
module Encoding {
  import opened Bytes
  import opened Integers
  import opened Strings
  import opened Values
  import opened Reflection

  /** A writer that takes each slice whole or fails and takes nothing. `accepts` decides for
      every call, so that a sink stands for all failure points. */
  class Sink {
    const accepts: nat -> bool
    var calls: nat
    var sent: Text

    constructor (accepts: nat -> bool)
      ensures this.accepts == accepts && calls == 0 && sent == []
    {
      this.accepts := accepts;
      calls, sent := 0, [];
    }

    /** How many calls have failed. */
    ghost function Failures(): nat
      reads this
    {
      Refused(accepts, calls)
    }

    method Write(p: Text) returns (ok: bool)
      modifies this
      ensures ok == accepts(old(calls)) && calls == old(calls) + 1
      ensures Failures() == old(Failures()) + (if ok then 0 else 1)
      ensures sent == if ok then old(sent) + p else old(sent)
    {
      ok := accepts(calls);
      calls := calls + 1;
      if ok {
        sent := sent + p;
      }
    }

    /** Exactly one call has failed and it was the last one: nothing was written after it. */
    ghost predicate StoppedAtFailure()
      reads this
    {
      calls > 0 && !accepts(calls - 1) && Failures() == 1
    }

    /** Which calls have been accepted, then and without a failure. */
    lemma AllAccepted()
      ensures Failures() == 0 <==> forall k: nat | k < calls :: accepts(k)
      ensures StoppedAtFailure() <==> calls > 0 && !accepts(calls - 1) && forall k: nat | k < calls - 1 :: accepts(k)
    {
      NoneRefused(accepts, calls);
      if calls > 0 {
        NoneRefused(accepts, calls - 1);
      }
    }
  }

  /** How many of the first `n` calls a writer refuses. */
  function Refused(accepts: nat -> bool, n: nat): nat {
    if n == 0 then 0 else Refused(accepts, n - 1) + (if accepts(n - 1) then 0 else 1)
  }

  lemma {:induction false} NoneRefused(accepts: nat -> bool, n: nat)
    ensures Refused(accepts, n) == 0 <==> forall k: nat | k < n :: accepts(k)
  {
    if n > 0 {
      NoneRefused(accepts, n - 1);
    }
  }

  /** Encoder.streamOut: nil, the real writer, or the wrapper that remembers a failure. */
  datatype Out = NoStream | Stream(w: Sink) | ErrWriter

  /** The longest the buffer can get while bound to a writer with threshold `t`. */
  function PeakBound(t: nat): nat {
    if t <= 1 then t else 2 * t - 2
  }

  const MAX_INDENT_TABLE: nat := 16

  /** The tables of precomputed indents. */
  function IndentTable(width: nat, c: byte, level: nat): Text {
    seq(level * width, _ => c)
  }

  lemma {:induction false} IndentTableIsRepeat(width: nat, c: byte, level: nat)
    ensures IndentTable(width, c, level) == Repeat(seq(width, _ => c), level)
  {
    if level > 0 {
      IndentTableIsRepeat(width, c, level - 1);
      var unit := seq(width, _ => c);
      assert level * width == width + (level - 1) * width;
      assert IndentTable(width, c, level) == unit + IndentTable(width, c, level - 1);
    }
  }

  /** The precomputed indent of a common pattern, if there is one for this level. */
  method TableEntry(indent: Text, level: nat) returns (entry: Option<Text>)
    ensures entry.Some? ==> entry.value == Repeat(indent, level)
  {
    entry := None;
    if level <= MAX_INDENT_TABLE {
      if indent == [SPACE, SPACE] {
        assert indent == seq(2, _ => SPACE);
        IndentTableIsRepeat(2, SPACE, level);
        entry := Some(IndentTable(2, SPACE, level));
      } else if indent == [SPACE, SPACE, SPACE, SPACE] {
        assert indent == seq(4, _ => SPACE);
        IndentTableIsRepeat(4, SPACE, level);
        entry := Some(IndentTable(4, SPACE, level));
      } else if indent == [TAB] {
        assert indent == seq(1, _ => TAB);
        IndentTableIsRepeat(1, TAB, level);
        entry := Some(IndentTable(1, TAB, level));
      }
    }
  }

  /** The result of a loop that has already produced `done`. */
  function Extend<T>(done: seq<T>, r: Result<seq<T>>): Result<seq<T>> {
    match r
    case Err(e) => Err(e)
    case Ok(rest) => Ok(done + rest)
  }

  lemma ExtendNil<T>(r: Result<seq<T>>)
    ensures Extend([], r) == r
  {
    if r.Ok? {
      assert [] + r.value == r.value;
    }
  }

  lemma ExtendEnd<T>(done: seq<T>)
    ensures Extend(done, Ok([])) == Ok(done)
  {
    assert done + [] == done;
  }

  lemma ExtendCons<T>(done: seq<T>, t: T, r: Result<seq<T>>)
    ensures Extend(done, Cons(t, r)) == Extend(done + [t], r)
  {
    if r.Ok? {
      assert done + ([t] + r.value) == done + [t] + r.value;
    }
  }

  /** One round of the element loop, seen from the whole result. */
  lemma NextItem(h: Heap, items: seq<Val>, i: nat, done: seq<Val>, depth: nat, path: Path, max: int)
    requires i < |items|
    ensures var whole := Extend(done, EncodeItems(h, items[i..], depth, path, max));
            match Reflection.Encode(h, items[i], depth, path, max)
            case Err(e) => whole == Err(e)
            case Ok(t) => whole == Extend(done + [t], EncodeItems(h, items[i + 1..], depth, path, max))
  {
    assert items[i..][1..] == items[i + 1..];
    var r := Reflection.Encode(h, items[i], depth, path, max);
    if r.Ok? {
      ExtendCons(done, r.value, EncodeItems(h, items[i + 1..], depth, path, max));
    }
  }

  lemma NextMember(h: Heap, members: seq<Member>, i: nat, done: seq<Member>, depth: nat, path: Path, max: int)
    requires i < |members|
    ensures var whole := Extend(done, EncodeMembers(h, members[i..], depth, path, max));
            match EncodeMember(h, members[i], depth, path, max)
            case Err(e) => whole == Err(e)
            case Ok(t) => whole == Extend(done + [t], EncodeMembers(h, members[i + 1..], depth, path, max))
  {
    assert members[i..][1..] == members[i + 1..];
    var r := EncodeMember(h, members[i], depth, path, max);
    if r.Ok? {
      ExtendCons(done, r.value, EncodeMembers(h, members[i + 1..], depth, path, max));
    }
  }

  lemma NoEntries(h: Heap, cfg: Config, level: nat, depth: nat, path: Path)
    ensures Values.Entries(cfg, [], level) == [] && EncodeMembers(h, [], depth, path, cfg.maxDepth) == Ok([])
  {
  }

  /** No string in a value needs escaping without the HTML option. */
  predicate PlainVal(v: Val)
    decreases v, 1
  {
    match v
    case Str(s) => Plain(false, s)
    case Arr(items) => forall i | 0 <= i < |items| :: PlainVal(items[i])
    case Obj(members) =>
      forall i | 0 <= i < |members| :: Plain(false, KeyText(members[i].key)) && PlainVal(members[i].value)
    case Iface(inner) => PlainVal(inner)
    case _ => true
  }

  predicate PlainHeap(h: Heap) {
    forall r | r in h :: PlainVal(h[r])
  }

  lemma PlainItem(items: seq<Val>, i: nat)
    requires PlainVal(Arr(items)) && i < |items|
    ensures PlainVal(items[i])
  {
  }

  lemma PlainMember(members: seq<Member>, i: nat)
    requires PlainVal(Obj(members)) && i < |members|
    ensures Plain(false, KeyText(members[i].key)) && PlainVal(members[i].value)
  {
  }

  lemma NullText(cfg: Config, level: nat)
    ensures Print(cfg, Null, level) == NULL_TEXT
  {
  }

  const NO_SLOTS: seq<int> := [0, 0, 0, 0, 0, 0, 0, 0]

  /** The detector's two tiers hold exactly the pointers of `path`. */
  ghost predicate Holds(inline: seq<int>, count: nat, seen: set<int>, path: Path) {
    && |inline| == INLINE_SIZE
    && count == (if |path| < INLINE_SIZE then |path| else INLINE_SIZE)
    && inline[..count] == path[..count]
    && seen == Overflow(path)
  }

  /** What an append of `n` bytes to a slice of length `len` does to its capacity: none while
      they fit; otherwise the runtime picks one, by a rule that `growth` stands for. */
  function Appended(growth: (nat, nat) -> nat, cap: nat, len: nat, n: nat): (c: nat)
    ensures c >= cap || c >= len + n
    ensures len <= cap ==> c >= len + n
  {
    if len + n <= cap then cap else Max(len + n, growth(cap, len + n))
  }

  /** The test that is to make room for an escaped string of `n` bytes looks at what is left of
      the capacity first and at the whole capacity then: in between nothing grows. */
  predicate Overrun(cap: nat, len: nat, n: nat) {
    cap - len < n <= cap
  }

  class Encoder {
    const growth: (nat, nat) -> nat
    var buf: Text
    var cap: nat
    var config: Config
    var depth: nat
    var indentLevel: nat
    var ptrSeenInline: seq<int>
    var ptrSeenCount: nat
    var ptrSeen: set<int>
    var streamOut: Out
    var streamThreshold: nat
    var streamErr: bool

    /** Everything appended so far: what the buffer would hold without a stream. */
    ghost var log: Text
    /** The bytes of the log that have not been sent; the buffer while the writer is good. */
    ghost var pending: Text
    /** The writer the encoder was bound to, kept after it failed. */
    ghost var target: Sink?
    /** The longest the buffer has been while the writer was good. */
    ghost var peak: nat
    /** The writer's calls and the length of the log when the encoder was bound, and whether it
        has been flushed since for another reason than a full buffer. */
    ghost var firstCall: nat
    ghost var firstByte: nat
    ghost var forced: bool

    /** Consistency of buffer, writer and log. */
    ghost predicate Linked()
      reads `buf, `cap, `config, `streamOut, `streamThreshold, `streamErr, `log, `pending, `peak, `target, target
    {
      && |buf| <= cap
      && (target == null <==> streamOut.NoStream?)
      && (target == null ==> buf == log && !streamErr)
      && (target != null ==> cap >= streamThreshold > 0 && target.sent + pending == log)
      && (streamOut.Stream? ==> streamOut.w == target && pending == buf && target.Failures() == 0 && !streamErr)
      && (streamOut.Stream? && config.escapeHTML ==> |buf| < streamThreshold && peak <= PeakBound(streamThreshold))
      && (streamOut.ErrWriter? ==> streamErr && target.StoppedAtFailure())
    }

    /** The writer is called for the first time when a threshold's worth of bytes has been
        appended, unless a flush was asked for. */
    ghost predicate Patient()
      reads `streamThreshold, `log, `target, `firstCall, `firstByte, `forced, target
    {
      target != null && !forced ==> PatientAfter(0)
    }

    /** The flushes so far are due once `n` more bytes are in the log. */
    ghost predicate PatientAfter(n: nat)
      requires target != null
      reads `streamThreshold, `log, `target, `firstCall, `firstByte, target
    {
      && |log| >= firstByte
      && target.calls >= firstCall
      && |target.sent| >= firstByte
      && (target.calls == firstCall ==> |target.sent| == firstByte)
      && (target.calls > firstCall ==> |log| + n >= firstByte + streamThreshold)
    }

    /** Everything but the length bound on the buffer, which the plain escape path exceeds. */
    ghost predicate Open()
      reads `buf, `cap, `config, `streamOut, `streamThreshold, `streamErr, `log, `pending, `peak, `target,
            `firstCall, `firstByte, `forced, target
    {
      Linked() && Patient()
    }

    /** What holds between any two writes: bytes sent and buffered make up the log while the
        writer is good; afterwards the bytes sent are a prefix of it. */
    ghost predicate Valid()
      reads `buf, `cap, `config, `streamOut, `streamThreshold, `streamErr, `log, `pending, `peak, `target,
            `firstCall, `firstByte, `forced, target
      ensures Valid() ==> Open()
    {
      Open() && (streamOut.Stream? ==> |buf| < streamThreshold)
    }

    /** A batch encoder over a buffer of any capacity. */
    constructor (config: Config, capacity: nat, growth: (nat, nat) -> nat)
      ensures Valid() && streamOut.NoStream? && target == null && log == [] && this.config == config
      ensures cap == capacity && this.growth == growth
      ensures depth == 0 && indentLevel == 0 && Tracks([])
    {
      buf, log, pending := [], [], [];
      cap := capacity;
      this.config, this.growth := config, growth;
      depth, indentLevel := 0, 0;
      ptrSeenInline := NO_SLOTS;
      ptrSeenCount, ptrSeen := 0, {};
      streamOut, streamThreshold, streamErr := NoStream, 0, false;
      target, peak := null, 0;
      firstCall, firstByte, forced := 0, 0, false;
    }

    /** Without a stream the buffer holds everything appended. */
    lemma BatchBuffer()
      requires Valid() && target == null
      ensures buf == log
    {
    }

    /** A bound encoder that has seen no error still writes. */
    lemma StillGood()
      requires Valid() && target != null && !streamErr
      ensures streamOut == Stream(target) && cap >= streamThreshold
    {
    }

    /** Binding to a writer at the start of a streaming session. What was in the buffer is lost. */
    method Bind(w: Sink, threshold: nat, level: nat)
      requires 0 < threshold <= cap && w.Failures() == 0
      modifies this
      ensures Valid() && streamOut == Stream(w) && target == w && streamThreshold == threshold
      ensures config == old(config) && cap == old(cap) && log == w.sent && buf == []
      ensures depth == 0 && indentLevel == level && Tracks([])
      ensures peak == 0 && !forced && firstCall == w.calls && firstByte == |w.sent|
    {
      hide Open, Valid, Tracks;
      BindStream(w, threshold);
      ResetState(level);
    }

    method BindStream(w: Sink, threshold: nat)
      requires 0 < threshold <= cap && w.Failures() == 0
      modifies `buf, `streamOut, `streamThreshold, `streamErr, `log, `pending, `target, `peak,
               `firstCall, `firstByte, `forced
      ensures Valid() && streamOut == Stream(w) && target == w && streamThreshold == threshold
      ensures log == w.sent && buf == []
      ensures peak == 0 && !forced && firstCall == w.calls && firstByte == |w.sent|
    {
      hide Open, Valid;
      firstCall, firstByte, forced := w.calls, |w.sent|, false;
      buf, pending, log, peak := [], [], w.sent, 0;
      streamOut, streamThreshold, streamErr, target := Stream(w), threshold, false, w;
      JustBound(w);
    }

    lemma JustBound(w: Sink)
      requires streamOut == Stream(w) && target == w && 0 < streamThreshold <= cap && !streamErr && w.Failures() == 0
      requires buf == pending == [] && log == w.sent && peak == 0 && firstCall == w.calls && firstByte == |w.sent|
      ensures Valid()
    {
      hide Refused, PeakBound;
      assert PeakBound(streamThreshold) >= 0;
      assert w.sent + [] == w.sent;
    }

    /** The end of a streaming session. */
    method Unbind()
      modifies `streamOut, `streamThreshold, `log, `pending, `target
      ensures streamOut == NoStream && target == null && log == buf
      ensures !streamErr && |buf| <= cap ==> Valid()
    {
      streamOut, streamThreshold, target := NoStream, 0, null;
      log, pending := buf, buf;
    }

    /** Depth, indentation and cycle detector as in a new encoder. */
    method ResetState(level: nat)
      modifies `depth, `indentLevel, `ptrSeenInline, `ptrSeenCount, `ptrSeen
      ensures depth == 0 && indentLevel == level && Tracks([])
    {
      depth, indentLevel := 0, level;
      ptrSeenInline := NO_SLOTS;
      ptrSeenCount, ptrSeen := 0, {};
    }

    /** The append of both write methods; a good writer's peak is taken here. */
    method Append(p: Text)
      requires |buf| <= cap
      modifies `buf, `cap, `log, `pending, `peak
      ensures buf == old(buf) + p && log == old(log) + p && pending == old(pending) + p
      ensures cap == Appended(growth, old(cap), |old(buf)|, |p|)
      ensures peak == if streamOut.Stream? then Max(old(peak), |buf|) else old(peak)
    {
      cap := Appended(growth, cap, |buf|, |p|);
      buf, log, pending := buf + p, log + p, pending + p;
      if streamOut.Stream? {
        peak := Max(peak, |buf|);
      }
    }

    /** The buffer has been filled by `p` and, at the threshold, emptied into a good writer. */
    twostate predicate Filled(p: Text)
      reads `buf, `streamOut, `streamThreshold, `peak
    {
      old(streamOut.Stream?) ==>
        && peak == Max(old(peak), |old(buf)| + |p|)
        && (|old(buf)| + |p| < streamThreshold ==> buf == old(buf) + p && streamOut == old(streamOut))
    }

    method WriteByte(b: byte)
      requires Open()
      modifies `buf, `cap, `streamOut, `streamErr, `log, `pending, `peak, target
      ensures Valid() && log == old(log) + [b] && Filled([b])
      ensures target == null ==> cap == Appended(growth, old(cap), |old(log)|, 1)
    {
      Append([b]);
      if !streamOut.NoStream? && |buf| >= streamThreshold {
        FlushToStream();
      }
    }

    method WriteBytes(p: Text)
      requires Valid()
      modifies `buf, `cap, `streamOut, `streamErr, `log, `pending, `peak, target
      ensures Valid() && log == old(log) + p
      ensures |p| < streamThreshold ==> Filled(p)
    {
      hide Refused;
      if !streamOut.NoStream? && |p| >= streamThreshold {
        WriteDirect(p);
        return;
      }
      Append(p);
      if !streamOut.NoStream? && |buf| >= streamThreshold {
        FlushToStream();
      }
    }

    /** A slice as long as the threshold goes to the writer without passing through the buffer. */
    method WriteDirect(p: Text)
      requires Valid() && target != null && |p| >= streamThreshold
      modifies `buf, `streamOut, `streamErr, `log, `pending, target
      ensures Valid() && log == old(log) + p
    {
      hide PeakBound, Refused, Sink.StoppedAtFailure, Sink.Failures;
      if |buf| > 0 {
        FlushToStream();
      }
      log := log + p;
      if streamOut.Stream? {
        Send(p);
      } else {
        pending := pending + p;
        streamErr := true;
        assert target.sent + pending == log;
      }
    }

    /** Writes `p`, which the log already has, to a good writer with nothing buffered. */
    method Send(p: Text)
      requires target != null && streamOut == Stream(target)
      requires buf == pending == [] && !streamErr && cap >= streamThreshold > 0
      requires target.Failures() == 0 && target.sent + p == log
      requires config.escapeHTML ==> peak <= PeakBound(streamThreshold)
      modifies `streamOut, `streamErr, `pending, target
      ensures Linked() && target.calls == old(target.calls) + 1 && |target.sent| >= |old(target.sent)|
    {
      hide PeakBound, Refused;
      var ok := streamOut.w.Write(p);
      if ok {
        assert target.sent + [] == target.sent;
      } else {
        pending := p;
        streamErr := true;
        streamOut := ErrWriter;
      }
    }

    /** What there is to write to a writer that is still good. */
    ghost predicate CanFlush()
      reads `buf, `streamOut
    {
      streamOut.Stream? && buf != []
    }

    /** Writes the buffer to the bound writer, in one call; a no-op without one, after a failure
        and when nothing is buffered. */
    method FlushToStream()
      requires !streamOut.Stream? ==> Linked()
      requires streamOut.Stream? ==> |buf| <= cap && cap >= streamThreshold > 0 && !streamErr
      requires streamOut.Stream? ==> streamOut.w == target && target.Failures() == 0
      requires streamOut.Stream? ==> pending == buf && target.sent + buf == log
      requires streamOut.Stream? && config.escapeHTML ==> peak <= PeakBound(streamThreshold)
      modifies `buf, `streamOut, `streamErr, `pending, target
      ensures Linked() && (streamOut.Stream? ==> |buf| < streamThreshold)
      ensures |buf| <= |old(buf)| && (streamOut.Stream? ==> buf == [])
      ensures !old(CanFlush()) ==>
        streamOut == old(streamOut)
            && (target != null ==> target.calls == old(target.calls) && target.sent == old(target.sent))
      ensures old(CanFlush()) ==>
        && target.calls == old(target.calls) + 1
        && (streamOut.Stream? <==> target.accepts(old(target.calls)))
        && target.sent == old(target.sent) + (if streamOut.Stream? then old(buf) else [])
    {
      if streamOut.NoStream? || |buf| == 0 {
        return;
      }
      match streamOut {
        case Stream(w) =>
          var ok := w.Write(buf);
          if ok {
            buf, pending := [], [];
          } else {
            streamErr := true;
            streamOut := ErrWriter;
          }
        case _ =>
      }
    }

    /** The start of a struct: an early flush, or a larger buffer, when less capacity than the
        estimate is left. */
    method MakeRoom(estimate: nat)
      requires Valid()
      modifies `buf, `cap, `streamOut, `streamErr, `pending, `forced, target
      ensures Valid()
      ensures target == null ==> cap == if old(cap) < estimate then |log| + estimate else old(cap)
    {
      if cap - |buf| < estimate {
        if !streamOut.NoStream? && |buf| > 0 {
          forced := true;
          FlushToStream();
        }
        if cap < estimate {
          cap := |buf| + estimate;
        }
      }
    }

    method WriteNewlineIndent()
      requires Valid()
      modifies `buf, `cap, `streamOut, `streamErr, `log, `pending, `peak, target
      ensures Valid() && log == old(log) + NewLine(config, indentLevel)
    {
      hide Open, Valid, Filled, Appended;
      if !config.doIndent {
        return;
      }
      WriteByte(LF);
      if |config.prefix| > 0 {
        WriteBytes(config.prefix);
      }
      WriteIndents(indentLevel);
    }

    /** The indents of a line, from a table where there is one. */
    method WriteIndents(level: nat)
      requires Valid()
      modifies `buf, `cap, `streamOut, `streamErr, `log, `pending, `peak, target
      ensures Valid() && log == old(log) + Repeat(config.indent, level)
    {
      hide Open, Valid;
      var entry := TableEntry(config.indent, level);
      if entry.Some? {
        WriteBytes(entry.value);
        return;
      }
      for i := 0 to level
        invariant Valid() && log == old(log) + Repeat(config.indent, i)
      {
        WriteBytes(config.indent);
        RepeatSnoc(config.indent, i);
      }
    }

    /** The comma and line break before every element but the first. */
    method WriteSeparator()
      requires Valid()
      modifies `buf, `cap, `streamOut, `streamErr, `log, `pending, `peak, target
      ensures Valid() && log == old(log) + Separator(config, indentLevel)
    {
      hide Open, Valid;
      WriteByte(COMMA);
      WriteNewlineIndent();
    }

    /** The opening bracket and, before a first element, the step to the next indentation level. */
    method OpenContainer(bracket: byte, nonEmpty: bool)
      requires Valid()
      modifies `buf, `cap, `streamOut, `streamErr, `log, `pending, `peak, `indentLevel, target
      ensures Valid() && indentLevel == old(indentLevel) + (if nonEmpty then 1 else 0)
      ensures log == old(log) + [bracket] + (if nonEmpty then NewLine(config, indentLevel) else [])
    {
      hide Open, Valid;
      WriteByte(bracket);
      if nonEmpty {
        indentLevel := indentLevel + 1;
        WriteNewlineIndent();
      }
    }

    /** The step back to the level of the opening bracket, and the closing bracket. */
    method CloseContainer(bracket: byte, nonEmpty: bool)
      requires Valid() && (nonEmpty ==> indentLevel > 0)
      modifies `buf, `cap, `streamOut, `streamErr, `log, `pending, `peak, `indentLevel, target
      ensures Valid() && indentLevel == old(indentLevel) - (if nonEmpty then 1 else 0)
      ensures log == old(log) + (if nonEmpty then NewLine(config, indentLevel) else []) + [bracket]
    {
      hide Open, Valid;
      if nonEmpty {
        indentLevel := indentLevel - 1;
        WriteNewlineIndent();
      }
      WriteByte(bracket);
    }

    /** What precedes an object member: the step to the next level, or a separator. */
    method BeginEntry(first: bool)
      requires Valid()
      modifies `buf, `cap, `streamOut, `streamErr, `log, `pending, `peak, `indentLevel, target
      ensures Valid() && indentLevel == old(indentLevel) + (if first then 1 else 0)
      ensures log == old(log) + (if first then NewLine(config, indentLevel) else Separator(config, indentLevel))
    {
      hide Open, Valid;
      if first {
        indentLevel := indentLevel + 1;
        WriteNewlineIndent();
      } else {
        WriteSeparator();
      }
    }

    method WriteColonSeparator()
      requires Valid()
      modifies `buf, `cap, `streamOut, `streamErr, `log, `pending, `peak, target
      ensures Valid() && log == old(log) + ColonText(config)
    {
      hide Open, Valid;
      if config.doIndent {
        WriteByte(COLON);
        WriteByte(SPACE);
      } else {
        WriteByte(COLON);
      }
    }

    method EncodeBool(b: bool)
      requires Valid()
      modifies `buf, `cap, `streamOut, `streamErr, `log, `pending, `peak, target
      ensures Valid() && log == old(log) + BoolText(b)
    {
      if b {
        WriteBytes(TRUE_TEXT);
      } else {
        WriteBytes(FALSE_TEXT);
      }
    }

    /** Small integers come from the table, the others from the vector library's formatter. */
    method EncodeInt(i: int)
      requires Valid()
      modifies `buf, `cap, `streamOut, `streamErr, `log, `pending, `peak, target
      ensures Valid() && log == old(log) + Decimal(i)
    {
      if 0 <= i < 10000 {
        WriteBytes(SMALL_INTS[i]);
      } else {
        WriteBytes(Decimal(i));
      }
    }

    /** Without HTML escaping and without a stream the encoding of a string can end in a run-time
        panic, exactly when the string needs escapes and, after the opening quote, their length
        is more than what is left of the capacity but not more than the whole. */
    method EncodeString(s: Text) returns (err: Option<Error>)
      requires Valid()
      modifies `buf, `cap, `streamOut, `streamErr, `log, `pending, `peak, target
      ensures Valid()
      ensures err == None ==> log == old(log) + Quote(config.escapeHTML, s)
      ensures err == if Panics(s, old(cap), |old(log)|) then Some(BufferOverrun) else None
      ensures err.Some? ==> MayPanic(Plain(false, s))
    {
      hide Open, Valid, Overrun, Appended;
      var html := config.escapeHTML;
      err := None;
      Glue3(log, [QUOTE], Escape(html, s), [QUOTE]);
      WriteByte(QUOTE);
      if s == [] {
        WriteByte(QUOTE);
        return;
      }
      var needsEscape := NeedsEscape(html, s);
      if !needsEscape {
        EscapePlain(html, s);
        WriteBytes(s);
        WriteByte(QUOTE);
      } else if html {
        EncodeStringWithHTMLEscape(s);
      } else {
        err := EncodeStringPlainEscape(s);
      }
    }

    /** The condition of that panic, for a buffer of `len` bytes and capacity `capacity`. */
    ghost predicate Panics(s: Text, capacity: nat, len: nat)
      reads `config, `target
    {
      target == null && !config.escapeHTML && !Plain(false, s)
      && Overrun(Appended(growth, capacity, len, 1), len + 1, |Escape(false, s)|)
    }

    /** The escape path without HTML escaping fills the buffer in one go: the slice that is to
        take the escapes may run past the capacity, which is a panic. */
    method EncodeStringPlainEscape(s: Text) returns (err: Option<Error>)
      requires Valid() && !config.escapeHTML
      modifies `buf, `cap, `streamOut, `streamErr, `log, `pending, `peak, target
      ensures Valid()
      ensures err == None ==> log == old(log) + Escape(false, s) + [QUOTE]
      ensures var overrun := target == null && Overrun(old(cap), |old(log)|, |Escape(false, s)|);
              err == if overrun then Some(BufferOverrun) else None
    {
      hide PeakBound, Refused, Filled;
      var escaped := Escape(false, s);
      var oldLen := RoomForEscape(|escaped|);
      if oldLen + |escaped| > cap {
        return Some(BufferOverrun);
      }
      PutEscaped(oldLen, escaped);
      err := None;
    }

    /** The escapes from `oldLen` on, and the closing quote. */
    method PutEscaped(oldLen: nat, escaped: Text)
      requires Linked() && !config.escapeHTML && oldLen <= |buf| && oldLen + |escaped| <= cap
      requires !streamOut.ErrWriter? ==> oldLen == |buf|
      requires target != null && !forced ==> PatientAfter(|escaped|)
      modifies `buf, `cap, `streamOut, `streamErr, `log, `pending, `peak, target
      ensures Valid() && log == old(log) + escaped + [QUOTE]
    {
      hide PeakBound, Refused, Filled, Sink.StoppedAtFailure;
      if target != null {
        assert target.sent + (pending + escaped) == target.sent + pending + escaped;
      }
      buf, log, pending := buf[..oldLen] + escaped, log + escaped, pending + escaped;
      WriteByte(QUOTE);
    }

    /** When room for `n` bytes is short, flushes if there is a stream and replaces a buffer that
        is too small as a whole. With the `n` bytes the log has then passed the threshold, since
        the capacity is no less. Without a stream, a buffer that is large enough as a whole stays. */
    method RoomForEscape(n: nat) returns (oldLen: nat)
      requires Valid() && !config.escapeHTML
      modifies `buf, `cap, `streamOut, `streamErr, `pending, target
      ensures Linked() && oldLen <= |buf| && (streamOut.Stream? ==> oldLen == |buf|)
      ensures target != null && !forced ==> PatientAfter(n)
      ensures target == null ==> Valid() && oldLen == |log| && (oldLen + n > cap <==> Overrun(old(cap), |log|, n))
      ensures target != null ==> oldLen + n <= cap
    {
      hide PeakBound, Refused;
      oldLen := |buf|;
      if cap - oldLen < n {
        if !streamOut.NoStream? && oldLen > 0 {
          FlushToStream();
          oldLen := 0;
        }
        if cap < n {
          cap := |buf| + n;
          oldLen := |buf|;
        }
      }
    }

    method EncodeStringWithHTMLEscape(s: Text)
      requires Valid()
      modifies `buf, `cap, `streamOut, `streamErr, `log, `pending, `peak, target
      ensures Valid() && log == old(log) + Escape(true, s) + [QUOTE]
    {
      hide Open, Valid;
      for i := 0 to |s|
        invariant Valid() && log == old(log) + Escape(true, s[..i])
      {
        WriteEscaped(s[i]);
        EscapeSnoc(true, old(log), s, i);
      }
      assert s[..|s|] == s;
      WriteByte(QUOTE);
    }

    /** One byte of the HTML escape loop. */
    method WriteEscaped(c: byte)
      requires Valid()
      modifies `buf, `cap, `streamOut, `streamErr, `log, `pending, `peak, target
      ensures Valid() && log == old(log) + EscapeByte(true, c)
    {
      hide Open, Valid;
      if c == QUOTE || c == BACKSLASH || c == SLASH {
        WritePair(BACKSLASH, c);
      } else if c == 0x08 {
        WritePair(BACKSLASH, 0x62);
      } else if c == 0x0C {
        WritePair(BACKSLASH, 0x66);
      } else if c == LF {
        WritePair(BACKSLASH, 0x6E);
      } else if c == CR {
        WritePair(BACKSLASH, 0x72);
      } else if c == TAB {
        WritePair(BACKSLASH, 0x74);
      } else if c == 0x3C {
        WriteBytes([BACKSLASH, 0x75, ZERO, ZERO, 0x33, 0x63]);
      } else if c == 0x3E {
        WriteBytes([BACKSLASH, 0x75, ZERO, ZERO, 0x33, 0x65]);
      } else if c == 0x26 {
        WriteBytes([BACKSLASH, 0x75, ZERO, ZERO, 0x32, 0x36]);
      } else if c < 0x20 {
        WritePair(BACKSLASH, 0x75);
        WritePair(ZERO, ZERO);
        WritePair(HEX_DIGITS[(c as int) / 16], HEX_DIGITS[(c as int) % 16]);
      } else {
        WriteByte(c);
      }
    }

    method WritePair(a: byte, b: byte)
      requires Valid()
      modifies `buf, `cap, `streamOut, `streamErr, `log, `pending, `peak, target
      ensures Valid() && log == old(log) + [a, b]
    {
      hide Open, Valid;
      WriteByte(a);
      WriteByte(b);
    }

    // ----- cycle detection state -----

    /** The inline array and the map hold the pointers of `path`. */
    ghost predicate Tracks(path: Path)
      reads `ptrSeenInline, `ptrSeenCount, `ptrSeen
    {
      Holds(ptrSeenInline, ptrSeenCount, ptrSeen, path)
    }

    /** A call that encodes text without bytes to escape (`plain`) never panics; nor does any call
        with HTML escaping or a stream. */
    ghost predicate MayPanic(plain: bool)
      reads `config, `target
    {
      !plain && !config.escapeHTML && target == null
    }

    /** What an encoding call that started with `before` in the log and at indentation `level`
        has done: the text of the tree is appended, or the error is returned. A panic unwinds
        like an error; nothing looks at the encoder after it. */
    ghost predicate Wrote(r: Result<Val>, err: Option<Error>, before: Text, level: nat, plain: bool)
      reads `log, `indentLevel, `config, `target
    {
      if err == Some(BufferOverrun) then MayPanic(plain)
      else
        match r
        case Ok(t) => err == None && indentLevel == level && log == before + Print(config, t, level)
        case Err(e) => err == Some(e)
    }

    /** Encoder.Encode on one value: scalars directly, everything else through EncodeValue. */
    method Encode(h: Heap, v: Val) returns (err: Option<Error>)
      requires Valid() && depth == 0 && Tracks([])
      modifies `buf, `cap, `streamOut, `streamErr, `log, `pending, `peak, `depth, `indentLevel,
               `ptrSeenInline, `ptrSeenCount, `ptrSeen, target
      ensures Valid() && depth == 0 && Tracks([])
      ensures Wrote(EncodeTop(h, v, config.maxDepth), err, old(log), old(indentLevel), PlainVal(v) && PlainHeap(h))
      ensures v.Str? ==> (err == Some(BufferOverrun) <==> Panics(v.s, old(cap), |old(log)|))
    {
      hide Open, Valid, Holds, Panics, Plain, PlainHeap;
      err := None;
      match v {
        case Str(s) => err := EncodeString(s);
        case Int(i) => EncodeInt(i);
        case Num(text) => WriteBytes(text);
        case Bool(b) => EncodeBool(b);
        case Null => WriteBytes(NULL_TEXT);
        case _ => err := EncodeValue(h, v, []);
      }
    }

    /** encodeValue. `path` names the pointers entered so far. On success the text of the
        value's tree has been appended; every exit restores depth and the cycle detector. */
    method EncodeValue(h: Heap, v: Val, ghost path: Path) returns (err: Option<Error>)
      requires Valid() && Tracks(path)
      modifies `buf, `cap, `streamOut, `streamErr, `log, `pending, `peak, `depth, `indentLevel,
               `ptrSeenInline, `ptrSeenCount, `ptrSeen, target
      ensures Valid() && Tracks(path) && depth == old(depth)
      ensures Wrote(Reflection.Encode(h, v, depth, path, config.maxDepth),
                    err, old(log), old(indentLevel), PlainVal(v) && PlainHeap(h))
      decreases Room(depth, config.maxDepth), Free(h, path), v, 2
    {
      hide Open, Valid, Holds, EncodeItems, EncodeMembers, Panics, Plain, PlainHeap;
      if depth >= config.maxDepth {
        return Some(TooDeep);
      }
      err := None;
      match v {
        case Null => WriteBytes(NULL_TEXT);
        case Bool(b) => EncodeBool(b);
        case Int(i) => EncodeInt(i);
        case Num(text) => WriteBytes(text);
        case Str(s) => err := EncodeString(s);
        case Arr(items) => err := EncodeSlice(h, items, path);
        case Obj(members) => err := EncodeMap(h, members, path);
        case Iface(inner) => err := EncodeValue(h, inner, path);
        case Alias(r) => err := EncodeAlias(h, r, path);
        case Ptr(r) =>
          if r !in h {
            WriteBytes(NULL_TEXT);
          } else {
            err := EncodePointer(h, r, path);
          }
        case Unsupported => err := Some(BadType);
      }
    }

    /** A slice or map that may be nil, or shared. */
    method EncodeAlias(h: Heap, r: Ref, ghost path: Path) returns (err: Option<Error>)
      requires Valid() && Tracks(path) && depth < config.maxDepth
      modifies `buf, `cap, `streamOut, `streamErr, `log, `pending, `peak, `depth, `indentLevel,
               `ptrSeenInline, `ptrSeenCount, `ptrSeen, target
      ensures Valid() && Tracks(path) && depth == old(depth)
      ensures Wrote(Reflection.Encode(h, Alias(r), depth, path, config.maxDepth),
                    err, old(log), old(indentLevel), PlainHeap(h))
      decreases Room(depth, config.maxDepth), Free(h, path), Alias(r), 1
    {
      hide Open, Valid, Holds, EncodeItems, EncodeMembers, Print;
      err := None;
      if r !in h {
        WriteBytes(NULL_TEXT);
        NullText(config, indentLevel);
      } else {
        match h[r] {
          case Arr(items) => err := EncodeSlice(h, items, path);
          case Obj(members) => err := EncodeMap(h, members, path);
          case _ => err := Some(BadType);
        }
      }
    }

    /** The pointer case of encodeValue: the two-tier test, the element, and the deferred undo. */
    method EncodePointer(h: Heap, r: Ref, ghost path: Path) returns (err: Option<Error>)
      requires Valid() && Tracks(path) && r in h && depth < config.maxDepth
      modifies `buf, `cap, `streamOut, `streamErr, `log, `pending, `peak, `depth, `indentLevel,
               `ptrSeenInline, `ptrSeenCount, `ptrSeen, target
      ensures Valid() && Tracks(path) && depth == old(depth)
      ensures Wrote(Reflection.Encode(h, Ptr(r), depth, path, config.maxDepth),
                    err, old(log), old(indentLevel), PlainHeap(h))
      decreases Room(depth, config.maxDepth), Free(h, path), Ptr(r), 1
    {
      hide Open, Valid, Print, Holds, Clash, Free;
      var entered, inline := EnterPointer(r.addr, path);
      if !entered {
        return Some(Cycle(r.addr));
      }
      FreeShrinks(h, path, r);
      err := EncodeValue(h, h[r], path + [r.addr]);
      LeavePointer(r.addr, inline, path);
    }

    /** Looks for the address in the tier that is in use and, when it is new, records it there. */
    method EnterPointer(ptr: int, ghost path: Path) returns (entered: bool, inline: bool)
      requires Tracks(path)
      modifies `ptrSeenInline, `ptrSeenCount, `ptrSeen
      ensures entered <==> !Clash(path, ptr)
      ensures Tracks(if entered then path + [ptr] else path)
      ensures inline <==> |path| < INLINE_SIZE
    {
      ghost var inner := path + [ptr];
      assert inner[..|path|] == path;
      inline := ptrSeenCount < INLINE_SIZE;
      if inline {
        var i := 0;
        while i < ptrSeenCount
          invariant i <= ptrSeenCount && ptr !in ptrSeenInline[..i]
        {
          if ptrSeenInline[i] == ptr {
            assert path[i] == ptr;
            return false, inline;
          }
          i := i + 1;
        }
        assert path == ptrSeenInline[..ptrSeenCount];
        ptrSeenInline := ptrSeenInline[ptrSeenCount := ptr];
        ptrSeenCount := ptrSeenCount + 1;
        assert ptrSeenInline[..ptrSeenCount] == inner;
      } else {
        if ptr in ptrSeen {
          return false, inline;
        }
        ptrSeen := ptrSeen + {ptr};
        assert inner[..INLINE_SIZE] == path[..INLINE_SIZE];
      }
      return true, inline;
    }

    /** The deferred undo of EnterPointer. */
    method LeavePointer(ptr: int, inline: bool, ghost path: Path)
      requires Tracks(path + [ptr]) && !Clash(path, ptr) && (inline <==> |path| < INLINE_SIZE)
      modifies `ptrSeenCount, `ptrSeen
      ensures Tracks(path)
    {
      ghost var inner := path + [ptr];
      assert inner[..|path|] == path;
      if inline {
        assert ptrSeenInline[..ptrSeenCount - 1] == inner[..ptrSeenCount][..ptrSeenCount - 1];
        ptrSeenCount := ptrSeenCount - 1;
      } else {
        ptrSeen := ptrSeen - {ptr};
        assert inner[..INLINE_SIZE] == path[..INLINE_SIZE];
      }
    }

    method EncodeSlice(h: Heap, items: seq<Val>, ghost path: Path) returns (err: Option<Error>)
      requires Valid() && Tracks(path) && depth < config.maxDepth
      modifies `buf, `cap, `streamOut, `streamErr, `log, `pending, `peak, `depth, `indentLevel,
               `ptrSeenInline, `ptrSeenCount, `ptrSeen, target
      ensures Valid() && Tracks(path) && depth == old(depth)
      ensures Wrote(AsArray(EncodeItems(h, items, depth + 1, path, config.maxDepth)),
                    err, old(log), old(indentLevel), PlainVal(Arr(items)) && PlainHeap(h))
      decreases Room(depth + 1, config.maxDepth), Free(h, path), items, 1
    {
      hide Open, Valid, Holds, NewLine, PrintItems, Print, EncodeItems, Free, PlainVal, PlainHeap, Appended;
      depth := depth + 1;
      ghost var l0, level := log, indentLevel;
      OpenContainer(LBRACKET, |items| > 0);
      ghost var elements := EncodeItems(h, items, depth, path, config.maxDepth);
      err := EncodeElements(h, items, path);
      depth := depth - 1;
      if err.Some? {
        return;
      }
      CloseContainer(RBRACKET, |items| > 0);
      PrintArray(config, l0, elements.value, level);
    }

    /** The element loop of encodeSlice. */
    method EncodeElements(h: Heap, items: seq<Val>, ghost path: Path) returns (err: Option<Error>)
      requires Valid() && Tracks(path) && depth <= config.maxDepth
      modifies `buf, `cap, `streamOut, `streamErr, `log, `pending, `peak, `depth, `indentLevel,
               `ptrSeenInline, `ptrSeenCount, `ptrSeen, target
      ensures Valid() && Tracks(path) && depth == old(depth)
      ensures err == Some(BufferOverrun) ==> MayPanic(PlainVal(Arr(items)) && PlainHeap(h))
      ensures err != Some(BufferOverrun) ==>
              match EncodeItems(h, items, depth, path, config.maxDepth)
              case Ok(ts) => err == None && indentLevel == old(indentLevel)
                             && |ts| == |items| && log == old(log) + PrintItems(config, ts, indentLevel)
                             && (items == [] ==> log == old(log))
              case Err(e) => err == Some(e)
      decreases Room(depth, config.maxDepth), Free(h, path), items, 0
    {
      hide Open, Valid, Holds, NewLine, Print, Separator, PlainVal, PlainHeap, Free;
      ghost var base, done: seq<Val> := log, [];
      ExtendNil(EncodeItems(h, items, depth, path, config.maxDepth));
      assert items[0..] == items;
      for i := 0 to |items|
        invariant Valid() && Tracks(path) && depth == old(depth)
        invariant indentLevel == old(indentLevel) && |done| == i
        invariant log == base + PrintItems(config, done, indentLevel)
        invariant EncodeItems(h, items, depth, path, config.maxDepth)
               == Extend(done, EncodeItems(h, items[i..], depth, path, config.maxDepth))
      {
        if i > 0 {
          WriteSeparator();
        }
        NextItem(h, items, i, done, depth, path, config.maxDepth);
        err := EncodeValue(h, items[i], path);
        if err.Some? {
          if PlainVal(Arr(items)) {
            PlainItem(items, i);
          }
          return;
        }
        ghost var t := Reflection.Encode(h, items[i], depth, path, config.maxDepth).value;
        ItemsSnoc(config, base, done, t, indentLevel);
        done := done + [t];
      }
      assert items[|items|..] == [];
      ExtendEnd(done);
      err := None;
    }

    method EncodeMap(h: Heap, members: seq<Member>, ghost path: Path) returns (err: Option<Error>)
      requires Valid() && Tracks(path) && depth < config.maxDepth
      modifies `buf, `cap, `streamOut, `streamErr, `log, `pending, `peak, `depth, `indentLevel,
               `ptrSeenInline, `ptrSeenCount, `ptrSeen, target
      ensures Valid() && Tracks(path) && depth == old(depth)
      ensures Wrote(AsObject(EncodeMembers(h, members, depth + 1, path, config.maxDepth)),
                    err, old(log), old(indentLevel), PlainVal(Obj(members)) && PlainHeap(h))
      decreases Room(depth + 1, config.maxDepth), Free(h, path), members, 1
    {
      hide Open, Valid, Holds, NewLine, PrintMembers, Print, EncodeMembers, Free, PlainVal, PlainHeap, Appended;
      depth := depth + 1;
      ghost var l0, level := log, indentLevel;
      WriteByte(LBRACE);
      ghost var entries := EncodeMembers(h, members, depth, path, config.maxDepth);
      err := EncodeEntries(h, members, path);
      depth := depth - 1;
      if err.Some? {
        return;
      }
      CloseContainer(RBRACE, |members| > 0);
      PrintObject(config, l0, entries.value, level);
    }

    /** The loop of encodeMap; its first round goes one indentation level down. */
    method EncodeEntries(h: Heap, members: seq<Member>, ghost path: Path) returns (err: Option<Error>)
      requires Valid() && Tracks(path) && depth <= config.maxDepth
      modifies `buf, `cap, `streamOut, `streamErr, `log, `pending, `peak, `depth, `indentLevel,
               `ptrSeenInline, `ptrSeenCount, `ptrSeen, target
      ensures Valid() && Tracks(path) && depth == old(depth)
      ensures err == Some(BufferOverrun) ==> MayPanic(PlainVal(Obj(members)) && PlainHeap(h))
      ensures err != Some(BufferOverrun) ==>
              match EncodeMembers(h, members, depth, path, config.maxDepth)
              case Ok(ts) => err == None && |ts| == |members|
                             && indentLevel == old(indentLevel) + (if members == [] then 0 else 1)
                             && log == old(log) + Values.Entries(config, ts, old(indentLevel) + 1)
              case Err(e) => err == Some(e)
      decreases Room(depth, config.maxDepth), Free(h, path), members, 0
    {
      hide Open, Valid, Holds, NewLine, Values.Entries, PrintMember, Separator, EncodeMembers, EncodeMember,
           Extend, Free, PlainVal, PlainHeap;
      var first := true;
      ghost var level, done: seq<Member> := indentLevel + 1, [];
      NoEntries(h, config, level, depth, path);
      ExtendNil(EncodeMembers(h, members, depth, path, config.maxDepth));
      assert members[0..] == members;
      for i := 0 to |members|
        invariant Valid() && Tracks(path) && depth == old(depth)
        invariant first == (i == 0) && |done| == i
        invariant indentLevel == (if first then level - 1 else level)
        invariant log == old(log) + Values.Entries(config, done, level)
        invariant EncodeMembers(h, members, depth, path, config.maxDepth)
               == Extend(done, EncodeMembers(h, members[i..], depth, path, config.maxDepth))
      {
        NextMember(h, members, i, done, depth, path, config.maxDepth);
        err := EncodeEntry(h, members[i], first, path);
        first := false;
        if err.Some? {
          if PlainVal(Obj(members)) {
            PlainMember(members, i);
          }
          return;
        }
        ghost var t := EncodeMember(h, members[i], depth, path, config.maxDepth).value;
        EntriesSnoc(config, old(log), done, t, level);
        done := done + [t];
      }
      assert members[|members|..] == [];
      ExtendEnd(done);
      err := None;
    }

    /** The body of the map loop: separator, key, colon, value. */
    method EncodeEntry(h: Heap, m: Member, first: bool, ghost path: Path) returns (err: Option<Error>)
      requires Valid() && Tracks(path)
      modifies `buf, `cap, `streamOut, `streamErr, `log, `pending, `peak, `depth, `indentLevel,
               `ptrSeenInline, `ptrSeenCount, `ptrSeen, target
      ensures Valid() && Tracks(path) && depth == old(depth)
      ensures err == Some(BufferOverrun) ==> MayPanic(Plain(false, KeyText(m.key)) && PlainVal(m.value) && PlainHeap(h))
      ensures err != Some(BufferOverrun) ==>
              match EncodeMember(h, m, depth, path, config.maxDepth)
              case Ok(t) => err == None && indentLevel == old(indentLevel) + (if first then 1 else 0)
                            && log == old(log)
                                + (if first then NewLine(config, indentLevel) else Separator(config, indentLevel))
                                      + PrintMember(config, t, indentLevel)
              case Err(e) => err == Some(e)
      decreases Room(depth, config.maxDepth), Free(h, path), m, 2
    {
      hide Open, Valid, Holds, Print, Quote, ColonText, NewLine, Separator, PlainVal, PlainHeap, Overrun, Appended;
      BeginEntry(first);
      var keyStr := [];
      match m.key {
        case Name(s) => keyStr := s;
        case IntKey(k) => keyStr := Decimal(k);
        case OtherKey => return Some(BadType);
      }
      ghost var l0 := log;
      err := EncodeString(keyStr);
      if err.Some? {
        return;
      }
      WriteColonSeparator();
      err := EncodeValue(h, m.value, path);
      if err == None {
        Glue3(l0, Quote(config.escapeHTML, keyStr), ColonText(config),
              Print(config, EncodeMember(h, m, depth, path, config.maxDepth).value.value, indentLevel));
      }
    }
  }

  /** The scratch space a pooled encoder starts with. */
  const SCRATCH: nat := 256

  /** Marshal of a string. Without HTML escaping it panics exactly when the string needs escapes
      and their length is that of the scratch space. */
  method MarshalText(config: Config, growth: (nat, nat) -> nat, s: Text) returns (r: Result<Text>)
    ensures r == if !config.escapeHTML && !Plain(false, s) && |Escape(false, s)| == 256 then Err(BufferOverrun)
                 else Ok(Quote(config.escapeHTML, s))
  {
    hide Encoder.Open, Encoder.Valid, Plain, Quote, Encoder.Tracks;
    var e := new Encoder(config, SCRATCH, growth);
    var err := e.Encode(map[], Str(s));
    if err == None {
      e.BatchBuffer();
      assert [] + Quote(config.escapeHTML, s) == Quote(config.escapeHTML, s);
    }
    r := if err == None then Ok(e.buf) else Err(err.value);
  }

  /** Such strings exist: 128 quotation marks. */
  lemma {:induction false} EscapedQuotes(n: nat)
    ensures |Escape(false, seq(n, _ => QUOTE))| == 2 * n
    ensures n > 0 ==> !Plain(false, seq(n, _ => QUOTE))
  {
    var s := seq(n, _ => QUOTE);
    if n > 0 {
      assert s[0] == QUOTE;
      assert s[1..] == seq(n - 1, _ => QUOTE);
      EscapedQuotes(n - 1);
    }
  }

  /** The bound on the peak is reached for every threshold: by one byte at threshold 1, and
      otherwise by two slices that are one byte short of the threshold. */
  method PeakReached(config: Config, growth: (nat, nat) -> nat, threshold: nat) returns (e: Encoder)
    requires threshold > 0
    ensures fresh(e) && e.Valid() && e.streamThreshold == threshold && e.peak == PeakBound(threshold)
  {
    hide Encoder.Open, Encoder.Valid, Encoder.Tracks;
    var w := new Sink(_ => true);
    e := new Encoder(config, threshold, growth);
    e.Bind(w, threshold, 0);
    if threshold == 1 {
      e.WriteByte(SPACE);
    } else {
      var p := seq(threshold - 1, _ => SPACE);
      e.WriteBytes(p);
      e.WriteBytes(p);
    }
  }

  /** Whether the encoder leaves its fast path: short strings are scanned byte by byte, longer
      ones by the vector library and then for the HTML bytes. */
  method NeedsEscape(html: bool, s: Text) returns (needs: bool)
    ensures needs <==> !Plain(html, s)
  {
    needs := false;
    if |s| < 8 {
      for i := 0 to |s|
        invariant Plain(html, s[..i])
      {
        var c := s[i];
        if c == QUOTE || c == BACKSLASH || c == SLASH || c < 0x20 {
          return true;
        }
        if html && (c == 0x3C || c == 0x3E || c == 0x26) {
          return true;
        }
      }
      assert s[..|s|] == s;
    } else {
      needs := !Plain(false, s);
      if !needs && html {
        for i := 0 to |s|
          invariant Plain(html, s[..i])
        {
          var c := s[i];
          if c == 0x3C || c == 0x3E || c == 0x26 {
            return true;
          }
        }
        assert s[..|s|] == s;
      }
    }
  }
}
