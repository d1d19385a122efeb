/** The incremental stream encoder: the Write* API over a threshold-flushing encoder. The object
    carries the state of the machine in WriterSpec as its model; every method steps the model, and
    while no write has failed returns the machine's verdict. */
module Writing {
  import opened Bytes
  import opened Strings
  import opened Values
  import opened Reflection
  import opened Encoding
  import opened WriterSpec

  const DEFAULT_THRESHOLD: nat := 64 * 1024

  /** The bytes sent are a prefix of the model's output. */
  predicate Behind(sent: Text, m: State) {
    !m.encodeFailed ==> sent <= m.log
  }

  lemma BehindStep(cfg: Config, sent: Text, m: State, op: Op)
    requires Behind(sent, m)
    ensures Behind(sent, Step(cfg, m, op))
    ensures m.failed ==> Step(cfg, m, op).failed
    ensures m.encodeFailed ==> Step(cfg, m, op).encodeFailed
  {
    StepGrows(cfg, m, op);
  }

  lemma BehindLog(sent: Text, pending: Text, log: Text, m: State)
    requires sent + pending == log && log <= m.log
    ensures Behind(sent, m)
  {
    assert log[..|sent|] == sent;
  }

  lemma Between(before: Text, sent: Text, pending: Text, text: Text)
    requires sent + pending == before + text && |sent| >= |before|
    ensures before <= sent <= before + text && (sent == before + text <==> pending == [])
  {
    assert (sent + pending)[..|before|] == before;
    assert (before + text)[..|sent|] == sent;
  }

  /** The calls that write one value. */
  predicate IsValueOp(op: Op) {
    op.WriteString? || op.WriteInt? || op.WriteFloat? || op.WriteBool? || op.WriteNull? || op.WriteValue?
  }

  lemma CommaGrows(cfg: Config, m: State, op: Op)
    requires !m.failed && m.stack != [] && IsValueOp(op)
    ensures Comma(cfg, m).log <= Step(cfg, m, op).log
  {
  }

  class IncrementalStreamEncoder {
    const w: Sink
    const config: Config
    const flushThreshold: nat
    const enc: Encoder
    var err: Option<WriteError>
    var writeStack: seq<nat>
    var writeDepth: nat
    var writeIndentLevel: nat
    var valueComplete: bool

    /** The state the same calls lead to when no write fails, whatever the threshold. */
    ghost var model: State

    /** While no error is set the object is in the model's state and bytes sent plus bytes
        buffered are the model's output. Every error has its cause: a write that failed, or a call
        that the model refuses. After an error the bytes sent are a prefix of it (unless
        a value could not be encoded, when part of its text may have gone out). */
    ghost predicate Valid()
      reads this, enc, w, enc.target
    {
      && Linked()
      && (model.failed ==> err.Some?)
      && (err == None ==> InState(model) && !enc.streamErr)
      && (err == Some(StreamFailed) ==> w.Failures() > 0)
      && (err == Some(InvalidWriteState) ==> model.failed)
      && (err.Some? && err.value.EncodingFailed? ==> model.failed && model.encodeFailed)
      && Behind(w.sent, model)
    }

    /** The object stands where state `s` says. */
    ghost predicate InState(s: State)
      requires writeDepth <= |writeStack|
      reads this, enc, w
    {
      && Output() == s.log && writeStack[..writeDepth] == s.stack && valueComplete == s.complete
      && !s.failed && !s.encodeFailed
      && enc.indentLevel == writeIndentLevel
      && (enc.target != null ==> valueComplete == (writeDepth == 0))
    }

    /** How the parts hang together, whatever has happened. */
    ghost predicate Linked()
      reads this, enc, w, enc.target
    {
      && enc.Valid() && enc.depth == 0 && enc.Tracks([]) && enc.config == config && flushThreshold > 0
      && |writeStack| == MAX_WRITE_DEPTH && writeDepth <= MAX_WRITE_DEPTH && writeIndentLevel == writeDepth
      && (enc.target == null || (enc.target == w && enc.streamThreshold == flushThreshold))
      && (enc.target == null ==> w.Failures() == 0 && writeDepth == 0 && !valueComplete && enc.cap >= flushThreshold)
    }

    /** A call that was made without an error set returns what it returns when no write fails,
        unless a write has failed. */
    ghost predicate Outcome(verdict: Option<WriteError>)
      reads `err, w
    {
      if w.Failures() == 0 then err == verdict
      else err == Some(StreamFailed) || (err == verdict && err.Some? && err.value.EncodingFailed?)
    }

    /** Nothing is done after an error. */
    twostate predicate Sticks()
      reads this, w
    {
      old(err).Some? ==> err == old(err) && w.calls == old(w.calls) && w.sent == old(w.sent)
    }

    /** Everything written so far; before the first call, what the writer already held. */
    ghost function Output(): Text
      reads this, enc, w
    {
      if enc.target == null then w.sent else enc.log
    }

    constructor (w: Sink, config: Config, flushThreshold: int, growth: (nat, nat) -> nat)
      requires w.Failures() == 0
      ensures Valid() && this.w == w && this.config == config && err == None && writeDepth == 0 && fresh(enc)
      ensures model == State(w.sent, [], false, false, false)
      ensures this.flushThreshold == if flushThreshold <= 0 then 65536 else flushThreshold
    {
      this.w, this.config := w, config;
      var threshold := if flushThreshold <= 0 then DEFAULT_THRESHOLD else flushThreshold;
      this.flushThreshold := threshold;
      enc := new Encoder(config, threshold, growth);
      err := None;
      writeStack := seq(MAX_WRITE_DEPTH, _ => 0);
      writeDepth, writeIndentLevel, valueComplete := 0, 0, false;
      model := State(w.sent, [], false, false, false);
      new;
      assert writeStack[..0] == [];
    }

    /** Binds the encoder to the writer on the first call; between documents writes a line feed. */
    method EnsureWriteSession()
      requires Linked() && err == None && !enc.streamErr && writeDepth == 0
      requires enc.target != null ==> valueComplete
      requires enc.indentLevel == writeIndentLevel
      modifies `err, `valueComplete, enc, w
      ensures Linked() && enc.target == w && !valueComplete && enc.indentLevel == writeIndentLevel
      ensures Output() == old(Output()) + (if old(valueComplete) then [LF] else [])
      ensures err == if enc.streamErr then Some(StreamFailed) else None
    {
      if valueComplete {
        valueComplete := false;
        enc.WriteByte(LF);
        if enc.streamErr {
          err := Some(StreamFailed);
        }
        return;
      }
      assert w.sent + [] == w.sent;
      enc.Bind(w, flushThreshold, writeIndentLevel);
    }

    /** The encoder has seen an error exactly when a write has failed. */
    lemma ErrIsFailure()
      requires Linked()
      ensures enc.streamErr <==> w.Failures() > 0
      ensures enc.cap >= flushThreshold
    {
      hide Refused, Encoder.Tracks;
    }

    /** The check that ends every call: a failed write becomes the sticky error. */
    method Finish()
      requires Linked() && err == None && InState(model)
      modifies `err
      ensures Valid() && err == if enc.streamErr then Some(StreamFailed) else None
      ensures Outcome(None)
    {
      hide Refused, Encoder.Open, Encoder.Valid, Encoder.Tracks;
      ErrIsFailure();
      if enc.streamErr {
        err := Some(StreamFailed);
      }
      if enc.target == w {
        SentIsBehind();
      }
    }

    /** Bytes sent and bytes pending make up the encoder's log. */
    lemma SentIsBehind()
      requires Linked() && enc.target == w && enc.log <= model.log
      ensures Behind(w.sent, model)
    {
      BehindLog(w.sent, enc.pending, enc.log, model);
    }

    /** What validity gives a caller. While no error is set, bytes sent and bytes buffered make up
        exactly the output without a stream bound, and with HTML escaping the buffer stays below
        the threshold between writes and within the peak bound during them. In every case the
        bytes sent are a prefix of that output (unless a value could not be encoded), and
        nothing was written after a failed write. There is an error exactly when a call was
        refused or a write has failed. */
    lemma Promises()
      requires Valid()
      ensures err == None && enc.target != null ==> w.sent + enc.buf == model.log && |enc.buf| < flushThreshold
      ensures err == None && enc.target != null && config.escapeHTML ==> enc.peak <= PeakBound(flushThreshold)
      ensures err == None ==>
          writeDepth <= |writeStack| && writeStack[..writeDepth] == model.stack && writeIndentLevel == writeDepth
      ensures !model.encodeFailed ==> w.sent <= model.log
      ensures w.Failures() == 0 || w.StoppedAtFailure()
      ensures err.Some? <==> model.failed || w.Failures() > 0
    {
      hide Refused;
      ErrIsFailure();
    }

    /** WriteObjectStart and WriteArrayStart. */
    method StartContainer(bracket: byte, frame: nat, ghost op: Op)
      requires Valid()
      requires (op == ObjectStart && bracket == LBRACE && frame == OBJECT_FIRST)
            || (op == ArrayStart && bracket == LBRACKET && frame == ARRAY_FIRST)
      modifies this, enc, w
      ensures Valid() && model == Step(config, old(model), op)
      ensures Sticks() && (old(err) == None ==> Outcome(Verdict(config, old(model), op)))
    {
      hide Refused, Encoder.Open, Encoder.Valid, Encoder.Tracks;
      ghost var m := model;
      BehindStep(config, w.sent, m, op);
      model := Step(config, m, op);
      if err.Some? {
        return;
      }
      ErrIsFailure();
      if writeDepth >= MAX_WRITE_DEPTH {
        err := Some(InvalidWriteState);
        return;
      }
      if writeDepth == 0 {
        EnsureWriteSession();
        if err.Some? {
          assert m.stack == [];
          ErrIsFailure();
          SentIsBehind();
          return;
        }
      } else {
        assert m.stack != [];
        assert m.log + [] == m.log;
      }
      OpenFrame(bracket, frame);
      Finish();
    }

    /** Pushes the frame and writes the bracket. */
    method OpenFrame(bracket: byte, frame: nat)
      requires Linked() && enc.target == w && writeDepth < MAX_WRITE_DEPTH
      modifies `writeStack, `writeDepth, `writeIndentLevel, enc, w
      ensures Linked() && enc.target == w && enc.indentLevel == writeIndentLevel && writeDepth == old(writeDepth) + 1
      ensures writeStack[..writeDepth] == old(writeStack[..writeDepth]) + [frame]
      ensures enc.log == old(enc.log) + [bracket]
    {
      hide Refused, Encoder.Open, Encoder.Valid, Encoder.Tracks;
      writeStack := writeStack[writeDepth := frame];
      writeDepth := writeDepth + 1;
      writeIndentLevel := writeIndentLevel + 1;
      enc.indentLevel := writeIndentLevel;
      enc.WriteByte(bracket);
    }

    method WriteObjectStart() returns (r: Option<WriteError>)
      requires Valid()
      modifies this, enc, w
      ensures Valid() && r == err && model == Step(config, old(model), ObjectStart)
      ensures Sticks() && (old(err) == None ==> Outcome(Verdict(config, old(model), ObjectStart)))
    {
      StartContainer(LBRACE, OBJECT_FIRST, ObjectStart);
      r := err;
    }

    method WriteArrayStart() returns (r: Option<WriteError>)
      requires Valid()
      modifies this, enc, w
      ensures Valid() && r == err && model == Step(config, old(model), ArrayStart)
      ensures Sticks() && (old(err) == None ==> Outcome(Verdict(config, old(model), ArrayStart)))
    {
      StartContainer(LBRACKET, ARRAY_FIRST, ArrayStart);
      r := err;
    }

    /** WriteObjectEnd and WriteArrayEnd. */
    method EndContainer(bracket: byte, isObject: bool, ghost op: Op)
      requires Valid()
      requires (op == ObjectEnd && bracket == RBRACE && isObject)
          || (op == ArrayEnd && bracket == RBRACKET && !isObject)
      modifies this, enc, w
      ensures Valid() && model == Step(config, old(model), op)
      ensures Sticks() && (old(err) == None ==> Outcome(Verdict(config, old(model), op)))
    {
      hide Refused, Encoder.Open, Encoder.Valid, Encoder.Tracks, Step, NewLine;
      ghost var m := model;
      BehindStep(config, w.sent, m, op);
      model := Step(config, m, op);
      if err.Some? {
        return;
      }
      ErrIsFailure();
      VerdictFails(config, m, op);
      if writeDepth <= 0 {
        err := Some(InvalidWriteState);
        return;
      }
      var frame := writeStack[writeDepth - 1];
      assert frame == Top(m);
      if IsObject(frame) != isObject {
        err := Some(InvalidWriteState);
        return;
      }
      assert model == End(config, m, bracket, isObject) by { EndStep(config, m, op); }
      CloseFrame(bracket, m);
      if enc.streamErr {
        err := Some(StreamFailed);
        ErrIsFailure();
        SentIsBehind();
        return;
      }
      if writeDepth == 0 {
        valueComplete := true;
      }
      Finish();
    }

    /** Pops the frame and writes the last line break and the bracket. */
    method CloseFrame(bracket: byte, ghost m: State)
      requires Linked() && err == None && enc.target == w && writeDepth > 0 && enc.indentLevel == writeIndentLevel
      requires m.stack == writeStack[..writeDepth] && m.log == enc.log
      modifies `writeDepth, `writeIndentLevel, enc, w
      ensures Linked() && enc.target == w && enc.indentLevel == writeIndentLevel && writeDepth == old(writeDepth) - 1
      ensures writeStack[..writeDepth] == Pop(m).stack
      ensures enc.log == m.log + (if IsFirst(Top(m)) then [] else NewLine(config, writeDepth)) + [bracket]
    {
      hide Refused, Encoder.Open, Encoder.Valid, Encoder.Tracks, NewLine;
      var frame := writeStack[writeDepth - 1];
      assert frame == Top(m);
      writeDepth := writeDepth - 1;
      writeIndentLevel := writeIndentLevel - 1;
      enc.indentLevel := writeIndentLevel;
      if !IsFirst(frame) {
        enc.WriteNewlineIndent();
      }
      enc.WriteByte(bracket);
      assert m.log + [] == m.log;
      assert writeStack[..writeDepth] == m.stack[..writeDepth];
    }

    method WriteObjectEnd() returns (r: Option<WriteError>)
      requires Valid()
      modifies this, enc, w
      ensures Valid() && r == err && model == Step(config, old(model), ObjectEnd)
      ensures Sticks() && (old(err) == None ==> Outcome(Verdict(config, old(model), ObjectEnd)))
    {
      EndContainer(RBRACE, true, ObjectEnd);
      r := err;
    }

    method WriteArrayEnd() returns (r: Option<WriteError>)
      requires Valid()
      modifies this, enc, w
      ensures Valid() && r == err && model == Step(config, old(model), ArrayEnd)
      ensures Sticks() && (old(err) == None ==> Outcome(Verdict(config, old(model), ArrayEnd)))
    {
      EndContainer(RBRACKET, false, ArrayEnd);
      r := err;
    }

    method WriteObjectField(key: Text) returns (r: Option<WriteError>)
      requires Valid()
      modifies this, enc, w
      ensures Valid() && r == err && model == Step(config, old(model), Field(key))
      ensures Sticks() && (old(err) == None ==> Outcome(Verdict(config, old(model), Field(key))))
    {
      hide Refused, Encoder.Open, Encoder.Valid, Encoder.Tracks, Step, FieldText;
      ghost var m := model;
      BehindStep(config, w.sent, m, Field(key));
      model := Step(config, m, Field(key));
      if err.Some? {
        return err;
      }
      ErrIsFailure();
      VerdictFails(config, m, Field(key));
      if writeDepth <= 0 {
        err := Some(InvalidWriteState);
        return err;
      }
      var frame := writeStack[writeDepth - 1];
      assert frame == Top(m);
      if !IsObject(frame) {
        err := Some(InvalidWriteState);
        return err;
      }
      assert model == Append(SetTop(m, OBJECT_NOT_FIRST), FieldText(config, m, key)) by { FieldStep(config, m, key); }
      WriteKey(key, m);
      Finish();
      r := err;
    }

    /** The separator or first line break, the key and its colon. */
    method WriteKey(key: Text, ghost m: State)
      requires Linked() && err == None && enc.target == w && writeDepth > 0 && enc.indentLevel == writeIndentLevel
      requires m.stack == writeStack[..writeDepth] && m.log == enc.log && IsObject(writeStack[writeDepth - 1])
      modifies `writeStack, enc, w
      ensures Linked() && enc.target == w && enc.indentLevel == writeIndentLevel
      ensures enc.log == m.log + FieldText(config, m, key)
          && writeStack[..writeDepth] == SetTop(m, OBJECT_NOT_FIRST).stack
    {
      hide Refused, Encoder.Open, Encoder.Valid, Encoder.Tracks, Encoder.Panics, NewLine, Separator, Quote, ColonText;
      var frame := writeStack[writeDepth - 1];
      assert frame == Top(m);
      if IsFirst(frame) {
        enc.WriteNewlineIndent();
      } else {
        enc.WriteSeparator();
      }
      writeStack := writeStack[writeDepth - 1 := OBJECT_NOT_FIRST];
      var e := enc.EncodeString(key);
      assert e == None;
      enc.WriteColonSeparator();
      assert writeStack[..writeDepth] == m.stack[..writeDepth - 1] + [OBJECT_NOT_FIRST];
      Glue3(m.log, if IsFirst(frame) then NewLine(config, writeDepth) else Separator(config, writeDepth),
            Quote(config.escapeHTML, key), ColonText(config));
    }

    /** writeArrayComma. */
    method WriteArrayComma()
      requires Linked() && err == None && enc.target == w && writeDepth > 0 && enc.indentLevel == writeIndentLevel
      modifies `err, `writeStack, enc, w
      ensures Linked() && enc.target == w && enc.indentLevel == writeIndentLevel
      ensures var s := Comma(config, State(old(Output()), old(writeStack[..writeDepth]), false, false, false));
              Output() == s.log && writeStack[..writeDepth] == s.stack
      ensures err == if enc.streamErr then err else None
      ensures err == None || err == Some(StreamFailed)
      ensures err.Some? ==> enc.streamErr
    {
      hide Refused, Encoder.Open, Encoder.Valid, Encoder.Tracks;
      var frame := writeStack[writeDepth - 1];
      if IsObject(frame) {
        return;
      }
      if IsFirst(frame) {
        writeStack := writeStack[writeDepth - 1 := ARRAY_NOT_FIRST];
        assert writeStack[..writeDepth] == old(writeStack[..writeDepth])[..writeDepth - 1] + [ARRAY_NOT_FIRST];
        enc.WriteNewlineIndent();
      } else {
        enc.WriteSeparator();
      }
      if enc.streamErr {
        err := Some(StreamFailed);
      }
    }

    /** The checks and the separator that precede every value; false when the call is over. */
    method BeginValue(ghost op: Op) returns (ok: bool)
      requires Valid() && IsValueOp(op)
      modifies this, enc, w
      ensures model == Step(config, old(model), op)
      ensures !ok ==> Valid() && (old(err) == None ==> Outcome(Verdict(config, old(model), op)))
      ensures ok ==> Linked() && err == None && enc.target == w && old(model).stack != [] && !old(model).failed
                     && InState(Comma(config, old(model)))
      ensures old(err).Some? ==> !ok && err == old(err) && w.calls == old(w.calls) && w.sent == old(w.sent)
    {
      hide Refused, Encoder.Open, Encoder.Valid, Encoder.Tracks;
      ghost var m := model;
      BehindStep(config, w.sent, m, op);
      model := Step(config, m, op);
      if err.Some? {
        return false;
      }
      ErrIsFailure();
      if writeDepth <= 0 {
        err := Some(InvalidWriteState);
        return false;
      }
      WriteArrayComma();
      if err.Some? {
        CommaGrows(config, m, op);
        ErrIsFailure();
        SentIsBehind();
        return false;
      }
      ok := true;
    }

    method WriteText(s: Text) returns (r: Option<WriteError>)
      requires Valid()
      modifies this, enc, w
      ensures Valid() && r == err && model == Step(config, old(model), WriteString(s))
      ensures Sticks() && (old(err) == None ==> Outcome(Verdict(config, old(model), WriteString(s))))
    {
      hide Refused, Encoder.Open, Encoder.Valid, Encoder.Tracks;
      var ok := BeginValue(WriteString(s));
      if ok {
        var e := enc.EncodeString(s);
        assert e == None;
        Finish();
      }
      r := err;
    }

    /** WriteInt64 and WriteUint64. */
    method WriteInteger(i: int) returns (r: Option<WriteError>)
      requires Valid()
      modifies this, enc, w
      ensures Valid() && r == err && model == Step(config, old(model), WriteInt(i))
      ensures Sticks() && (old(err) == None ==> Outcome(Verdict(config, old(model), WriteInt(i))))
    {
      hide Refused, Encoder.Open, Encoder.Valid, Encoder.Tracks;
      var ok := BeginValue(WriteInt(i));
      if ok {
        enc.EncodeInt(i);
        Finish();
      }
      r := err;
    }

    method WriteBoolean(b: bool) returns (r: Option<WriteError>)
      requires Valid()
      modifies this, enc, w
      ensures Valid() && r == err && model == Step(config, old(model), WriteBool(b))
      ensures Sticks() && (old(err) == None ==> Outcome(Verdict(config, old(model), WriteBool(b))))
    {
      hide Refused, Encoder.Open, Encoder.Valid, Encoder.Tracks;
      var ok := BeginValue(WriteBool(b));
      if ok {
        enc.EncodeBool(b);
        Finish();
      }
      r := err;
    }

    method WriteNil() returns (r: Option<WriteError>)
      requires Valid()
      modifies this, enc, w
      ensures Valid() && r == err && model == Step(config, old(model), WriteNull)
      ensures Sticks() && (old(err) == None ==> Outcome(Verdict(config, old(model), WriteNull)))
    {
      hide Refused, Encoder.Open, Encoder.Valid, Encoder.Tracks;
      var ok := BeginValue(WriteNull);
      if ok {
        enc.WriteBytes(NULL_TEXT);
        Finish();
      }
      r := err;
    }

    /** WriteFloat64 and WriteFloat32 of a number whose formatted text is `text`. */
    method WriteNumber(text: Text) returns (r: Option<WriteError>)
      requires Valid()
      modifies this, enc, w
      ensures Valid() && r == err && model == Step(config, old(model), WriteFloat(text))
      ensures Sticks() && (old(err) == None ==> Outcome(Verdict(config, old(model), WriteFloat(text))))
    {
      hide Refused, Encoder.Open, Encoder.Valid, Encoder.Tracks;
      var ok := BeginValue(WriteFloat(text));
      if ok {
        enc.WriteBytes(text);
        Finish();
      }
      r := err;
    }

    method WriteAny(h: Heap, v: Val) returns (r: Option<WriteError>)
      requires Valid()
      modifies this, enc, w
      ensures Valid() && r == err && model == Step(config, old(model), WriteValue(h, v))
      ensures Sticks() && (old(err) == None ==> Outcome(Verdict(config, old(model), WriteValue(h, v))))
    {
      hide Refused, Encoder.Open, Encoder.Valid, Encoder.Tracks;
      var ok := BeginValue(WriteValue(h, v));
      if ok {
        var e := enc.Encode(h, v);
        match e {
          case Some(code) => err := Some(EncodingFailed(code));
          case None => Finish();
        }
      }
      r := err;
    }

    method WriteComma() returns (r: Option<WriteError>)
      requires Valid()
      modifies this, enc, w
      ensures Valid() && r == err && model == Step(config, old(model), WriteMore)
      ensures Sticks() && (old(err) == None ==> Outcome(Verdict(config, old(model), WriteMore)))
    {
      BehindStep(config, w.sent, model, WriteMore);
      model := Step(config, model, WriteMore);
      if err.Some? {
        return err;
      }
      ErrIsFailure();
      if writeDepth <= 0 {
        err := Some(InvalidWriteState);
        return err;
      }
      enc.WriteByte(COMMA);
      Finish();
      r := err;
    }

    /** Encode of a whole value. What Write* calls have left in the buffer is lost, and they
        cannot be resumed if a document of theirs had ended. */
    method Encode(h: Heap, v: Val) returns (r: Option<WriteError>)
      requires Valid()
      modifies this, enc, w
      ensures r == err && Sticks()
      ensures old(err) == None && old(writeDepth) > 0 ==>
        r == Some(InvalidWriteState) && w.calls == old(w.calls) && w.sent == old(w.sent)
      ensures old(err) == None && old(writeDepth) == 0 ==>
        match EncodeTop(h, v, config.maxDepth)
        case Err(e) => r == Some(EncodingFailed(e))
        case Ok(t) => Delivered(r, old(w.calls), old(w.sent), Print(config, t, 0))
      ensures old(err) == None && !old(valueComplete) && r == None && w.Failures() == 0 ==>
          Valid() && enc.target == null
    {
      if err.Some? {
        return err;
      }
      if writeDepth != 0 {
        err := Some(InvalidWriteState);
        return err;
      }
      EncodeDocument(h, v);
      return err;
    }

    /** The session of one Encode. */
    method EncodeDocument(h: Heap, v: Val)
      requires Valid() && err == None && writeDepth == 0
      modifies `err, `model, enc, w
      ensures match EncodeTop(h, v, config.maxDepth)
              case Err(e) => err == Some(EncodingFailed(e))
              case Ok(t) => Delivered(err, old(w.calls), old(w.sent), Print(config, t, 0))
      ensures !valueComplete && err == None && w.Failures() == 0 ==> Valid() && enc.target == null
    {
      hide Refused, Encoder.Open, Encoder.Valid, Encoder.Tracks, Print, EncodeTop, IncrementalStreamEncoder.Delivered;
      ErrIsFailure();
      w.AllAccepted();
      enc.Bind(w, flushThreshold, 0);
      var e := enc.Encode(h, v);
      if e.Some? {
        err := Some(EncodingFailed(e.value));
        return;
      }
      ghost var text := Print(config, EncodeTop(h, v, config.maxDepth).value, 0);
      if enc.streamErr {
        err := Some(StreamFailed);
        BrokenOff(old(w.calls), old(w.sent), text);
        return;
      }
      assert enc.streamOut == Stream(w) && enc.cap >= flushThreshold by { enc.StillGood(); }
      EndDocument(old(w.calls), old(w.sent), text);
    }

    /** What Encode has done with a document `text` when `before` had been sent in `calls` calls.
        The result is that of the last write, the line feed: the flush before it is not checked,
        and when that alone is refused the call succeeds with the document cut short. A text
        below the threshold is in that flush entirely. */
    ghost predicate Delivered(r: Option<WriteError>, calls: nat, before: Text, text: Text)
      reads w
    {
      && w.calls > calls
      && r == (if w.accepts(w.calls - 1) then None else Some(StreamFailed))
      && (forall k: nat | calls <= k < w.calls - 2 :: w.accepts(k))
      && (r.Some? ==> before <= w.sent <= before + text)
      && (r == None ==>
            if w.calls >= calls + 2 ==> w.accepts(w.calls - 2) then w.sent == before + text + [LF]
            else exists part: Text :: before <= part < before + text && w.sent == part + [LF])
      && (0 < |text| < flushThreshold ==>
            w.calls == calls + 2 && (r == None && !w.accepts(calls) ==> w.sent == before + [LF]))
    }

    /** A write failed while the document was encoded. */
    lemma BrokenOff(calls: nat, before: Text, text: Text)
      requires enc.Valid() && enc.target == w && enc.streamErr && !enc.forced && enc.streamThreshold == flushThreshold
      requires enc.firstCall == calls && enc.firstByte == |before| && before <= enc.log && enc.log == before + text
      requires forall k: nat | k < calls :: w.accepts(k)
      ensures Delivered(Some(StreamFailed), calls, before, text)
    {
      hide Refused, PeakBound, Encoder.Tracks, IncrementalStreamEncoder.Linked, IncrementalStreamEncoder.InState;
      w.AllAccepted();
      Between(before, w.sent, enc.pending, text);
    }

    /** The end of Encode: the unchecked flush, and a line feed written by itself. */
    method EndDocument(ghost calls: nat, ghost before: Text, ghost text: Text)
      requires enc.Valid() && enc.streamOut == Stream(w) && !enc.streamErr && err == None
      requires enc.firstCall == calls && enc.firstByte == |before| && enc.log == before + text && !enc.forced
      requires enc.depth == 0 && enc.Tracks([]) && enc.config == config && enc.cap >= flushThreshold > 0
      requires enc.streamThreshold == flushThreshold && enc.indentLevel == 0
      requires |writeStack| == MAX_WRITE_DEPTH && writeDepth == 0 && writeIndentLevel == 0
      modifies `err, `model, enc, w
      ensures Delivered(err, calls, before, text)
      ensures err == None && w.Failures() == 0 && !valueComplete ==> Valid() && enc.target == null
    {
      hide Refused, Encoder.Open, Encoder.Valid, Encoder.Tracks, IncrementalStreamEncoder.Delivered;
      SoFar(calls, before, text);
      ghost var c0, part := w.calls, w.sent;
      LastFlush();
      enc.Unbind();
      var ok := w.Write([LF]);
      if !ok {
        err := Some(StreamFailed);
      }
      Deliver(err, c0, part, calls, before, text);
      model := State(w.sent, [], false, false, false);
      assert writeStack[..0] == [];
    }

    /** Every call so far was accepted, and there was none for a text below the threshold. */
    lemma SoFar(calls: nat, before: Text, text: Text)
      requires enc.Valid() && enc.streamOut == Stream(w) && !enc.forced && enc.streamThreshold == flushThreshold
      requires enc.firstCall == calls && enc.firstByte == |before| && enc.log == before + text
      ensures before <= w.sent <= before + text && w.calls >= calls && forall k: nat | k < w.calls :: w.accepts(k)
      ensures |text| < flushThreshold ==> w.calls == calls && w.sent == before
    {
      hide Refused, PeakBound, Encoder.Tracks;
      w.AllAccepted();
      Between(before, w.sent, enc.pending, text);
    }

    /** The two last writes, when before them `c0` calls had sent `part`. */
    lemma Deliver(r: Option<WriteError>, c0: nat, part: Text, calls: nat, before: Text, text: Text)
      requires before <= part <= before + text && c0 >= calls && forall k: nat | k < c0 :: w.accepts(k)
      requires 0 < |text| < flushThreshold ==> c0 == calls && part == before
      requires w.calls == c0 + (if part == before + text then 1 else 2)
      requires r == if w.accepts(w.calls - 1) then None else Some(StreamFailed)
      requires w.sent
          == (if part != before + text && w.accepts(c0) then before + text else part) + (if r == None then [LF] else [])
      ensures Delivered(r, calls, before, text)
    {
      assert w.sent == part || w.sent == part + [LF] || w.sent == before + text || w.sent == before + text + [LF];
    }

    /** The unchecked flush at the end of Encode: it sends the rest, or nothing of it. */
    method LastFlush()
      requires enc.Valid() && enc.streamOut == Stream(w) && !enc.streamErr
      modifies enc`buf, enc`streamOut, enc`streamErr, enc`pending, enc`forced, w
      ensures enc.streamErr <==> w.Failures() > 0
      ensures w.calls == old(w.calls) + (if old(enc.log) == old(w.sent) then 0 else 1)
      ensures enc.streamErr <==> w.calls > old(w.calls) && !w.accepts(old(w.calls))
      ensures w.sent == if enc.streamErr then old(w.sent) else old(enc.log)
      ensures enc.cap == old(enc.cap) && |enc.buf| <= enc.cap
    {
      hide Refused;
      assert w.sent + [] == w.sent;
      enc.forced := true;
      enc.FlushToStream();
    }

    /** Writes what is buffered, in one call if there is anything; the model does not move. */
    method FlushNow() returns (r: Option<WriteError>)
      requires Valid()
      modifies this, enc, w
      ensures Valid() && r == err && model == old(model) && Sticks()
      ensures old(err) == None && (enc.target == null || old(w.sent) == model.log) ==>
        r == None && w.calls == old(w.calls) && w.sent == old(w.sent)
      ensures old(err) == None && enc.target != null && old(w.sent) != model.log ==>
        && w.calls == old(w.calls) + 1
        && r == (if w.accepts(old(w.calls)) then None else Some(StreamFailed))
        && w.sent == if r == None then model.log else old(w.sent)
      ensures old(err) == None ==> Outcome(None)
    {
      hide Refused, Encoder.Tracks;
      if err.Some? {
        return err;
      }
      assert w.sent + [] == w.sent;
      enc.forced := true;
      enc.FlushToStream();
      Finish();
      r := err;
    }
  }
}
