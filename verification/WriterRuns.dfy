/** Whole runs of the write API: any calls in any order, any threshold, any failing writes. The
    clients here make the calls one by one and say what has been written in the end, which
    error is set, and which brackets are open. */
module WriterRuns {
  import opened Bytes
  import opened Values
  import opened Encoding
  import opened WriterSpec
  import opened WriterBrackets
  import opened Writing
  import Scanning

  /** The call named by `op`. */
  method Perform(ise: IncrementalStreamEncoder, op: Op) returns (r: Option<WriteError>)
    requires ise.Valid()
    modifies ise, ise.enc, ise.w
    ensures ise.Valid() && r == ise.err && ise.model == Step(ise.config, old(ise.model), op)
    ensures ise.Sticks() && (old(ise.err) == None ==> ise.Outcome(Verdict(ise.config, old(ise.model), op)))
  {
    hide Step;
    match op {
      case ObjectStart => r := ise.WriteObjectStart();
      case ObjectEnd => r := ise.WriteObjectEnd();
      case ArrayStart => r := ise.WriteArrayStart();
      case ArrayEnd => r := ise.WriteArrayEnd();
      case Field(key) => r := ise.WriteObjectField(key);
      case WriteString(s) => r := ise.WriteText(s);
      case WriteInt(i) => r := ise.WriteInteger(i);
      case WriteFloat(text) => r := ise.WriteNumber(text);
      case WriteBool(b) => r := ise.WriteBoolean(b);
      case WriteNull => r := ise.WriteNil();
      case WriteValue(h, v) => r := ise.WriteAny(h, v);
      case WriteMore => r := ise.WriteComma();
      case Flush =>
        FlushKeeps(ise.config, ise.model);
        r := ise.FlushNow();
    }
  }

  lemma FlushKeeps(cfg: Config, s: State)
    ensures Step(cfg, s, Flush) == s
  {
  }

  lemma NothingRun(config: Config)
    ensures Run(config, EMPTY, []) == EMPTY && RunVerdict(config, EMPTY, []) == None
  {
  }

  lemma NextRun(config: Config, ops: seq<Op>, i: nat)
    requires i < |ops|
    ensures var s := Run(config, EMPTY, ops[..i]);
      && Run(config, EMPTY, ops[..i + 1]) == Step(config, s, ops[i])
      && RunVerdict(config, EMPTY, ops[..i + 1])
         == if RunVerdict(config, EMPTY, ops[..i]).Some? then RunVerdict(config, EMPTY, ops[..i])
            else Verdict(config, s, ops[i])
  {
    hide Step, Verdict, Run, RunVerdict;
    assert ops[..i + 1] == ops[..i] + [ops[i]];
    RunVerdictSnoc(config, EMPTY, ops[..i], ops[i]);
    RunConcat(config, EMPTY, ops[..i], [ops[i]]);
    Run1(config, Run(config, EMPTY, ops[..i]), ops[i]);
  }

  /** A client that makes any sequence of calls on a new encoder over an unused writer. The output
      is that of the state machine, in which neither threshold nor failures occur: all of it is
      sent or buffered while no error is set, and a prefix of it has been sent in any case. When
      no write fails the error is that of the first call the state machine refuses, if any. */
  method Session(w: Sink, config: Config, flushThreshold: int, growth: (nat, nat) -> nat, ops: seq<Op>)
      returns (ise: IncrementalStreamEncoder)
    requires w.Failures() == 0 && w.sent == []
    modifies w
    ensures ise.Valid() && ise.w == w && ise.config == config
    ensures ise.model == Run(config, EMPTY, ops)
    ensures ise.err == None ==>
        w.sent + (if ise.enc.target == null then [] else ise.enc.buf) == Run(config, EMPTY, ops).log
    ensures !Run(config, EMPTY, ops).encodeFailed ==> w.sent <= Run(config, EMPTY, ops).log
    ensures w.Failures() == 0 || w.StoppedAtFailure()
    ensures ise.err == None <==> w.Failures() == 0 && !Run(config, EMPTY, ops).failed
    ensures (forall k: nat :: w.accepts(k)) ==> w.Failures() == 0
    ensures ise.Outcome(RunVerdict(config, EMPTY, ops))
  {
    hide Step, Verdict, Refused, Run, RunVerdict;
    ise := new IncrementalStreamEncoder(w, config, flushThreshold, growth);
    NothingRun(config);
    assert ops[..0] == [];
    for i := 0 to |ops|
      invariant ise.Valid() && ise.w == w && ise.config == config && fresh(ise) && fresh(ise.enc)
      invariant ise.model == Run(config, EMPTY, ops[..i])
      invariant ise.Outcome(RunVerdict(config, EMPTY, ops[..i]))
    {
      NextRun(config, ops, i);
      var _ := Perform(ise, ops[i]);
    }
    assert ops[..|ops|] == ops;
    ise.Promises();
    w.AllAccepted();
    assert w.sent + [] == w.sent;
  }

  /** A writer that refuses its first call only: Encode succeeds and the document is lost. */
  method LostDocument(config: Config, growth: (nat, nat) -> nat) returns (w: Sink, r: Option<WriteError>)
    ensures fresh(w) && (forall k: nat :: w.accepts(k) <==> k > 0)
    ensures r == None && w.sent == [LF]
  {
    hide Refused, IncrementalStreamEncoder.Valid;
    w := new Sink(k => k > 0);
    assert w.Failures() == 0 by { w.AllAccepted(); }
    var ise := new IncrementalStreamEncoder(w, config, 0, growth);
    assert ise.writeDepth == 0;
    r := ise.Encode(map[], Null);
    assert w.sent == [] + [LF];
  }

  lemma EmptyBalanced()
    ensures Balanced(EMPTY)
  {
  }

  /** While nothing has failed, the brackets in what has been sent and buffered are a prefix of a
      balanced word whose open brackets are the frames on the write stack, and the indentation
      level is their number. */
  lemma SessionIsBalanced(ise: IncrementalStreamEncoder, ops: seq<Op>)
    requires ise.Valid() && ise.err == None && ise.enc.target != null && ise.model == Run(ise.config, EMPTY, ops)
    requires SpaceIndent(ise.config) && forall i | 0 <= i < |ops| :: CleanOp(ise.config, ops[i])
    ensures Scanning.Scan(Scanning.START, ise.w.sent + ise.enc.buf)
         == Scanning.Brackets(Scanning.Plain, Kinds(ise.writeStack[..ise.writeDepth]), true)
    ensures ise.writeIndentLevel == ise.writeDepth
  {
    hide IncrementalStreamEncoder.Valid, Run, Scanning.Scan;
    ise.Promises();
    EmptyBalanced();
    RunBalanced(ise.config, EMPTY, ops);
  }
}
