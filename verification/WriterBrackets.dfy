/** The bracket structure of everything the incremental writer has produced. */
module WriterBrackets {
  import opened Bytes
  import opened Integers
  import Strings
  import opened Values
  import opened Parsing
  import Reflection
  import opened Scanning
  import opened WriterSpec

  function KindOf(frame: nat): Kind {
    if IsObject(frame) then Object else Array
  }

  function Kinds(stack: seq<nat>): seq<Kind> {
    seq(|stack|, i requires 0 <= i < |stack| => KindOf(stack[i]))
  }

  /** The brackets outside string literals in the output are a prefix of a balanced word, and
      those still open are exactly the frames on the stack. */
  predicate Balanced(s: State) {
    && Scan(START, s.log) == Brackets(Plain, Kinds(s.stack), true)
    && |s.stack| <= MAX_WRITE_DEPTH
    && (s.complete ==> s.stack == [])
  }

  /** Numbers are given as number texts. */
  predicate CleanOp(cfg: Config, op: Op) {
    match op
    case WriteFloat(t) => forall i | 0 <= i < |t| :: IsNumberByte(t[i])
    case WriteValue(h, v) =>
      (match Reflection.EncodeTop(h, v, cfg.maxDepth)
       case Ok(t) => NumbersClean(t)
       case Err(_) => true)
    case _ => true
  }

  lemma AppendPiece(s: State, t: Text, kept: Text)
    requires Balanced(s) && Piece(t, kept)
    ensures Balanced(Append(s, t))
  {
    ScanConcat(START, s.log, t);
  }

  lemma SetTopBalanced(s: State, frame: nat)
    requires Balanced(s) && s.stack != [] && IsObject(frame) == IsObject(Top(s))
    ensures Balanced(SetTop(s, frame))
  {
    assert Kinds(SetTop(s, frame).stack) == Kinds(s.stack);
  }

  lemma CommaBalanced(cfg: Config, s: State)
    requires Balanced(s) && SpaceIndent(cfg)
    ensures Balanced(Comma(cfg, s))
  {
    if s.stack != [] && !IsObject(Top(s)) {
      if IsFirst(Top(s)) {
        SetTopBalanced(s, ARRAY_NOT_FIRST);
        NewLinePiece(cfg, Level(s));
        AppendPiece(SetTop(s, ARRAY_NOT_FIRST), NewLine(cfg, Level(s)), []);
      } else {
        SeparatorPiece(cfg, Level(s));
        AppendPiece(s, Separator(cfg, Level(s)), Separator(Compact(cfg), Level(s)));
      }
    }
  }

  lemma ScalarBalanced(cfg: Config, s: State, t: Text)
    requires Balanced(s) && SpaceIndent(cfg) && Piece(t, t)
    ensures Balanced(Scalar(cfg, s, t))
  {
    CommaBalanced(cfg, s);
    if s.stack != [] {
      AppendPiece(Comma(cfg, s), t, t);
    }
  }

  lemma StartBalanced(s: State, bracket: byte, frame: nat)
    requires Balanced(s)
    requires (bracket == LBRACE && IsObject(frame)) || (bracket == LBRACKET && !IsObject(frame))
    ensures Balanced(Start(s, bracket, frame))
  {
    if |s.stack| < MAX_WRITE_DEPTH {
      SpacePiece(Session(s));
      AppendPiece(s, Session(s), []);
      var log := s.log + Session(s);
      ScanConcat(START, log, [bracket]);
      assert [bracket][1..] == [];
      assert Kinds(s.stack + [frame]) == Kinds(s.stack) + [KindOf(frame)];
    }
  }

  lemma {:induction false} EndBalanced(cfg: Config, s: State, bracket: byte, isObject: bool)
    requires Balanced(s) && SpaceIndent(cfg)
    requires bracket == if isObject then RBRACE else RBRACKET
    ensures Balanced(End(cfg, s, bracket, isObject))
  {
    if s.stack != [] && IsObject(Top(s)) == isObject {
      var level := |s.stack| - 1;
      var nl := if IsFirst(Top(s)) then [] else NewLine(cfg, level);
      NewLinePiece(cfg, level);
      SpacePiece([]);
      AppendPiece(s, nl, []);
      ScanConcat(START, s.log + nl, [bracket]);
      assert [bracket][1..] == [];
      assert Kinds(s.stack)[..level] == Kinds(s.stack[..level]);
    }
  }

  lemma FieldBalanced(cfg: Config, s: State, key: Text)
    requires Balanced(s) && SpaceIndent(cfg) && s.stack != [] && IsObject(Top(s))
    ensures Balanced(Append(SetTop(s, OBJECT_NOT_FIRST), FieldText(cfg, s, key)))
  {
    var c := Compact(cfg);
    var q := Strings.Quote(cfg.escapeHTML, key);
    NewLinePiece(cfg, Level(s));
    SeparatorPiece(cfg, Level(s));
    QuotePiece(cfg.escapeHTML, key);
    ColonPiece(cfg);
    var lead := if IsFirst(Top(s)) then NewLine(cfg, Level(s)) else Separator(cfg, Level(s));
    var kept := if IsFirst(Top(s)) then [] else Separator(c, Level(s));
    PieceConcat(lead, kept, q, q);
    PieceConcat(lead + q, kept + q, ColonText(cfg), ColonText(c));
    SetTopBalanced(s, OBJECT_NOT_FIRST);
    AppendPiece(SetTop(s, OBJECT_NOT_FIRST), FieldText(cfg, s, key), kept + q + ColonText(c));
  }

  /** Every call keeps the bracket structure. */
  lemma StepBalanced(cfg: Config, s: State, op: Op)
    requires Balanced(s) && SpaceIndent(cfg) && CleanOp(cfg, op)
    ensures Balanced(Step(cfg, s, op))
  {
    if !s.failed {
      match op
      case ObjectStart => StartBalanced(s, LBRACE, OBJECT_FIRST);
      case ArrayStart => StartBalanced(s, LBRACKET, ARRAY_FIRST);
      case ObjectEnd => EndBalanced(cfg, s, RBRACE, true);
      case ArrayEnd => EndBalanced(cfg, s, RBRACKET, false);
      case Field(key) => if s.stack != [] && IsObject(Top(s)) { FieldBalanced(cfg, s, key); }
      case WriteString(t) =>
        QuotePiece(cfg.escapeHTML, t);
        ScalarBalanced(cfg, s, Strings.Quote(cfg.escapeHTML, t));
      case WriteInt(i) =>
        QuietPiece(Decimal(i));
        ScalarBalanced(cfg, s, Decimal(i));
      case WriteFloat(t) =>
        QuietPiece(t);
        ScalarBalanced(cfg, s, t);
      case WriteBool(b) =>
        QuietPiece(BoolText(b));
        ScalarBalanced(cfg, s, BoolText(b));
      case WriteNull =>
        QuietPiece(NULL_TEXT);
        ScalarBalanced(cfg, s, NULL_TEXT);
      case WriteValue(h, v) =>
        CommaBalanced(cfg, s);
        var r := Reflection.EncodeTop(h, v, cfg.maxDepth);
        if s.stack != [] && r.Ok? {
          PrintPiece(cfg, r.value, Level(s));
          AppendPiece(Comma(cfg, s), Print(cfg, r.value, Level(s)), Print(Compact(cfg), r.value, Level(s)));
        }
      case WriteMore =>
        QuietPiece([COMMA]);
        AppendPiece(s, [COMMA], [COMMA]);
      case Flush =>
    }
  }

  /** In every run, whatever calls are made in whatever order, the open brackets of the output
      are the frames on the stack. */
  lemma {:induction false} RunBalanced(cfg: Config, s: State, ops: seq<Op>)
    requires Balanced(s) && SpaceIndent(cfg) && forall i | 0 <= i < |ops| :: CleanOp(cfg, ops[i])
    ensures Balanced(Run(cfg, s, ops))
    decreases |ops|
  {
    if ops != [] {
      StepBalanced(cfg, s, ops[0]);
      RunBalanced(cfg, Step(cfg, s, ops[0]), ops[1..]);
    }
  }
}
