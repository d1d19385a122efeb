/** Values, configuration and the meaning of an encoded document: the text that every encoder has to
    produce for a value, at an indentation level and piece by piece, and what has to hold of values
    that are trees. */
module Values {
  import opened Bytes
  import opened Integers
  import opened Strings

  /** The fields of Config that encoding reads. */
  datatype Config = Config(maxDepth: int, doIndent: bool, prefix: Text, indent: Text, escapeHTML: bool)

  /** A pointer: an address and the type it is viewed at. Two references may share an address
      (a struct and its first field do), and the cycle detector only compares addresses. */
  datatype Ref = Ref(addr: int, typ: int)

  /** A map key: a string, an integer (printed in decimal), or a kind that is not supported. */
  datatype Key = Name(s: Text) | IntKey(i: int) | OtherKey

  datatype Member = Member(key: Key, value: Val)

  /** What the encoder can be handed. The first seven cases are the JSON trees; `Num` is a
      number given by its text (a float as the vector library formats it, or a Number). A `Ptr`
      or `Alias` whose reference is not in the heap is nil. `Alias` is a map or slice, which
      shares its contents but is not a pointer. */
  datatype Val =
    | Null
    | Bool(b: bool)
    | Int(i: int)
    | Num(text: Text)
    | Str(s: Text)
    | Arr(items: seq<Val>)
    | Obj(members: seq<Member>)
    | Ptr(ref: Ref)
    | Alias(ref: Ref)
    | Iface(inner: Val)
    | Unsupported

  type Heap = map<Ref, Val>

  function KeyText(k: Key): Text {
    match k
    case Name(s) => s
    case IntKey(i) => Decimal(i)
    case OtherKey => []
  }

  /** `n` copies of `t`. */
  function Repeat(t: Text, n: nat): Text {
    if n == 0 then [] else t + Repeat(t, n - 1)
  }

  /** Newline, prefix and `level` indents, or nothing in compact mode. */
  function NewLine(cfg: Config, level: nat): Text {
    if cfg.doIndent then [LF] + cfg.prefix + Repeat(cfg.indent, level) else []
  }

  function ColonText(cfg: Config): Text {
    if cfg.doIndent then [COLON, SPACE] else [COLON]
  }

  function BoolText(b: bool): Text {
    if b then TRUE_TEXT else FALSE_TEXT
  }

  /** The document of a tree whose opening bracket stands at indentation `level`. */
  function Print(cfg: Config, v: Val, level: nat): Text
    decreases v, 1
  {
    match v
    case Bool(b) => BoolText(b)
    case Int(i) => Decimal(i)
    case Num(text) => text
    case Str(s) => Quote(cfg.escapeHTML, s)
    case Arr(items) =>
      if items == [] then [LBRACKET, RBRACKET]
      else [LBRACKET] + NewLine(cfg, level + 1) + PrintItems(cfg, items, level + 1)
           + NewLine(cfg, level) + [RBRACKET]
    case Obj(members) =>
      if members == [] then [LBRACE, RBRACE]
      else [LBRACE] + NewLine(cfg, level + 1) + PrintMembers(cfg, members, level + 1)
           + NewLine(cfg, level) + [RBRACE]
    case _ => NULL_TEXT
  }

  function Separator(cfg: Config, level: nat): Text {
    [COMMA] + NewLine(cfg, level)
  }

  function PrintItems(cfg: Config, items: seq<Val>, level: nat): Text
    decreases items, 0
  {
    if items == [] then []
    else if |items| == 1 then Print(cfg, items[0], level)
    else Print(cfg, items[0], level) + Separator(cfg, level) + PrintItems(cfg, items[1..], level)
  }

  function PrintMember(cfg: Config, m: Member, level: nat): Text
    decreases m, 2
  {
    Quote(cfg.escapeHTML, KeyText(m.key)) + ColonText(cfg) + Print(cfg, m.value, level)
  }

  function PrintMembers(cfg: Config, members: seq<Member>, level: nat): Text
    decreases members, 0
  {
    if members == [] then []
    else if |members| == 1 then PrintMember(cfg, members[0], level)
    else PrintMember(cfg, members[0], level) + Separator(cfg, level) + PrintMembers(cfg, members[1..], level)
  }

  /** One more element at the end adds a separator (unless it is the first) and its text. */
  lemma {:induction false} PrintItemsSnoc(cfg: Config, items: seq<Val>, v: Val, level: nat)
    ensures PrintItems(cfg, items + [v], level)
         == PrintItems(cfg, items, level) + (if items == [] then [] else Separator(cfg, level)) + Print(cfg, v, level)
  {
    if items == [] {
      assert items + [v] == [v];
    } else {
      assert (items + [v])[1..] == items[1..] + [v];
      PrintItemsSnoc(cfg, items[1..], v, level);
    }
  }

  lemma ItemsSnoc(cfg: Config, o: Text, items: seq<Val>, v: Val, level: nat)
    ensures o + PrintItems(cfg, items + [v], level)
         == o + PrintItems(cfg, items, level) + (if items == [] then [] else Separator(cfg, level))
             + Print(cfg, v, level)
  {
    PrintItemsSnoc(cfg, items, v, level);
    Glue3(o, PrintItems(cfg, items, level), if items == [] then [] else Separator(cfg, level), Print(cfg, v, level));
  }

  lemma {:induction false} PrintMembersSnoc(cfg: Config, members: seq<Member>, m: Member, level: nat)
    ensures PrintMembers(cfg, members + [m], level)
         == PrintMembers(cfg, members, level) + (if members == [] then [] else Separator(cfg, level))
             + PrintMember(cfg, m, level)
  {
    if members == [] {
      assert members + [m] == [m];
    } else {
      assert (members + [m])[1..] == members[1..] + [m];
      PrintMembersSnoc(cfg, members[1..], m, level);
    }
  }

  /** The text of a container, piece by piece. */
  lemma PrintArray(cfg: Config, o: Text, items: seq<Val>, level: nat)
    ensures o + Print(cfg, Arr(items), level)
         == if items == [] then o + [LBRACKET] + [RBRACKET]
            else o + [LBRACKET] + NewLine(cfg, level + 1) + PrintItems(cfg, items, level + 1)
                 + NewLine(cfg, level) + [RBRACKET]
  {
    Glue5(o, [LBRACKET], NewLine(cfg, level + 1), PrintItems(cfg, items, level + 1), NewLine(cfg, level), [RBRACKET]);
  }

  /** The members of an object with the line break before the first one. */
  function Entries(cfg: Config, members: seq<Member>, level: nat): Text {
    if members == [] then [] else NewLine(cfg, level) + PrintMembers(cfg, members, level)
  }

  lemma EntriesSnoc(cfg: Config, o: Text, members: seq<Member>, m: Member, level: nat)
    ensures o + Entries(cfg, members + [m], level)
         == o + Entries(cfg, members, level)
              + (if members == [] then NewLine(cfg, level) else Separator(cfg, level)) + PrintMember(cfg, m, level)
  {
    hide NewLine, PrintMember;
    PrintMembersSnoc(cfg, members, m, level);
    var nl, ms, sep, t := NewLine(cfg, level), PrintMembers(cfg, members, level), Separator(cfg, level),
        PrintMember(cfg, m, level);
    if members == [] {
      assert ms + [] + t == t && o + [] == o;
      assert o + (nl + t) == o + nl + t;
    } else {
      Regroup(o, nl, ms, sep, t);
    }
  }

  lemma PrintObject(cfg: Config, o: Text, members: seq<Member>, level: nat)
    ensures o + Print(cfg, Obj(members), level)
         == if members == [] then o + [LBRACE] + [RBRACE]
            else o + [LBRACE] + Entries(cfg, members, level + 1) + NewLine(cfg, level) + [RBRACE]
  {
    assert o + [LBRACE] + (NewLine(cfg, level + 1) + PrintMembers(cfg, members, level + 1))
        == o + [LBRACE] + NewLine(cfg, level + 1) + PrintMembers(cfg, members, level + 1);
    Glue5(o, [LBRACE], NewLine(cfg, level + 1), PrintMembers(cfg, members, level + 1), NewLine(cfg, level), [RBRACE]);
  }

  /** The levels of values on the longest path: a leaf or an empty container counts one. */
  function Height(v: Val): (n: nat)
    ensures n >= 1
    decreases v, 1
  {
    match v
    case Arr(items) => 1 + ItemsHeight(items)
    case Obj(members) => 1 + MembersHeight(members)
    case _ => 1
  }

  function ItemsHeight(items: seq<Val>): nat
    decreases items, 0
  {
    if items == [] then 0 else Max(Height(items[0]), ItemsHeight(items[1..]))
  }

  function MembersHeight(members: seq<Member>): nat
    decreases members, 0
  {
    if members == [] then 0 else Max(MemberHeight(members[0]), MembersHeight(members[1..]))
  }

  function MemberHeight(m: Member): nat
    decreases m, 2
  {
    Height(m.value)
  }

  function Max(a: nat, b: nat): nat {
    if a > b then a else b
  }

  /** A JSON tree: no pointers, no interface wrappers, string keys. */
  predicate IsTree(v: Val)
    decreases v, 1
  {
    match v
    case Arr(items) => forall i | 0 <= i < |items| :: IsTree(items[i])
    case Obj(members) => forall i | 0 <= i < |members| :: members[i].key.Name? && IsTree(members[i].value)
    case Ptr(_) => false
    case Alias(_) => false
    case Iface(_) => false
    case Unsupported => false
    case _ => true
  }

  /** Prefix and indent consist of white space only. */
  predicate SpaceIndent(cfg: Config) {
    AllSpace(cfg.prefix) && AllSpace(cfg.indent)
  }

  lemma {:induction false} RepeatSnoc(t: Text, n: nat)
    ensures Repeat(t, n + 1) == Repeat(t, n) + t
  {
    if n > 0 {
      RepeatSnoc(t, n - 1);
      assert t + (Repeat(t, n - 1) + t) == (t + Repeat(t, n - 1)) + t;
    } else {
      assert t + [] == [] + t;
    }
  }

  lemma {:induction false} RepeatSpace(t: Text, n: nat)
    requires AllSpace(t)
    ensures AllSpace(Repeat(t, n))
  {
    if n > 0 {
      RepeatSpace(t, n - 1);
      AllSpaceConcat(t, Repeat(t, n - 1));
    }
  }

  lemma NewLineSpace(cfg: Config, level: nat)
    requires SpaceIndent(cfg)
    ensures AllSpace(NewLine(cfg, level))
  {
    if cfg.doIndent {
      RepeatSpace(cfg.indent, level);
      AllSpaceConcat(cfg.prefix, Repeat(cfg.indent, level));
      var t := [LF] + cfg.prefix + Repeat(cfg.indent, level);
      assert t[1..] == cfg.prefix + Repeat(cfg.indent, level);
    }
  }
}
