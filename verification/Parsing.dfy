/** What the decoder accepts: the value it builds for an interface{} target and the position it
    stops at, and the position the parallel skip functions stop at. Errors are codes, and a
    run-time panic is one of them. */
module Parsing {
  import opened Bytes
  import opened Integers
  import opened Strings
  import opened Values
  import opened Utf8

  /** Error codes, plus the run-time panic of an index out of range. */
  datatype Code =
    | InvalidJSON
    | StackOverflow
    | InvalidString
    | InvalidValue
    | InvalidNumber
    | UnknownField
    | InvalidUTF8
    | IndexPanic

  datatype Parse<+T> = Ok(value: T, pos: nat) | Fail(code: Code)

  /** What the vector library makes of a number that is not an integer by its text: nothing, or a
      float, which may survive its conversion to an int64 and back. */
  datatype Float = NoFloat | Fraction | Whole(i: int)

  /** The decoder's options, and that function as a parameter. */
  datatype Options = Options(maxDepth: int, useNumber: bool, validate: bool, floats: Floats)

  datatype Floats = Floats(useInt64: bool, parse: Text -> Float)

  /** What the text of a float becomes in an interface{}. */
  function FloatValue(fl: Floats, t: Text): Option<Val> {
    match fl.parse(t)
    case NoFloat => None
    case Whole(i) => Some(if fl.useInt64 then Int(i) else Num(t))
    case Fraction => Some(Num(t))
  }

  predicate Advances<T>(data: Text, pos: nat, r: Parse<T>) {
    r.Ok? ==> pos < r.pos <= |data|
  }

  function Extend<T>(done: seq<T>, r: Parse<seq<T>>): Parse<seq<T>> {
    match r
    case Fail(c) => Fail(c)
    case Ok(rest, p) => Ok(done + rest, p)
  }

  predicate At(data: Text, pos: nat, b: byte) {
    pos < |data| && data[pos] == b
  }

  // ----- scalars -----

  function ParseString(data: Text, pos: nat): (r: Parse<Text>)
    requires pos < |data|
    ensures Advances(data, pos, r)
  {
    if data[pos] != QUOTE then Fail(InvalidString)
    else
      var end := FindQuote(data, pos + 1);
      if end < 0 then Fail(InvalidString)
      else
        match Unescape(data[pos + 1..end])
        case None => Fail(InvalidString)
        case Some(s) => Ok(s, end + 1)
  }

  function ParseBool(data: Text, pos: nat): (r: Parse<Val>)
    ensures Advances(data, pos, r)
  {
    if Has(data, pos, TRUE_TEXT) then Ok(Bool(true), pos + 4)
    else if Has(data, pos, FALSE_TEXT) then Ok(Bool(false), pos + 5)
    else Fail(InvalidValue)
  }

  function ParseNull(data: Text, pos: nat): (r: Parse<Val>)
    ensures Advances(data, pos, r)
  {
    if Has(data, pos, NULL_TEXT) then Ok(Null, pos + 4) else Fail(InvalidValue)
  }

  predicate IsNumberByte(c: byte) {
    IsDigit(c) || c == MINUS || c == PLUS || c == DOT || c == 0x65 || c == 0x45
  }

  /** The end of the run of number bytes at `pos`. */
  function NumberEnd(data: Text, pos: nat): (r: nat)
    requires pos <= |data|
    ensures pos <= r <= |data|
    ensures pos < |data| && IsNumberByte(data[pos]) ==> pos < r
    decreases |data| - pos
  {
    if pos < |data| && IsNumberByte(data[pos]) then NumberEnd(data, pos + 1) else pos
  }

  predicate IsInteger(t: Text) {
    DOT !in t && 0x65 !in t && 0x45 !in t
  }

  function ParseNumber(data: Text, pos: nat, opt: Options): (r: Parse<Val>)
    requires pos < |data| && IsNumberByte(data[pos])
    ensures Advances(data, pos, r)
  {
    var end := NumberEnd(data, pos);
    var t := data[pos..end];
    if opt.useNumber then Ok(Num(t), end)
    else if IsInteger(t) then
      match ParseInt(t)
      case None => Fail(InvalidNumber)
      case Some(i) => Ok(Int(i), end)
    else
      match FloatValue(opt.floats, t)
      case None => Fail(InvalidNumber)
      case Some(v) => Ok(v, end)
  }

  predicate StartsNumber(c: byte) {
    c == MINUS || IsDigit(c)
  }

  // ----- Decode and decodeValue -----

  /** A whole document: validated first, unless that is switched off. */
  function ParseDocument(data: Text, pos: nat, depth: nat, opt: Options): (r: Parse<Val>)
    requires pos <= |data|
    ensures Advances(data, pos, r)
  {
    if opt.validate && !ValidUtf8(data) then Fail(InvalidUTF8) else ParseValue(data, pos, depth, opt)
  }

  function ParseValue(data: Text, pos: nat, depth: nat, opt: Options): (r: Parse<Val>)
    requires pos <= |data|
    ensures Advances(data, pos, r)
    decreases |data| - pos, 0
  {
    var p := SkipSpace(data, pos);
    if p == |data| then Fail(InvalidJSON)
    else
      var c := data[p];
      if c == LBRACE then
        if depth >= opt.maxDepth then Fail(StackOverflow)
        else
          match ParseObject(data, p + 1, depth + 1, opt)
          case Fail(e) => Fail(e)
          case Ok(ms, q) => Ok(Obj(ms), q)
      else if c == LBRACKET then
        if depth >= opt.maxDepth then Fail(StackOverflow)
        else
          match ParseArray(data, p + 1, depth + 1, opt)
          case Fail(e) => Fail(e)
          case Ok(vs, q) => Ok(Arr(vs), q)
      else if c == QUOTE then
        match ParseString(data, p)
        case Fail(e) => Fail(e)
        case Ok(s, q) => Ok(Str(s), q)
      else if c == 0x74 || c == 0x66 then ParseBool(data, p)
      else if c == 0x6E then ParseNull(data, p)
      else if StartsNumber(c) then ParseNumber(data, p, opt)
      else Fail(InvalidJSON)
  }

  /** decodeMap, after the opening brace. */
  function ParseObject(data: Text, pos: nat, depth: nat, opt: Options): (r: Parse<seq<Member>>)
    requires pos <= |data|
    ensures Advances(data, pos, r)
    decreases |data| - pos, 2
  {
    var p := SkipSpace(data, pos);
    if At(data, p, RBRACE) then Ok([], p + 1) else ParseMembers(data, p, depth, opt)
  }

  function ParseMembers(data: Text, pos: nat, depth: nat, opt: Options): (r: Parse<seq<Member>>)
    requires pos <= |data|
    ensures Advances(data, pos, r)
    decreases |data| - pos, 1
  {
    match ParseMember(data, pos, depth, opt)
    case Fail(e) => Fail(e)
    case Ok(m, p) =>
      var q := SkipSpace(data, p);
      if At(data, q, RBRACE) then Ok([m], q + 1)
      else if At(data, q, COMMA) then Extend([m], ParseMembers(data, q + 1, depth, opt))
      else Fail(InvalidJSON)
  }

  /** One key, its colon and its value. */
  function ParseMember(data: Text, pos: nat, depth: nat, opt: Options): (r: Parse<Member>)
    requires pos <= |data|
    ensures Advances(data, pos, r)
    decreases |data| - pos, 0
  {
    match ParseKey(data, pos)
    case Fail(e) => Fail(e)
    case Ok(k, p) =>
      match ParseValue(data, SkipSpace(data, p), depth, opt)
      case Fail(e) => Fail(e)
      case Ok(v, q) => Ok(Member(Name(k), v), q)
  }

  /** One key and its colon. */
  function ParseKey(data: Text, pos: nat): (r: Parse<Text>)
    requires pos <= |data|
    ensures Advances(data, pos, r)
  {
    var p := SkipSpace(data, pos);
    if !At(data, p, QUOTE) then Fail(InvalidJSON)
    else
      match ParseString(data, p)
      case Fail(e) => Fail(e)
      case Ok(k, q) =>
        var c := SkipSpace(data, q);
        if At(data, c, COLON) then Ok(k, c + 1) else Fail(InvalidJSON)
  }

  /** decodeSlice, after the opening bracket. */
  function ParseArray(data: Text, pos: nat, depth: nat, opt: Options): (r: Parse<seq<Val>>)
    requires pos <= |data|
    ensures Advances(data, pos, r)
    decreases |data| - pos, 2
  {
    var p := SkipSpace(data, pos);
    if At(data, p, RBRACKET) then Ok([], p + 1) else ParseItems(data, p, depth, opt)
  }

  function ParseItems(data: Text, pos: nat, depth: nat, opt: Options): (r: Parse<seq<Val>>)
    requires pos <= |data|
    ensures Advances(data, pos, r)
    decreases |data| - pos, 1
  {
    match ParseValue(data, pos, depth, opt)
    case Fail(e) => Fail(e)
    case Ok(v, p) =>
      var q := SkipSpace(data, p);
      if At(data, q, RBRACKET) then Ok([v], q + 1)
      else if At(data, q, COMMA) then Extend([v], ParseItems(data, q + 1, depth, opt))
      else Fail(InvalidJSON)
  }

  // ----- skipValue -----

  predicate IsDelimiter(c: byte) {
    c == COMMA || c == RBRACE || c == RBRACKET || IsSpace(c)
  }

  /** The vector library's FindStructuralChar on the delimiters: their first index or a
      negative number. */
  function FindDelimiter(data: Text, pos: nat): (r: int)
    requires pos <= |data|
    ensures r >= 0 ==> pos <= r < |data| && IsDelimiter(data[r])
    decreases |data| - pos
  {
    if pos == |data| then -1
    else if IsDelimiter(data[pos]) then pos
    else FindDelimiter(data, pos + 1)
  }

  function SkipNumber(data: Text, pos: nat): (r: Parse<()>)
    requires pos < |data| && !IsDelimiter(data[pos])
    ensures Advances(data, pos, r)
  {
    var end := FindDelimiter(data, pos);
    Ok((), if end < 0 then |data| else end)
  }

  predicate IsLower(c: byte) {
    0x61 <= c <= 0x7A
  }

  function LettersEnd(data: Text, pos: nat): (r: nat)
    requires pos <= |data|
    ensures pos <= r <= |data|
    decreases |data| - pos
  {
    if pos < |data| && IsLower(data[pos]) then LettersEnd(data, pos + 1) else pos
  }

  function SkipLiteral(data: Text, pos: nat): (r: Parse<()>)
    requires pos <= |data|
    ensures Advances(data, pos, r)
  {
    var end := LettersEnd(data, pos);
    var t := data[pos..end];
    if t == TRUE_TEXT || t == FALSE_TEXT || t == NULL_TEXT then Ok((), end) else Fail(InvalidValue)
  }

  /** skipString reads its first byte without a bounds check. */
  function SkipString(data: Text, pos: nat): (r: Parse<()>)
    requires pos <= |data|
    ensures Advances(data, pos, r)
  {
    if pos == |data| then Fail(IndexPanic)
    else if data[pos] != QUOTE then Fail(InvalidString)
    else
      var end := FindQuote(data, pos + 1);
      if end < 0 then Fail(InvalidString) else Ok((), end + 1)
  }

  function SkipValue(data: Text, pos: nat): (r: Parse<()>)
    requires pos <= |data|
    ensures Advances(data, pos, r)
    decreases |data| - pos, 0
  {
    var p := SkipSpace(data, pos);
    if p == |data| then Fail(InvalidJSON)
    else
      var c := data[p];
      if c == LBRACE then SkipObject(data, p + 1)
      else if c == LBRACKET then SkipArray(data, p + 1)
      else if c == QUOTE then SkipString(data, p)
      else if c == 0x74 || c == 0x66 || c == 0x6E then SkipLiteral(data, p)
      else if StartsNumber(c) then SkipNumber(data, p)
      else Fail(InvalidJSON)
  }

  function SkipObject(data: Text, pos: nat): (r: Parse<()>)
    requires pos <= |data|
    ensures Advances(data, pos, r)
    decreases |data| - pos, 2
  {
    var p := SkipSpace(data, pos);
    if At(data, p, RBRACE) then Ok((), p + 1) else SkipMembers(data, p)
  }

  function SkipMembers(data: Text, pos: nat): (r: Parse<()>)
    requires pos <= |data|
    ensures Advances(data, pos, r)
    decreases |data| - pos, 1
  {
    match SkipMember(data, pos)
    case Fail(e) => Fail(e)
    case Ok(_, p) =>
      var q := SkipSpace(data, p);
      if At(data, q, RBRACE) then Ok((), q + 1)
      else if At(data, q, COMMA) then SkipMembers(data, q + 1)
      else Fail(InvalidJSON)
  }

  function SkipMember(data: Text, pos: nat): (r: Parse<()>)
    requires pos <= |data|
    ensures Advances(data, pos, r)
    decreases |data| - pos, 0
  {
    match SkipKey(data, pos)
    case Fail(e) => Fail(e)
    case Ok(_, p) => SkipValue(data, p)
  }

  function SkipKey(data: Text, pos: nat): (r: Parse<()>)
    requires pos <= |data|
    ensures Advances(data, pos, r)
  {
    match SkipString(data, SkipSpace(data, pos))
    case Fail(e) => Fail(e)
    case Ok(_, p) =>
      var c := SkipSpace(data, p);
      if At(data, c, COLON) then Ok((), c + 1) else Fail(InvalidJSON)
  }

  function SkipArray(data: Text, pos: nat): (r: Parse<()>)
    requires pos <= |data|
    ensures Advances(data, pos, r)
    decreases |data| - pos, 2
  {
    var p := SkipSpace(data, pos);
    if At(data, p, RBRACKET) then Ok((), p + 1) else SkipItems(data, p)
  }

  function SkipItems(data: Text, pos: nat): (r: Parse<()>)
    requires pos <= |data|
    ensures Advances(data, pos, r)
    decreases |data| - pos, 1
  {
    match SkipValue(data, pos)
    case Fail(e) => Fail(e)
    case Ok(_, p) =>
      var q := SkipSpace(data, p);
      if At(data, q, RBRACKET) then Ok((), q + 1)
      else if At(data, q, COMMA) then SkipItems(data, q + 1)
      else Fail(InvalidJSON)
  }
}
