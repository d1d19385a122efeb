/** decodeValue and skipValue stop at the same place. */
module SkipAgreement {
  import opened Bytes
  import opened Parsing

  predicate AtDelimiter(data: Text, pos: nat) {
    pos >= |data| || IsDelimiter(data[pos])
  }

  /** What has to follow a value that starts with byte `c` for the skipper to stop with the
      decoder: a number must be followed by a delimiter, a literal by no further letter. */
  predicate Settled(data: Text, c: byte, end: nat) {
    && (StartsNumber(c) ==> AtDelimiter(data, end))
    && (c == 0x74 || c == 0x66 || c == 0x6E ==> end < |data| ==> !IsLower(data[end]))
  }

  lemma DelimiterSettles(data: Text, c: byte, end: nat)
    requires AtDelimiter(data, end)
    ensures Settled(data, c, end)
  {
  }

  lemma SkipSpaceTwice(data: Text, pos: nat)
    requires pos <= |data|
    ensures SkipSpace(data, SkipSpace(data, pos)) == SkipSpace(data, pos)
  {
  }

  /** Whatever separates values inside a container settles the value before it. */
  lemma SpaceThenClose(data: Text, pos: nat, b: byte)
    requires pos <= |data| && At(data, SkipSpace(data, pos), b) && IsDelimiter(b)
    ensures AtDelimiter(data, pos)
  {
  }

  /** There is no delimiter inside a run of number bytes. */
  lemma {:induction false} NumberRun(data: Text, pos: nat)
    requires pos <= |data|
    ensures FindDelimiter(data, pos) == FindDelimiter(data, NumberEnd(data, pos))
    decreases |data| - pos
  {
    if pos < |data| && IsNumberByte(data[pos]) {
      NumberRun(data, pos + 1);
    }
  }

  lemma NumberAgrees(data: Text, pos: nat, opt: Options)
    requires pos < |data| && StartsNumber(data[pos]) && ParseNumber(data, pos, opt).Ok?
    ensures SkipNumber(data, pos).pos == ParseNumber(data, pos, opt).pos
       <==> AtDelimiter(data, ParseNumber(data, pos, opt).pos)
  {
    NumberRun(data, pos);
  }

  lemma {:induction false} LettersRun(data: Text, pos: nat, t: Text)
    requires Has(data, pos, t) && forall i | 0 <= i < |t| :: IsLower(t[i])
    ensures pos + |t| <= |data| && LettersEnd(data, pos) == LettersEnd(data, pos + |t|)
    decreases |t|
  {
    if t != [] {
      LettersRun(data, pos + 1, t[1..]);
    }
  }

  lemma LiteralAgrees(data: Text, pos: nat, t: Text)
    requires Has(data, pos, t)
    requires t == TRUE_TEXT || t == FALSE_TEXT || t == NULL_TEXT
    ensures pos + |t| <= |data|
    ensures SkipLiteral(data, pos) == Ok((), pos + |t|)
       <==> (pos + |t| < |data| ==> !IsLower(data[pos + |t|]))
  {
    LettersRun(data, pos, t);
    HasSlice(data, pos, t);
  }

  /** Agreement on arbitrary bytes: whenever a value is decoded, the skipper ends at the same
      position exactly when the value is settled there. */
  lemma {:induction false} SkipAgrees(data: Text, pos: nat, depth: nat, opt: Options)
    requires pos <= |data| && ParseValue(data, pos, depth, opt).Ok?
    ensures SkipValue(data, pos) == Ok((), ParseValue(data, pos, depth, opt).pos)
       <==> Settled(data, data[SkipSpace(data, pos)], ParseValue(data, pos, depth, opt).pos)
    decreases |data| - pos, 0
  {
    var p := SkipSpace(data, pos);
    var c := data[p];
    if c == LBRACE {
      ObjectAgrees(data, p + 1, depth + 1, opt);
    } else if c == LBRACKET {
      ArrayAgrees(data, p + 1, depth + 1, opt);
    } else if c == 0x74 || c == 0x66 {
      LiteralAgrees(data, p, if Has(data, p, TRUE_TEXT) then TRUE_TEXT else FALSE_TEXT);
    } else if c == 0x6E {
      LiteralAgrees(data, p, NULL_TEXT);
    } else if StartsNumber(c) {
      NumberAgrees(data, p, opt);
    }
  }

  lemma {:induction false} ObjectAgrees(data: Text, pos: nat, depth: nat, opt: Options)
    requires pos <= |data| && ParseObject(data, pos, depth, opt).Ok?
    ensures SkipObject(data, pos) == Ok((), ParseObject(data, pos, depth, opt).pos)
    decreases |data| - pos, 3
  {
    var p := SkipSpace(data, pos);
    if !At(data, p, RBRACE) {
      MembersAgree(data, p, depth, opt);
    }
  }

  lemma {:induction false} MembersAgree(data: Text, pos: nat, depth: nat, opt: Options)
    requires pos <= |data| && ParseMembers(data, pos, depth, opt).Ok?
    ensures SkipMembers(data, pos) == Ok((), ParseMembers(data, pos, depth, opt).pos)
    decreases |data| - pos, 2
  {
    var p := ParseMember(data, pos, depth, opt).pos;
    var q := SkipSpace(data, p);
    SpaceThenClose(data, p, data[q]);
    MemberAgrees(data, pos, depth, opt);
    if At(data, q, COMMA) {
      MembersAgree(data, q + 1, depth, opt);
    }
  }

  lemma KeyAgrees(data: Text, pos: nat)
    requires pos <= |data| && ParseKey(data, pos).Ok?
    ensures SkipKey(data, pos) == Ok((), ParseKey(data, pos).pos)
  {
  }

  lemma {:induction false} MemberAgrees(data: Text, pos: nat, depth: nat, opt: Options)
    requires pos <= |data| && ParseMember(data, pos, depth, opt).Ok?
    requires AtDelimiter(data, ParseMember(data, pos, depth, opt).pos)
    ensures SkipMember(data, pos) == Ok((), ParseMember(data, pos, depth, opt).pos)
    decreases |data| - pos, 1
  {
    KeyAgrees(data, pos);
    var p := ParseKey(data, pos).pos;
    SkipSpaceTwice(data, p);
    ValueAgrees(data, p, depth, opt);
  }

  /** The form used inside containers: a value followed by a delimiter. */
  lemma {:induction false} ValueAgrees(data: Text, pos: nat, depth: nat, opt: Options)
    requires pos <= |data| && ParseValue(data, pos, depth, opt).Ok?
    requires AtDelimiter(data, ParseValue(data, pos, depth, opt).pos)
    ensures SkipValue(data, pos) == Ok((), ParseValue(data, pos, depth, opt).pos)
    decreases |data| - pos, 1
  {
    SkipAgrees(data, pos, depth, opt);
    DelimiterSettles(data, data[SkipSpace(data, pos)], ParseValue(data, pos, depth, opt).pos);
  }

  lemma {:induction false} ArrayAgrees(data: Text, pos: nat, depth: nat, opt: Options)
    requires pos <= |data| && ParseArray(data, pos, depth, opt).Ok?
    ensures SkipArray(data, pos) == Ok((), ParseArray(data, pos, depth, opt).pos)
    decreases |data| - pos, 3
  {
    var p := SkipSpace(data, pos);
    if !At(data, p, RBRACKET) {
      ItemsAgree(data, p, depth, opt);
    }
  }

  lemma {:induction false} ItemsAgree(data: Text, pos: nat, depth: nat, opt: Options)
    requires pos <= |data| && ParseItems(data, pos, depth, opt).Ok?
    ensures SkipItems(data, pos) == Ok((), ParseItems(data, pos, depth, opt).pos)
    decreases |data| - pos, 2
  {
    var p := ParseValue(data, pos, depth, opt).pos;
    var q := SkipSpace(data, p);
    SpaceThenClose(data, p, data[q]);
    ValueAgrees(data, pos, depth, opt);
    if At(data, q, COMMA) {
      ItemsAgree(data, q + 1, depth, opt);
    }
  }

  /** The skip functions panic on an object cut off before a key, where the decoder reports an
      error. */
  lemma SkipPanicsOnTruncatedObject(pad: Text)
    requires AllSpace(pad)
    ensures SkipValue([LBRACE] + pad, 0) == Fail(IndexPanic)
    ensures forall depth: nat, opt :: ParseValue([LBRACE] + pad, 0, depth, opt).Fail?
  {
    var data := [LBRACE] + pad;
    HasSlice(data, 1, pad);
    assert data[1..1 + |pad|] == pad;
    SkipSpaceOver(data, 1, pad);
    assert SkipSpace(data, 0) == 0;
    SkipSpaceTwice(data, 1);
    forall depth: nat, opt
      ensures ParseValue(data, 0, depth, opt).Fail?
    {
      assert ParseKey(data, |data|).Fail?;
      assert ParseObject(data, 1, depth + 1, opt).Fail?;
    }
    assert SkipKey(data, |data|) == Fail(IndexPanic);
    assert SkipMembers(data, |data|) == Fail(IndexPanic);
    assert SkipObject(data, 1) == Fail(IndexPanic);
  }
}
