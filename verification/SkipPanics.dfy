/** When the skip functions index out of range: exactly on data that stops where a key of an
    object it is passing has to come. */
module SkipPanics {
  import opened Bytes
  import opened Strings
  import opened Parsing
  import opened Targets
  import SkipAgreement
  import DepthLimit

  // ----- where the data stops -----

  /** `e` is the last byte of `data` that is not white space, and a key has to follow it. */
  predicate WantsKey(data: Text, pos: nat, e: nat) {
    pos <= e < |data| && (data[e] == LBRACE || data[e] == COMMA) && SkipSpace(data, e + 1) == |data|
  }

  lemma KeyPanics(data: Text, pos: nat)
    requires pos <= |data|
    ensures SkipKey(data, pos) == Fail(IndexPanic) <==> SkipSpace(data, pos) == |data|
  {
  }

  lemma SpaceRun(data: Text, pos: nat)
    requires pos <= |data|
    ensures SkipSpace(data, SkipSpace(data, pos)) == SkipSpace(data, pos)
  {
    SkipAgreement.SkipSpaceTwice(data, pos);
  }

  /** A panic means that the data stops after an opening brace or a comma. */
  lemma {:induction false} PanicEndsAtKey(data: Text, pos: nat) returns (e: nat)
    requires pos <= |data| && SkipValue(data, pos) == Fail(IndexPanic)
    ensures WantsKey(data, pos, e)
    decreases |data| - pos, 0
  {
    var p := SkipSpace(data, pos);
    var q := SkipSpace(data, p + 1);
    if data[p] == LBRACE {
      e := MembersEndAtKey(data, q, p);
    } else {
      e := ItemsEndAtKey(data, q);
    }
  }

  /** `open` is where the byte before the members stands. */
  lemma {:induction false} MembersEndAtKey(data: Text, pos: nat, open: nat) returns (e: nat)
    requires pos <= |data| && SkipMembers(data, pos) == Fail(IndexPanic)
    requires open < pos && (data[open] == LBRACE || data[open] == COMMA)
    requires SkipSpace(data, open + 1) == SkipSpace(data, pos)
    ensures WantsKey(data, open, e)
    decreases |data| - pos, 1
  {
    var k := SkipKey(data, pos);
    var m := SkipMember(data, pos);
    if k.Fail? {
      KeyPanics(data, pos);
      e := open;
    } else if m.Fail? {
      e := PanicEndsAtKey(data, k.pos);
    } else {
      var q := SkipSpace(data, m.pos);
      e := MembersEndAtKey(data, q + 1, q);
    }
  }

  lemma {:induction false} ItemsEndAtKey(data: Text, pos: nat) returns (e: nat)
    requires pos <= |data| && SkipItems(data, pos) == Fail(IndexPanic)
    ensures WantsKey(data, pos, e)
    decreases |data| - pos, 1
  {
    var v := SkipValue(data, pos);
    if v.Fail? {
      e := PanicEndsAtKey(data, pos);
    } else {
      e := ItemsEndAtKey(data, SkipSpace(data, v.pos) + 1);
    }
  }

  // ----- what has been passed stays passed -----

  lemma {:induction false} SpaceStays(data: Text, x: Text, pos: nat)
    requires pos <= |data| && SkipSpace(data, pos) < |data|
    ensures SkipSpace(data + x, pos) == SkipSpace(data, pos)
    decreases |data| - pos
  {
    if IsSpace(data[pos]) {
      SpaceStays(data, x, pos + 1);
    }
  }

  lemma {:induction false} QuoteStays(data: Text, x: Text, pos: nat)
    requires pos <= |data| && FindQuote(data, pos) >= 0
    ensures FindQuote(data + x, pos) == FindQuote(data, pos)
    decreases |data| - pos
  {
    if data[pos] != QUOTE {
      QuoteStays(data, x, if data[pos] == BACKSLASH then pos + 2 else pos + 1);
    }
  }

  lemma {:induction false} DelimiterStays(data: Text, x: Text, pos: nat)
    requires pos <= |data| && FindDelimiter(data, pos) >= 0
    ensures FindDelimiter(data + x, pos) == FindDelimiter(data, pos)
    decreases |data| - pos
  {
    if !IsDelimiter(data[pos]) {
      DelimiterStays(data, x, pos + 1);
    }
  }

  lemma {:induction false} LettersStay(data: Text, x: Text, pos: nat)
    requires pos <= |data| && LettersEnd(data, pos) < |data|
    ensures LettersEnd(data + x, pos) == LettersEnd(data, pos)
    decreases |data| - pos
  {
    if IsLower(data[pos]) {
      LettersStay(data, x, pos + 1);
    }
  }

  lemma StringStays(data: Text, x: Text, pos: nat)
    requires pos <= |data| && SkipString(data, pos).Ok?
    ensures SkipString(data + x, pos) == SkipString(data, pos)
  {
    QuoteStays(data, x, pos + 1);
  }

  lemma KeyStays(data: Text, x: Text, pos: nat)
    requires pos <= |data| && SkipKey(data, pos).Ok?
    ensures SkipKey(data + x, pos) == SkipKey(data, pos)
  {
    var p := SkipSpace(data, pos);
    SpaceStays(data, x, pos);
    StringStays(data, x, p);
    SpaceStays(data, x, SkipString(data, p).pos);
  }

  lemma LiteralStays(data: Text, x: Text, pos: nat)
    requires pos <= |data| && LettersEnd(data, pos) < |data|
    ensures SkipLiteral(data + x, pos) == SkipLiteral(data, pos)
  {
    LettersStay(data, x, pos);
    var end := LettersEnd(data, pos);
    assert (data + x)[pos..end] == data[pos..end];
  }

  /** A value that ends before the data does is passed in the same way whatever is appended. */
  lemma {:induction false} ValueStays(data: Text, x: Text, pos: nat)
    requires pos <= |data| && SkipValue(data, pos).Ok? && SkipValue(data, pos).pos < |data|
    ensures SkipValue(data + x, pos) == SkipValue(data, pos)
    decreases |data| - pos, 0
  {
    var p := SkipSpace(data, pos);
    SpaceStays(data, x, pos);
    var c := data[p];
    if c == LBRACE {
      var q := SkipSpace(data, p + 1);
      SpaceStays(data, x, p + 1);
      if !At(data, q, RBRACE) {
        MembersStay(data, x, q);
      }
    } else if c == LBRACKET {
      var q := SkipSpace(data, p + 1);
      SpaceStays(data, x, p + 1);
      if !At(data, q, RBRACKET) {
        ItemsStay(data, x, q);
      }
    } else if c == QUOTE {
      StringStays(data, x, p);
    } else if c == 0x74 || c == 0x66 || c == 0x6E {
      LiteralStays(data, x, p);
    } else {
      DelimiterStays(data, x, p);
    }
  }

  lemma {:induction false} MemberStays(data: Text, x: Text, pos: nat)
    requires pos <= |data| && SkipMember(data, pos).Ok? && SkipMember(data, pos).pos < |data|
    ensures SkipMember(data + x, pos) == SkipMember(data, pos)
    decreases |data| - pos, 1
  {
    KeyStays(data, x, pos);
    ValueStays(data, x, SkipKey(data, pos).pos);
  }

  lemma {:induction false} MembersStay(data: Text, x: Text, pos: nat)
    requires pos <= |data| && SkipMembers(data, pos).Ok?
    ensures SkipMembers(data + x, pos) == SkipMembers(data, pos)
    decreases |data| - pos, 2
  {
    hide SkipSpace, SkipMember;
    var p := SkipMember(data, pos).pos;
    var q := SkipSpace(data, p);
    SpaceStays(data, x, p);
    MemberStays(data, x, pos);
    if At(data, q, COMMA) {
      MembersStay(data, x, q + 1);
    }
  }

  lemma {:induction false} ItemsStay(data: Text, x: Text, pos: nat)
    requires pos <= |data| && SkipItems(data, pos).Ok?
    ensures SkipItems(data + x, pos) == SkipItems(data, pos)
    decreases |data| - pos, 2
  {
    hide SkipSpace, SkipValue;
    var p := SkipValue(data, pos).pos;
    var q := SkipSpace(data, p);
    SpaceStays(data, x, p);
    ValueStays(data, x, pos);
    if At(data, q, COMMA) {
      ItemsStay(data, x, q + 1);
    }
  }

  // ----- data that panics can be completed -----

  /** A member with an empty key, set off by a blank that ends a number or literal before it. */
  const MEMBER: Text := [SPACE, QUOTE, QUOTE, COLON, ZERO]

  /** Closing brackets, the first of them that of an object. */
  predicate EndsObject(cs: Text) {
    cs != [] && cs[0] == RBRACE && forall i | 0 <= i < |cs| :: cs[i] == RBRACE || cs[i] == RBRACKET
  }

  /** The data with a member and closing brackets appended. */
  function Completed(data: Text, cs: Text): Text {
    data + (MEMBER + cs)
  }

  lemma {:induction false} SpaceGoesOn(data: Text, x: Text, pos: nat)
    requires pos <= |data| && SkipSpace(data, pos) == |data|
    ensures SkipSpace(data + x, pos) == SkipSpace(data + x, |data|)
    decreases |data| - pos
  {
    if pos < |data| {
      SpaceGoesOn(data, x, pos + 1);
    }
  }

  /** A member that is given where its key was missing, and the end of its object. */
  lemma {:induction false} MemberCompletes(data: Text, pos: nat, y: Text)
    requires pos <= |data| && SkipSpace(data, pos) == |data|
    ensures SkipMembers(data + (MEMBER + [RBRACE] + y), pos) == Ok((), |data| + 6)
  {
    var n, d := |data|, data + (MEMBER + [RBRACE] + y);
    assert d[n] == SPACE && d[n + 1] == QUOTE && d[n + 2] == QUOTE && d[n + 3] == COLON && d[n + 4] == ZERO;
    assert d[n + 5] == RBRACE;
    SpaceGoesOn(data, MEMBER + [RBRACE] + y, pos);
    assert SkipSpace(d, n) == SkipSpace(d, n + 1) == n + 1;
    assert SkipKey(d, pos) == Ok((), n + 4);
    assert FindDelimiter(d, n + 4) == FindDelimiter(d, n + 5) == n + 5;
    assert SkipValue(d, n + 4) == Ok((), n + 5);
  }

  /** Behind the closers `cs` that an inner value needs comes the one of its container. */
  lemma Closer(data: Text, cs: Text, b: byte, y: Text)
    requires b == RBRACE || b == RBRACKET
    ensures MEMBER + cs + ([b] + y) == MEMBER + (cs + [b]) + y
    ensures var d, n := data + (MEMBER + (cs + [b]) + y), |data| + 5 + |cs|; d[n] == b && SkipSpace(d, n) == n
  {
    assert MEMBER + cs + ([b] + y) == MEMBER + (cs + [b]) + y;
  }

  /** Whatever follows (`y`): the missing member and some closers make the value whole. */
  lemma {:induction false} ValueCompletes(data: Text, pos: nat, y: Text) returns (cs: Text)
    requires pos <= |data| && SkipValue(data, pos) == Fail(IndexPanic)
    ensures EndsObject(cs) && SkipValue(data + (MEMBER + cs + y), pos) == Ok((), |data| + 5 + |cs|)
    decreases |data| - pos, 0
  {
    var p := SkipSpace(data, pos);
    if data[p] == LBRACE {
      cs := ObjectCompletes(data, p + 1, y);
    } else {
      cs := ArrayCompletes(data, p + 1, y);
    }
    SpaceStays(data, MEMBER + cs + y, pos);
    assert (data + (MEMBER + cs + y))[p] == data[p];
  }

  lemma {:induction false} ObjectCompletes(data: Text, pos: nat, y: Text) returns (cs: Text)
    requires pos <= |data| && SkipObject(data, pos) == Fail(IndexPanic)
    ensures EndsObject(cs) && SkipObject(data + (MEMBER + cs + y), pos) == Ok((), |data| + 5 + |cs|)
    decreases |data| - pos, 2
  {
    var p := SkipSpace(data, pos);
    cs := MembersComplete(data, p, y);
    var x := MEMBER + cs + y;
    if p < |data| {
      SpaceStays(data, x, pos);
    } else {
      SpaceGoesOn(data, x, pos);
      assert (data + x)[p] == SPACE && (data + x)[p + 1] == QUOTE;
      assert SkipSpace(data + x, p) == SkipSpace(data + x, p + 1) == p + 1;
      MembersFrom(data + x, p);
    }
  }

  lemma {:induction false} ArrayCompletes(data: Text, pos: nat, y: Text) returns (cs: Text)
    requires pos <= |data| && SkipArray(data, pos) == Fail(IndexPanic)
    ensures EndsObject(cs) && SkipArray(data + (MEMBER + cs + y), pos) == Ok((), |data| + 5 + |cs|)
    decreases |data| - pos, 2
  {
    var p := SkipSpace(data, pos);
    cs := ItemsComplete(data, p, y);
    SpaceStays(data, MEMBER + cs + y, pos);
  }

  /** Members are passed the same from behind the white space before them. */
  lemma MembersFrom(data: Text, pos: nat)
    requires pos <= |data|
    ensures SkipMembers(data, SkipSpace(data, pos)) == SkipMembers(data, pos)
  {
    SpaceRun(data, pos);
    assert SkipKey(data, SkipSpace(data, pos)) == SkipKey(data, pos);
    assert SkipMember(data, SkipSpace(data, pos)) == SkipMember(data, pos);
  }

  lemma {:induction false} MembersComplete(data: Text, pos: nat, y: Text) returns (cs: Text)
    requires pos <= |data| && SkipMembers(data, pos) == Fail(IndexPanic)
    ensures EndsObject(cs) && SkipMembers(data + (MEMBER + cs + y), pos) == Ok((), |data| + 5 + |cs|)
    decreases |data| - pos, 1
  {
    hide SkipSpace, SkipKey, SkipValue, IsSpace;
    var k := SkipKey(data, pos);
    var m := SkipMember(data, pos);
    if k.Fail? {
      KeyPanics(data, pos);
      cs := [RBRACE];
      MemberCompletes(data, pos, y);
    } else if m.Fail? {
      var inner := ValueCompletes(data, k.pos, [RBRACE] + y);
      cs := inner + [RBRACE];
      Closer(data, inner, RBRACE, y);
      KeyStays(data, MEMBER + cs + y, pos);
    } else {
      var q := SkipSpace(data, m.pos);
      cs := MembersComplete(data, q + 1, y);
      MemberStays(data, MEMBER + cs + y, pos);
      SpaceStays(data, MEMBER + cs + y, m.pos);
    }
  }

  lemma {:induction false} ItemsComplete(data: Text, pos: nat, y: Text) returns (cs: Text)
    requires pos <= |data| && SkipItems(data, pos) == Fail(IndexPanic)
    ensures EndsObject(cs) && SkipItems(data + (MEMBER + cs + y), pos) == Ok((), |data| + 5 + |cs|)
    decreases |data| - pos, 1
  {
    hide SkipSpace, SkipValue;
    var v := SkipValue(data, pos);
    if v.Fail? {
      var inner := ValueCompletes(data, pos, [RBRACKET] + y);
      cs := inner + [RBRACKET];
      Closer(data, inner, RBRACKET, y);
    } else {
      var q := SkipSpace(data, v.pos);
      cs := ItemsComplete(data, q + 1, y);
      ValueStays(data, MEMBER + cs + y, pos);
      SpaceStays(data, MEMBER + cs + y, v.pos);
    }
  }

  // ----- data that can be completed panics -----

  /** How far a value can get when the data goes on with a blank and an empty key. */
  const KEY: Text := [SPACE, QUOTE, QUOTE, COLON]

  /** Where passing a value of longer data can end: before the end of the data, where it ends
      there too; or at the first quote, behind a string that the data leaves open; or at the
      second, behind the empty string; or else the data alone makes it panic. */
  predicate Reaches(short: Parse<()>, end: nat, n: nat) {
    (short.Ok? && short.pos == end <= n) || end == n + 2 || end == n + 3 || short == Fail(IndexPanic)
  }

  lemma {:induction false} SpaceBefore(data: Text, y: Text, pos: nat)
    requires pos <= |data|
    ensures var r := SkipSpace(data + (KEY + y), pos);
            if SkipSpace(data, pos) < |data| then r == SkipSpace(data, pos) else r == |data| + 1
  {
    var d := data + (KEY + y);
    if SkipSpace(data, pos) < |data| {
      SpaceStays(data, KEY + y, pos);
    } else {
      SpaceGoesOn(data, KEY + y, pos);
      assert d[|data|] == SPACE && d[|data| + 1] == QUOTE;
      assert SkipSpace(d, |data| + 1) == |data| + 1;
    }
  }

  lemma {:induction false} QuoteBefore(data: Text, y: Text, pos: nat)
    requires pos <= |data|
    ensures var r := FindQuote(data + (KEY + y), pos);
            if FindQuote(data, pos) >= 0 then r == FindQuote(data, pos) else r == |data| + 1
    decreases |data| - pos
  {
    var d := data + (KEY + y);
    assert d[|data|] == SPACE && d[|data| + 1] == QUOTE;
    if pos == |data| {
      assert FindQuote(d, pos) == FindQuote(d, pos + 1);
    } else if data[pos] != QUOTE {
      assert d[pos] == data[pos];
      if data[pos] != BACKSLASH {
        QuoteBefore(data, y, pos + 1);
      } else if pos + 1 < |data| {
        QuoteBefore(data, y, pos + 2);
      }
    }
  }

  lemma {:induction false} DelimiterBefore(data: Text, y: Text, pos: nat)
    requires pos <= |data|
    ensures var r := FindDelimiter(data + (KEY + y), pos);
            r == if FindDelimiter(data, pos) >= 0 then FindDelimiter(data, pos) else |data|
    decreases |data| - pos
  {
    assert (data + (KEY + y))[|data|] == SPACE;
    if pos < |data| && !IsDelimiter(data[pos]) {
      DelimiterBefore(data, y, pos + 1);
    }
  }

  lemma {:induction false} LettersBefore(data: Text, y: Text, pos: nat)
    requires pos <= |data|
    ensures LettersEnd(data + (KEY + y), pos) == LettersEnd(data, pos)
    decreases |data| - pos
  {
    assert (data + (KEY + y))[|data|] == SPACE;
    if pos < |data| && IsLower(data[pos]) {
      LettersBefore(data, y, pos + 1);
    }
  }

  lemma StringBefore(data: Text, y: Text, pos: nat)
    requires pos < |data| && SkipString(data + (KEY + y), pos).Ok?
    ensures Reaches(SkipString(data, pos), SkipString(data + (KEY + y), pos).pos, |data|)
    ensures SkipString(data, pos) != Fail(IndexPanic) && SkipString(data + (KEY + y), pos).pos != |data| + 3
  {
    QuoteBefore(data, y, pos + 1);
  }

  lemma KeyBefore(data: Text, y: Text, pos: nat)
    requires pos <= |data| && SkipKey(data + (KEY + y), pos).Ok?
    ensures SkipKey(data, pos) == Fail(IndexPanic) || SkipKey(data, pos) == SkipKey(data + (KEY + y), pos)
  {
    var d := data + (KEY + y);
    assert d[|data|] == SPACE && d[|data| + 1] == QUOTE && d[|data| + 2] == QUOTE && d[|data| + 3] == COLON;
    SpaceBefore(data, y, pos);
    var p := SkipSpace(data, pos);
    if p < |data| {
      StringBefore(data, y, p);
      var q := SkipString(d, p).pos;
      if q <= |data| {
        SpaceBefore(data, y, q);
      }
    }
  }

  /** What comes after a value inside a container is not a quote or a colon. */
  lemma NextBefore(data: Text, y: Text, pos: nat, short: Parse<()>, b: byte)
    requires pos <= |data + (KEY + y)| && Reaches(short, pos, |data|) && short != Fail(IndexPanic)
    requires At(data + (KEY + y), SkipSpace(data + (KEY + y), pos), b) && b != QUOTE && b != COLON
    ensures short.Ok? && short.pos == pos <= |data|
    ensures SkipSpace(data, pos) == SkipSpace(data + (KEY + y), pos) < |data| && At(data, SkipSpace(data, pos), b)
  {
    var d := data + (KEY + y);
    assert d[|data| + 1] == QUOTE && d[|data| + 2] == QUOTE && d[|data| + 3] == COLON;
    if pos <= |data| {
      SpaceBefore(data, y, pos);
    }
  }

  lemma {:induction false} ValueBefore(data: Text, y: Text, pos: nat)
    requires pos <= |data| && SkipValue(data + (KEY + y), pos).Ok?
    ensures Reaches(SkipValue(data, pos), SkipValue(data + (KEY + y), pos).pos, |data|)
    decreases |data| - pos, 0
  {
    var d := data + (KEY + y);
    var p := SkipSpace(data, pos);
    SpaceBefore(data, y, pos);
    if p == |data| {
      assert d[p + 1] == QUOTE && d[p + 2] == QUOTE;
    } else {
      var c := data[p];
      assert d[p] == c;
      if c == LBRACE {
        ObjectBefore(data, y, p + 1);
        assert SkipValue(d, pos) == SkipObject(d, p + 1) && SkipValue(data, pos) == SkipObject(data, p + 1);
      } else if c == LBRACKET {
        ArrayBefore(data, y, p + 1);
        assert SkipValue(d, pos) == SkipArray(d, p + 1) && SkipValue(data, pos) == SkipArray(data, p + 1);
      } else if c == QUOTE {
        StringBefore(data, y, p);
      } else if c == 0x74 || c == 0x66 || c == 0x6E {
        LettersBefore(data, y, p);
        assert d[p..LettersEnd(data, p)] == data[p..LettersEnd(data, p)];
        assert SkipLiteral(d, p) == SkipLiteral(data, p);
      } else if StartsNumber(c) {
        DelimiterBefore(data, y, p);
        assert SkipNumber(d, p) == SkipNumber(data, p);
      }
    }
  }

  lemma {:induction false} ObjectBefore(data: Text, y: Text, pos: nat)
    requires pos <= |data| && SkipObject(data + (KEY + y), pos).Ok?
    ensures SkipObject(data, pos) == Fail(IndexPanic) || SkipObject(data, pos) == SkipObject(data + (KEY + y), pos)
    decreases |data| - pos, 3
  {
    var d := data + (KEY + y);
    var p := SkipSpace(data, pos);
    SpaceBefore(data, y, pos);
    if p == |data| {
      assert d[p + 1] == QUOTE;
      assert SkipKey(data, p) == Fail(IndexPanic);
      assert SkipMember(data, p) == Fail(IndexPanic);
    } else if data[p] != RBRACE {
      MembersBefore(data, y, p);
    }
  }

  lemma {:induction false} MembersBefore(data: Text, y: Text, pos: nat)
    requires pos <= |data| && SkipMembers(data + (KEY + y), pos).Ok?
    ensures SkipMembers(data, pos) == Fail(IndexPanic) || SkipMembers(data, pos) == SkipMembers(data + (KEY + y), pos)
    decreases |data| - pos, 2
  {
    hide SkipSpace, SkipMember;
    var d := data + (KEY + y);
    var m := SkipMember(data, pos);
    MemberBefore(data, y, pos);
    if m != Fail(IndexPanic) {
      var p := SkipMember(d, pos).pos;
      NextBefore(data, y, p, m, d[SkipSpace(d, p)]);
      var q := SkipSpace(data, p);
      if At(data, q, COMMA) {
        MembersBefore(data, y, q + 1);
      }
    }
  }

  lemma {:induction false} MemberBefore(data: Text, y: Text, pos: nat)
    requires pos <= |data| && SkipMember(data + (KEY + y), pos).Ok?
    ensures Reaches(SkipMember(data, pos), SkipMember(data + (KEY + y), pos).pos, |data|)
    decreases |data| - pos, 1
  {
    KeyBefore(data, y, pos);
    var k := SkipKey(data, pos);
    if k.Ok? {
      ValueBefore(data, y, k.pos);
    }
  }

  lemma {:induction false} ArrayBefore(data: Text, y: Text, pos: nat)
    requires pos <= |data| && SkipArray(data + (KEY + y), pos).Ok?
    ensures SkipArray(data, pos) == Fail(IndexPanic) || SkipArray(data, pos) == SkipArray(data + (KEY + y), pos)
    decreases |data| - pos, 3
  {
    var d := data + (KEY + y);
    var p := SkipSpace(data, pos);
    SpaceBefore(data, y, pos);
    if p == |data| {
      NoItems(data, y);
    } else if data[p] != RBRACKET {
      ItemsBefore(data, y, p);
    }
  }

  /** In an array the empty string is followed by a colon. */
  lemma NoItems(data: Text, y: Text)
    ensures SkipItems(data + (KEY + y), |data| + 1).Fail?
  {
    var n, d := |data|, data + (KEY + y);
    assert d[n + 1] == QUOTE && d[n + 2] == QUOTE && d[n + 3] == COLON;
    assert SkipValue(d, n + 1) == Ok((), n + 3);
    assert SkipSpace(d, n + 3) == n + 3;
  }

  lemma {:induction false} ItemsBefore(data: Text, y: Text, pos: nat)
    requires pos <= |data| && SkipItems(data + (KEY + y), pos).Ok?
    ensures SkipItems(data, pos) == Fail(IndexPanic) || SkipItems(data, pos) == SkipItems(data + (KEY + y), pos)
    decreases |data| - pos, 2
  {
    hide SkipSpace, SkipValue;
    var d := data + (KEY + y);
    var v := SkipValue(data, pos);
    ValueBefore(data, y, pos);
    if v != Fail(IndexPanic) {
      var p := SkipValue(d, pos).pos;
      NextBefore(data, y, p, v, d[SkipSpace(d, p)]);
      var q := SkipSpace(data, p);
      if At(data, q, COMMA) {
        ItemsBefore(data, y, q + 1);
      }
    }
  }

  // ----- the exact condition -----

  /** skipValue panics exactly when the data can be completed by a member with an empty key and
      closing brackets to a value that is passed: it has passed everything so far, and the key
      of a member is what it misses. */
  lemma {:induction false} SkipPanicsExactly(data: Text, pos: nat)
    requires pos <= |data|
    ensures SkipValue(data, pos) == Fail(IndexPanic)
       <==> exists cs: Text :: EndsObject(cs) && SkipValue(Completed(data, cs), pos) == Ok((), |Completed(data, cs)|)
  {
    if SkipValue(data, pos) == Fail(IndexPanic) {
      var cs := ValueCompletes(data, pos, []);
      assert MEMBER + cs + [] == MEMBER + cs;
      assert EndsObject(cs) && SkipValue(Completed(data, cs), pos) == Ok((), |Completed(data, cs)|);
    } else if cs: Text :| EndsObject(cs) && SkipValue(Completed(data, cs), pos) == Ok((), |Completed(data, cs)|) {
      assert MEMBER + cs == KEY + ([ZERO] + cs);
      ValueBefore(data, [ZERO] + cs, pos);
    }
  }

  /** The last byte does not decide: a number runs on to the next delimiter and takes an opening
      brace with it. */
  lemma BraceInNumber()
    ensures var data := [LBRACKET, ZERO, LBRACE]; WantsKey(data, 0, 2) && SkipValue(data, 0) == Fail(InvalidJSON)
  {
    var data := [LBRACKET, ZERO, LBRACE];
    assert SkipSpace(data, 0) == 0 && SkipSpace(data, 1) == 1 && SkipSpace(data, 3) == 3;
    assert FindDelimiter(data, 2) == FindDelimiter(data, 3) == -1;
    assert FindDelimiter(data, 1) == -1;
    assert SkipValue(data, 1) == Ok((), 3);
    assert SkipItems(data, 1) == Fail(InvalidJSON);
  }

  // ----- struct and fixed-array targets -----

  /** The struct loop, started at a member, comes to the value of an unknown member at `at`. */
  predicate ComesToUnknown(data: Text, pos: nat, depth: nat, opt: Options, t: Table, fields: map<nat, Any>, at: nat)
    requires pos <= |data|
    decreases |data| - pos
  {
    match ParseKey(data, pos)
    case Fail(_) => false
    case Ok(k, p) =>
      (at == p && Resolve(t, k) == None && !t.disallowUnknown)
      || match ParseField(data, pos, depth, opt, t, fields)
         case Fail(_) => false
         case Ok(fs, end) =>
           var q := SkipSpace(data, end);
           At(data, q, COMMA) && ComesToUnknown(data, q + 1, depth, opt, t, fs, at)
  }

  lemma FieldPanics(data: Text, pos: nat, depth: nat, opt: Options, t: Table, fields: map<nat, Any>)
    requires pos <= |data|
    ensures ParseField(data, pos, depth, opt, t, fields) == Fail(IndexPanic)
       <==> var k := ParseKey(data, pos);
            k.Ok? && Resolve(t, k.value) == None && !t.disallowUnknown && SkipValue(data, k.pos) == Fail(IndexPanic)
  {
    var k := ParseKey(data, pos);
    if k.Ok? {
      DepthLimit.ParseNeverPanics(data, k.pos, depth, opt);
    }
  }

  lemma {:induction false} FieldsPanic(data: Text, pos: nat, depth: nat, opt: Options, t: Table, fields: map<nat, Any>)
    requires pos <= |data|
    ensures ParseFields(data, pos, depth, opt, t, fields) == Fail(IndexPanic)
       <==> exists at: nat | at <= |data| ::
              ComesToUnknown(data, pos, depth, opt, t, fields, at) && SkipValue(data, at) == Fail(IndexPanic)
    decreases |data| - pos
  {
    hide SkipSpace, ParseKey, SkipValue, ParseField;
    FieldPanics(data, pos, depth, opt, t, fields);
    FieldSkips(data, pos, depth, opt, t, fields);
    var k, r := ParseKey(data, pos), ParseField(data, pos, depth, opt, t, fields);
    if r == Fail(IndexPanic) {
      assert ComesToUnknown(data, pos, depth, opt, t, fields, k.pos);
    } else if r.Ok? {
      var q := SkipSpace(data, r.pos);
      if At(data, q, COMMA) {
        FieldsPanic(data, q + 1, depth, opt, t, r.value);
        forall at: nat | at <= |data| && SkipValue(data, at) == Fail(IndexPanic)
          ensures ComesToUnknown(data, pos, depth, opt, t, fields, at)
             <==> ComesToUnknown(data, q + 1, depth, opt, t, r.value, at)
        {
        }
      }
    }
  }

  /** A member that is read has not panicked at its own value. */
  lemma FieldSkips(data: Text, pos: nat, depth: nat, opt: Options, t: Table, fields: map<nat, Any>)
    requires pos <= |data|
    ensures var k := ParseKey(data, pos);
            (k.Ok? && Resolve(t, k.value) == None && !t.disallowUnknown
                && ParseField(data, pos, depth, opt, t, fields).Ok?)
            ==> SkipValue(data, k.pos).Ok?
    ensures ParseField(data, pos, depth, opt, t, fields).Ok? ==> ParseKey(data, pos).Ok?
  {
  }

  /** Decoding an object into a struct panics exactly when it comes to the value of a member that
      no field takes (and that is not refused) and skipping that value panics. */
  lemma StructPanicsExactly(data: Text, pos: nat, depth: nat, opt: Options, t: Table, fields: map<nat, Any>)
    requires pos <= |data|
    ensures ParseStruct(data, pos, depth, opt, t, fields) == Fail(IndexPanic)
       <==> var p := SkipSpace(data, pos);
            !At(data, p, RBRACE)
            && exists at: nat | at <= |data| ::
                 ComesToUnknown(data, p, depth, opt, t, fields, at) && SkipValue(data, at) == Fail(IndexPanic)
  {
    hide ParseFields, ComesToUnknown, SkipValue;
    FieldsPanic(data, SkipSpace(data, pos), depth, opt, t, fields);
  }

  /** The array loop, started at an element with `done` stored, comes to a surplus one at `at`. */
  predicate ComesToSurplus(data: Text, pos: nat, depth: nat, opt: Options, n: nat, done: seq<Any>, at: nat)
    requires pos <= |data|
    decreases |data| - pos
  {
    (at == pos && |done| >= n)
    || match ParseSlot(data, pos, depth, opt, n, done)
       case Fail(_) => false
       case Ok(slots, end) =>
         var q := SkipSpace(data, end);
         At(data, q, COMMA) && ComesToSurplus(data, q + 1, depth, opt, n, slots, at)
  }

  lemma {:induction false} SlotsPanic(data: Text, pos: nat, depth: nat, opt: Options, n: nat, done: seq<Any>)
    requires pos <= |data|
    ensures ParseSlots(data, pos, depth, opt, n, done) == Fail(IndexPanic)
       <==> exists at: nat | at <= |data| ::
              ComesToSurplus(data, pos, depth, opt, n, done, at) && SkipValue(data, at) == Fail(IndexPanic)
    decreases |data| - pos
  {
    hide SkipSpace, ParseValue, SkipValue, ParseSlot;
    var r := ParseSlot(data, pos, depth, opt, n, done);
    SlotPanics(data, pos, depth, opt, n, done);
    if r == Fail(IndexPanic) {
      assert ComesToSurplus(data, pos, depth, opt, n, done, pos);
    } else if r.Ok? && At(data, SkipSpace(data, r.pos), COMMA) {
      var q := SkipSpace(data, r.pos) + 1;
      SlotsPanic(data, q, depth, opt, n, r.value);
      if at: nat :| at <= |data| && ComesToSurplus(data, q, depth, opt, n, r.value, at)
                    && SkipValue(data, at) == Fail(IndexPanic) {
        assert ComesToSurplus(data, pos, depth, opt, n, done, at);
      }
      if at: nat :| at <= |data| && ComesToSurplus(data, pos, depth, opt, n, done, at)
                    && SkipValue(data, at) == Fail(IndexPanic) {
        assert ComesToSurplus(data, q, depth, opt, n, r.value, at);
      }
    } else if at: nat :| at <= |data| && ComesToSurplus(data, pos, depth, opt, n, done, at)
                         && SkipValue(data, at) == Fail(IndexPanic) {
      assert false;
    }
  }

  /** One element panics exactly when it has no slot and skipping it does. */
  lemma SlotPanics(data: Text, pos: nat, depth: nat, opt: Options, n: nat, done: seq<Any>)
    requires pos <= |data|
    ensures ParseSlot(data, pos, depth, opt, n, done) == Fail(IndexPanic)
       <==> |done| >= n && SkipValue(data, pos) == Fail(IndexPanic)
  {
    hide SkipSpace, ParseValue, SkipValue;
    DepthLimit.ParseNeverPanics(data, pos, depth, opt);
  }

  /** Decoding an array into a fixed one of `n` slots panics exactly when it comes to an element
      without a slot and skipping that element panics. */
  lemma FixedPanicsExactly(data: Text, pos: nat, depth: nat, opt: Options, n: nat)
    requires pos <= |data|
    ensures ParseFixed(data, pos, depth, opt, n) == Fail(IndexPanic)
       <==> var p := SkipSpace(data, pos);
            !At(data, p, RBRACKET)
            && exists at: nat | at <= |data| ::
                 ComesToSurplus(data, p, depth, opt, n, [], at) && SkipValue(data, at) == Fail(IndexPanic)
  {
    hide ParseSlots, ComesToSurplus, SkipValue;
    SlotsPanic(data, SkipSpace(data, pos), depth, opt, n, []);
  }
}
