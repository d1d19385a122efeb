/** The stream decoder's scanner ends where the decoder does. */
module StreamAgreement {
  import opened Bytes
  import opened Strings
  import opened Values
  import opened Parsing
  import opened RoundTrip
  import opened SkipAgreement
  import opened Numerals
  import opened StreamScan

  // ----- UseNumber accepts no less -----

  /** Under UseNumber whatever is decoded without it is decoded as well, to the same end. */
  lemma {:induction false} UseNumberAccepts(data: Text, pos: nat, depth: nat, opt: Options)
    requires pos <= |data| && ParseValue(data, pos, depth, opt).Ok?
    ensures var r := ParseValue(data, pos, depth, opt.(useNumber := true));
            r.Ok? && r.pos == ParseValue(data, pos, depth, opt).pos
    decreases |data| - pos, 0
  {
    var p := SkipSpace(data, pos);
    if data[p] == LBRACE {
      var q := SkipSpace(data, p + 1);
      if !At(data, q, RBRACE) {
        UseNumberMembers(data, q, depth + 1, opt);
      }
    } else if data[p] == LBRACKET {
      var q := SkipSpace(data, p + 1);
      if !At(data, q, RBRACKET) {
        UseNumberItems(data, q, depth + 1, opt);
      }
    }
  }

  lemma {:induction false} UseNumberItems(data: Text, pos: nat, depth: nat, opt: Options)
    requires pos <= |data| && ParseItems(data, pos, depth, opt).Ok?
    ensures var r := ParseItems(data, pos, depth, opt.(useNumber := true));
            r.Ok? && r.pos == ParseItems(data, pos, depth, opt).pos
    decreases |data| - pos, 1
  {
    hide ParseValue, SkipSpace;
    UseNumberAccepts(data, pos, depth, opt);
    var q := SkipSpace(data, ParseValue(data, pos, depth, opt).pos);
    if !At(data, q, RBRACKET) {
      UseNumberItems(data, q + 1, depth, opt);
    }
  }

  lemma {:induction false} UseNumberMembers(data: Text, pos: nat, depth: nat, opt: Options)
    requires pos <= |data| && ParseMembers(data, pos, depth, opt).Ok?
    ensures var r := ParseMembers(data, pos, depth, opt.(useNumber := true));
            r.Ok? && r.pos == ParseMembers(data, pos, depth, opt).pos
    decreases |data| - pos, 1
  {
    hide ParseMember, SkipSpace;
    UseNumberMember(data, pos, depth, opt);
    var q := SkipSpace(data, ParseMember(data, pos, depth, opt).pos);
    if !At(data, q, RBRACE) {
      UseNumberMembers(data, q + 1, depth, opt);
    }
  }

  lemma {:induction false} UseNumberMember(data: Text, pos: nat, depth: nat, opt: Options)
    requires pos <= |data| && ParseMember(data, pos, depth, opt).Ok?
    ensures var r := ParseMember(data, pos, depth, opt.(useNumber := true));
            r.Ok? && r.pos == ParseMember(data, pos, depth, opt).pos
    decreases |data| - pos, 0
  {
    UseNumberAccepts(data, SkipSpace(data, ParseKey(data, pos).pos), depth, opt);
  }

  // ----- the scanner -----

  /** A run of number bytes is ended by a byte that is none. */
  lemma {:induction false} RunEnds(data: Text, pos: nat)
    requires pos <= |data|
    ensures NumberEnd(data, pos) < |data| ==> !IsNumberByte(data[NumberEnd(data, pos)])
    decreases |data| - pos
  {
    if pos < |data| && IsNumberByte(data[pos]) {
      RunEnds(data, pos + 1);
    }
  }

  lemma NumberIsScanned(data: Text, p: nat, opt: Options)
    requires p < |data| && StartsNumber(data[p]) && opt.useNumber
    requires IsNumeral(data[p..NumberEnd(data, p)]) && NumberEnd(data, p) < |data|
    ensures ScanNumber(data, p) == End(NumberEnd(data, p))
  {
    hide NumeralText, NumeralOk, ScanNumber;
    var t := data[p..NumberEnd(data, p)];
    var n :| NumeralOk(n) && NumeralText(n) == t;
    RunEnds(data, p);
    HasSlice(data, p, t);
    ScanNumeral(data, p, n);
  }

  /** Numbers are given by texts of the grammar, and one at the top is followed by another byte. */
  ghost predicate Scannable(v: Val, data: Text, end: nat) {
    Numeric(v) && (IsNumber(v) ==> end < |data|)
  }

  lemma {:induction false} ValueIsScanned(data: Text, pos: nat, depth: nat, opt: Options)
    requires pos <= |data| && opt.useNumber && ParseValue(data, pos, depth, opt).Ok?
    requires var r := ParseValue(data, pos, depth, opt); Scannable(r.value, data, r.pos)
    ensures ScanValue(data, SkipSpace(data, pos)) == End(ParseValue(data, pos, depth, opt).pos)
    decreases |data| - pos, 0
  {
    hide ScanItems, ScanMembers, ScanNumber, ParseItems, ParseMembers, Unescape, FindQuote, SkipSpace,
         Has;
    var p := SkipSpace(data, pos);
    var c := data[p];
    if c == LBRACE {
      var q := SkipSpace(data, p + 1);
      if !At(data, q, RBRACE) {
        MembersAreScanned(data, q, depth + 1, opt);
        SkipSpaceTwice(data, p + 1);
      }
    } else if c == LBRACKET {
      var q := SkipSpace(data, p + 1);
      if !At(data, q, RBRACKET) {
        ItemsAreScanned(data, q, depth + 1, opt);
        SkipSpaceTwice(data, p + 1);
      }
    } else if c == 0x74 || c == 0x66 || c == 0x6E {
      ScanWords(data, p);
    } else if StartsNumber(c) {
      NumberIsScanned(data, p, opt);
    }
  }

  lemma {:induction false} ItemsAreScanned(data: Text, pos: nat, depth: nat, opt: Options)
    requires pos <= |data| && opt.useNumber && ParseItems(data, pos, depth, opt).Ok?
    requires Numeric(Arr(ParseItems(data, pos, depth, opt).value))
    ensures ScanItems(data, SkipSpace(data, pos)) == End(ParseItems(data, pos, depth, opt).pos)
    decreases |data| - pos, 1
  {
    hide ScanValue, ParseValue, SkipSpace;
    var r, all := ParseValue(data, pos, depth, opt), ParseItems(data, pos, depth, opt).value;
    var q := SkipSpace(data, r.pos);
    assert all[0] == r.value;
    ValueIsScanned(data, pos, depth, opt);
    if !At(data, q, RBRACKET) {
      assert all[1..] == ParseItems(data, q + 1, depth, opt).value;
      ItemsAreScanned(data, q + 1, depth, opt);
    }
  }

  lemma {:induction false} MembersAreScanned(data: Text, pos: nat, depth: nat, opt: Options)
    requires pos <= |data| && opt.useNumber && ParseMembers(data, pos, depth, opt).Ok?
    requires Numeric(Obj(ParseMembers(data, pos, depth, opt).value))
    ensures ScanMembers(data, SkipSpace(data, pos)) == End(ParseMembers(data, pos, depth, opt).pos)
    decreases |data| - pos, 1
  {
    hide ScanMember, ParseMember, SkipSpace;
    var r, all := ParseMember(data, pos, depth, opt), ParseMembers(data, pos, depth, opt).value;
    var q := SkipSpace(data, r.pos);
    assert all[0] == r.value;
    MemberIsScanned(data, pos, depth, opt);
    if !At(data, q, RBRACE) {
      assert all[1..] == ParseMembers(data, q + 1, depth, opt).value;
      MembersAreScanned(data, q + 1, depth, opt);
    }
  }

  lemma {:induction false} MemberIsScanned(data: Text, pos: nat, depth: nat, opt: Options)
    requires pos <= |data| && opt.useNumber && ParseMember(data, pos, depth, opt).Ok?
    requires var r := ParseMember(data, pos, depth, opt); Scannable(r.value.value, data, r.pos)
    ensures ScanMember(data, SkipSpace(data, pos)) == End(ParseMember(data, pos, depth, opt).pos)
    decreases |data| - pos, 0
  {
    hide ScanValue, ParseValue, SkipSpace, Unescape, FindQuote;
    var key := ParseKey(data, pos).pos;
    ValueIsScanned(data, SkipSpace(data, key), depth, opt);
    SkipSpaceTwice(data, key);
  }

  /** The scanner finds the end of every value the decoder accepts, with white space and literals of
      any kind, if its numbers are written by the grammar and a number at the top does not end the
      window. What the numbers are is what UseNumber makes of them. */
  lemma ScannerAgrees(data: Text, pos: nat, depth: nat, opt: Options)
    requires pos <= |data| && ParseValue(data, pos, depth, opt).Ok?
    ensures var r, end := ParseValue(data, pos, depth, opt.(useNumber := true)), ParseValue(data, pos, depth, opt).pos;
            r.Ok? && (Scannable(r.value, data, end) ==> ScanValue(data, SkipSpace(data, pos)) == End(end))
  {
    UseNumberAccepts(data, pos, depth, opt);
    hide ScanValue, ParseValue, Scannable;
    if Scannable(ParseValue(data, pos, depth, opt.(useNumber := true)).value, data,
                 ParseValue(data, pos, depth, opt).pos) {
      ValueIsScanned(data, pos, depth, opt.(useNumber := true));
    }
  }
}
