/** The decoder object: a cursor and a depth counter over immutable data, and the two parallel
    families of recursive methods. Those that build values follow the functions of Parsing, and
    for struct and array targets those of Targets; those that skip follow the skip functions of
    Parsing. */
module Decoding {
  import opened Bytes
  import opened Integers
  import opened Strings
  import opened Values
  import opened Utf8
  import opened Parsing
  import opened SkipAgreement
  import opened Targets

  /** The outcome of a decoding call for which the specification predicts `r`. */
  predicate Matches<T>(r: Parse<T>, err: Option<Code>, pos: nat) {
    match r
    case Ok(_, p) => err == None && pos == p
    case Fail(c) => err == Some(c)
  }

  class Decoder {
    const data: Text
    const options: Options
    var pos: nat
    var depth: nat

    constructor (data: Text, options: Options)
      ensures this.data == data && this.options == options && pos == 0 && depth == 0
    {
      this.data, this.options := data, options;
      pos, depth := 0, 0;
    }

    method SkipWhitespace()
      requires pos <= |data|
      modifies `pos
      ensures pos == SkipSpace(data, old(pos))
    {
      pos := SkipSpace(data, pos);
    }

    /** Decode into an interface{}. */
    method Decode() returns (err: Option<Code>, out: Any)
      requires pos <= |data|
      modifies `pos, `depth
      ensures old(pos) <= pos <= |data| && depth == old(depth)
      ensures Matches(ParseDocument(data, old(pos), depth, options), err, pos)
      ensures err == None ==> out == Meaning(ParseDocument(data, old(pos), depth, options).value)
    {
      if options.validate && !ValidUtf8(data) {
        return Some(InvalidUTF8), Nil;
      }
      SkipWhitespace();
      SkipSpaceTwice(data, old(pos));
      err, out := DecodeValue();
    }

    /** decodeValue into an interface{}: the specified value and position or error; the cursor
        stays inside the data and the depth counter is restored on every exit. */
    method DecodeValue() returns (err: Option<Code>, out: Any)
      requires pos <= |data|
      modifies `pos, `depth
      ensures old(pos) <= pos <= |data| && depth == old(depth)
      ensures Matches(ParseValue(data, old(pos), depth, options), err, pos)
      ensures err == None ==> out == Meaning(ParseValue(data, old(pos), depth, options).value)
      decreases |data| - pos, 0
    {
      out := Nil;
      SkipWhitespace();
      if pos >= |data| {
        return Some(InvalidJSON), out;
      }
      var c := data[pos];
      if c == LBRACE {
        err, out := DecodeObject();
      } else if c == LBRACKET {
        err, out := DecodeArray();
      } else if c == QUOTE {
        var s;
        err, s := DecodeString();
        out := String(s);
      } else if c == 0x74 || c == 0x66 {
        err, out := DecodeBool();
      } else if c == 0x6E {
        err := DecodeNull();
      } else if StartsNumber(c) {
        err, out := DecodeNumber();
      } else {
        err := Some(InvalidJSON);
      }
    }

    method DecodeObject() returns (err: Option<Code>, out: Any)
      requires At(data, pos, LBRACE)
      modifies `pos, `depth
      ensures old(pos) <= pos <= |data| && depth == old(depth)
      ensures if depth >= options.maxDepth then err == Some(StackOverflow)
              else Matches(ParseObject(data, old(pos) + 1, depth + 1, options), err, pos)
      ensures err == None ==> out == Dict(MeaningMembers(ParseObject(data, old(pos) + 1, depth + 1, options).value))
      decreases |data| - pos - 1, 4
    {
      out := Nil;
      if depth >= options.maxDepth {
        return Some(StackOverflow), out;
      }
      depth := depth + 1;
      pos := pos + 1;
      var m;
      err, m := DecodeMap();
      out := Dict(m);
      depth := depth - 1;
    }

    method DecodeMap() returns (err: Option<Code>, m: map<Text, Any>)
      requires pos <= |data|
      modifies `pos, `depth
      ensures old(pos) <= pos <= |data| && depth == old(depth)
      ensures Matches(ParseObject(data, old(pos), depth, options), err, pos)
      ensures err == None ==> m == MeaningMembers(ParseObject(data, old(pos), depth, options).value)
      decreases |data| - pos, 3
    {
      hide ParseMember, ParseMembers, SkipSpace, Put, MeaningMembers, ParseValue, Advances;
      err, m := None, map[];
      MeaningNone();
      SkipWhitespace();
      if pos < |data| && data[pos] == RBRACE {
        pos := pos + 1;
        return;
      }
      ghost var start := pos;
      EntriesAreMembers(data, start, depth, options);
      while true
        invariant start <= pos <= |data| && depth == old(depth)
        invariant ParseEntries(data, start, depth, options, map[]) == ParseEntries(data, pos, depth, options, m)
        decreases |data| - pos
      {
        err, m := DecodeEntry(m);
        if err.Some? {
          return;
        }
        var more;
        err, more := DecodeSeparator(RBRACE);
        if !more {
          return;
        }
      }
    }

    /** What follows an element: the closing byte ends the loop, a comma continues it. */
    method DecodeSeparator(close: byte) returns (err: Option<Code>, more: bool)
      requires pos <= |data| && close != COMMA
      modifies `pos
      ensures old(pos) <= pos <= |data|
      ensures var q := SkipSpace(data, old(pos));
              if At(data, q, close) then err == None && !more && pos == q + 1
              else if At(data, q, COMMA) then err == None && more && pos == q + 1
              else err == Some(InvalidJSON) && !more
    {
      SkipWhitespace();
      if pos >= |data| {
        return Some(InvalidJSON), false;
      }
      if data[pos] == close {
        pos := pos + 1;
        return None, false;
      }
      if data[pos] != COMMA {
        return Some(InvalidJSON), false;
      }
      pos := pos + 1;
      return None, true;
    }

    /** One round of the map loop: key, colon, value. */
    method DecodeEntry(m: map<Text, Any>) returns (err: Option<Code>, m2: map<Text, Any>)
      requires pos <= |data|
      modifies `pos, `depth
      ensures old(pos) <= pos <= |data| && depth == old(depth)
      ensures err == None ==> old(pos) < pos
      ensures Matches(ParseMember(data, old(pos), depth, options), err, pos)
      ensures err == None ==> m2 == Put(m, ParseMember(data, old(pos), depth, options).value)
      decreases |data| - pos, 1
    {
      m2 := m;
      var key;
      err, key := DecodeKey();
      if err.Some? {
        return;
      }
      SkipWhitespace();
      var v;
      err, v := DecodeValue();
      m2 := m[key := v];
    }

    /** The key of an object member and its colon. */
    method DecodeKey() returns (err: Option<Code>, key: Text)
      requires pos <= |data|
      modifies `pos
      ensures old(pos) <= pos <= |data|
      ensures Matches(ParseKey(data, old(pos)), err, pos)
      ensures err == None ==> key == ParseKey(data, old(pos)).value
    {
      key := [];
      SkipWhitespace();
      if pos >= |data| || data[pos] != QUOTE {
        return Some(InvalidJSON), key;
      }
      err, key := DecodeString();
      if err.Some? {
        return;
      }
      SkipWhitespace();
      if pos >= |data| || data[pos] != COLON {
        return Some(InvalidJSON), key;
      }
      pos := pos + 1;
    }

    /** decodeStruct with interface{} fields, after the opening brace. */
    method DecodeStruct(t: Table, fields: map<nat, Any>) returns (err: Option<Code>, fs: map<nat, Any>)
      requires pos <= |data|
      modifies `pos, `depth
      ensures old(pos) <= pos <= |data| && depth == old(depth)
      ensures Matches(ParseStruct(data, old(pos), depth, options, t, fields), err, pos)
      ensures err == None ==> fs == ParseStruct(data, old(pos), depth, options, t, fields).value
    {
      hide ParseField, SkipSpace, Advances, ParseValue, SkipValue;
      err, fs := None, fields;
      SkipWhitespace();
      if pos < |data| && data[pos] == RBRACE {
        pos := pos + 1;
        return;
      }
      ghost var start := pos;
      while true
        invariant start <= pos <= |data| && depth == old(depth)
        invariant ParseFields(data, start, depth, options, t, fields) == ParseFields(data, pos, depth, options, t, fs)
        decreases |data| - pos
      {
        err, fs := DecodeField(t, fs);
        if err.Some? {
          return;
        }
        var more;
        err, more := DecodeSeparator(RBRACE);
        if !more {
          return;
        }
      }
    }

    /** One round of the struct loop: decode a known field, skip an unknown one. */
    method DecodeField(t: Table, fields: map<nat, Any>) returns (err: Option<Code>, fs: map<nat, Any>)
      requires pos <= |data|
      modifies `pos, `depth
      ensures old(pos) <= pos <= |data| && depth == old(depth)
      ensures err == None ==> old(pos) < pos
      ensures Matches(ParseField(data, old(pos), depth, options, t, fields), err, pos)
      ensures err == None ==> fs == ParseField(data, old(pos), depth, options, t, fields).value
    {
      fs := fields;
      var name;
      err, name := DecodeKey();
      if err.Some? {
        return;
      }
      var field: Option<nat> := None;
      if name in t.exact {
        field := Some(t.exact[name]);
      }
      if field == None && !t.disableCache {
        var folded := t.fold(name);
        if folded in t.folded {
          field := Some(t.folded[folded]);
        }
      }
      match field {
        case Some(i) =>
          var v;
          err, v := DecodeValue();
          if err == None {
            fs := fs[i := v];
          }
        case None =>
          if t.disallowUnknown {
            return Some(UnknownField), fs;
          }
          err := SkipAny();
      }
    }

    method DecodeArray() returns (err: Option<Code>, out: Any)
      requires At(data, pos, LBRACKET)
      modifies `pos, `depth
      ensures old(pos) <= pos <= |data| && depth == old(depth)
      ensures if depth >= options.maxDepth then err == Some(StackOverflow)
              else Matches(ParseArray(data, old(pos) + 1, depth + 1, options), err, pos)
      ensures err == None ==> out == List(MeaningItems(ParseArray(data, old(pos) + 1, depth + 1, options).value))
      decreases |data| - pos - 1, 3
    {
      out := Nil;
      if depth >= options.maxDepth {
        return Some(StackOverflow), out;
      }
      depth := depth + 1;
      pos := pos + 1;
      var items;
      err, items := DecodeSlice();
      out := List(items);
      depth := depth - 1;
    }

    method DecodeSlice() returns (err: Option<Code>, items: seq<Any>)
      requires pos <= |data|
      modifies `pos, `depth
      ensures old(pos) <= pos <= |data| && depth == old(depth)
      ensures Matches(ParseArray(data, old(pos), depth, options), err, pos)
      ensures err == None ==> items == MeaningItems(ParseArray(data, old(pos), depth, options).value)
      decreases |data| - pos, 2
    {
      hide ParseValue, ParseItems, SkipSpace, Meaning, MeaningItems, Advances;
      err, items := None, [];
      SkipWhitespace();
      if pos < |data| && data[pos] == RBRACKET {
        pos := pos + 1;
        return;
      }
      ghost var start := pos;
      ElementsAreItems(data, start, depth, options);
      while true
        invariant start <= pos <= |data| && depth == old(depth)
        invariant ParseElements(data, start, depth, options, []) == ParseElements(data, pos, depth, options, items)
        decreases |data| - pos
      {
        SameValue(data, pos, depth, options);
        SkipWhitespace();
        var v;
        err, v := DecodeValue();
        if err.Some? {
          return;
        }
        items := items + [v];
        var more;
        err, more := DecodeSeparator(RBRACKET);
        if !more {
          return;
        }
      }
    }

    /** decodeArrayFixed into an array of `n` interface{} slots. */
    method DecodeArrayFixed(n: nat) returns (err: Option<Code>, slots: seq<Any>)
      requires pos <= |data|
      modifies `pos, `depth
      ensures old(pos) <= pos <= |data| && depth == old(depth)
      ensures Matches(ParseFixed(data, old(pos), depth, options, n), err, pos)
      ensures err == None ==> slots == ParseFixed(data, old(pos), depth, options, n).value
    {
      hide ParseValue, SkipValue, SkipSpace, Meaning;
      err, slots := None, [];
      SkipWhitespace();
      if pos < |data| && data[pos] == RBRACKET {
        pos := pos + 1;
        return;
      }
      ghost var start := pos;
      while true
        invariant start <= pos <= |data| && depth == old(depth)
        invariant ParseSlots(data, start, depth, options, n, []) == ParseSlots(data, pos, depth, options, n, slots)
        decreases |data| - pos
      {
        if |slots| >= n {
          err := SkipAny();
          if err.Some? {
            return;
          }
        } else {
          var v;
          err, v := DecodeValue();
          if err.Some? {
            return;
          }
          slots := slots + [v];
        }
        var more;
        err, more := DecodeSeparator(RBRACKET);
        if !more {
          return;
        }
      }
    }

    /** parseString: raw contents when there is nothing to unescape. */
    method DecodeString() returns (err: Option<Code>, s: Text)
      requires pos < |data|
      modifies `pos
      ensures old(pos) <= pos <= |data|
      ensures Matches(ParseString(data, old(pos)), err, pos)
      ensures err == None ==> s == ParseString(data, old(pos)).value
    {
      s := [];
      if data[pos] != QUOTE {
        return Some(InvalidString), s;
      }
      pos := pos + 1;
      var start := pos;
      var end := FindQuote(data, pos);
      if end < 0 {
        return Some(InvalidString), s;
      }
      var raw := data[start..end];
      pos := end + 1;
      if BACKSLASH !in raw {
        UnescapeRaw(raw);
        return None, raw;
      }
      match Unescape(raw) {
        case None => return Some(InvalidString), s;
        case Some(u) => return None, u;
      }
    }

    method DecodeBool() returns (err: Option<Code>, out: Any)
      requires pos < |data|
      modifies `pos
      ensures old(pos) <= pos <= |data|
      ensures Matches(ParseBool(data, old(pos)), err, pos)
      ensures err == None ==> out == Meaning(ParseBool(data, old(pos)).value)
    {
      HasSlice(data, pos, TRUE_TEXT);
      HasSlice(data, pos, FALSE_TEXT);
      if pos + 4 <= |data| && data[pos..pos + 4] == TRUE_TEXT {
        pos := pos + 4;
        return None, Boolean(true);
      }
      if pos + 5 <= |data| && data[pos..pos + 5] == FALSE_TEXT {
        pos := pos + 5;
        return None, Boolean(false);
      }
      return Some(InvalidValue), Nil;
    }

    method DecodeNull() returns (err: Option<Code>)
      requires pos < |data|
      modifies `pos
      ensures old(pos) <= pos <= |data|
      ensures Matches(ParseNull(data, old(pos)), err, pos)
    {
      HasSlice(data, pos, NULL_TEXT);
      if pos + 4 > |data| || data[pos..pos + 4] != NULL_TEXT {
        return Some(InvalidValue);
      }
      pos := pos + 4;
      return None;
    }

    method DecodeNumber() returns (err: Option<Code>, out: Any)
      requires pos < |data| && IsNumberByte(data[pos])
      modifies `pos
      ensures old(pos) <= pos <= |data|
      ensures Matches(ParseNumber(data, old(pos), options), err, pos)
      ensures err == None ==> out == Meaning(ParseNumber(data, old(pos), options).value)
    {
      out := Nil;
      var start, end := pos, pos;
      while end < |data| && IsNumberByte(data[end])
        invariant start <= end <= |data| && NumberEnd(data, start) == NumberEnd(data, end)
      {
        end := end + 1;
      }
      var t := data[start..end];
      pos := end;
      if options.useNumber {
        return None, Number(t);
      }
      if IsInteger(t) {
        match ParseInt(t) {
          case None => return Some(InvalidNumber), out;
          case Some(i) => return None, Int64(i);
        }
      }
      match options.floats.parse(t) {
        case NoFloat => return Some(InvalidNumber), out;
        case Whole(i) => out := if options.floats.useInt64 then Int64(i) else Number(t);
        case Fraction => out := Number(t);
      }
      err := None;
    }

    // ----- the skip family -----

    /** skipValue. */
    method SkipAny() returns (err: Option<Code>)
      requires pos <= |data|
      modifies `pos
      ensures old(pos) <= pos <= |data|
      ensures Matches(SkipValue(data, old(pos)), err, pos)
      decreases |data| - pos, 0
    {
      SkipWhitespace();
      if pos >= |data| {
        return Some(InvalidJSON);
      }
      var c := data[pos];
      if c == LBRACE {
        err := SkipAnyObject();
      } else if c == LBRACKET {
        err := SkipAnyArray();
      } else if c == QUOTE {
        err := SkipAnyString();
      } else if c == 0x74 || c == 0x66 || c == 0x6E {
        err := SkipAnyLiteral();
      } else if StartsNumber(c) {
        err := SkipAnyNumber();
      } else {
        err := Some(InvalidJSON);
      }
    }

    method SkipAnyObject() returns (err: Option<Code>)
      requires At(data, pos, LBRACE)
      modifies `pos
      ensures old(pos) <= pos <= |data|
      ensures Matches(SkipObject(data, old(pos) + 1), err, pos)
      decreases |data| - pos - 1, 3
    {
      hide SkipKey, SkipValue, SkipSpace, Advances;
      pos := pos + 1;
      SkipWhitespace();
      if pos < |data| && data[pos] == RBRACE {
        pos := pos + 1;
        return None;
      }
      ghost var start := pos;
      while true
        invariant old(pos) < start <= pos <= |data|
        invariant SkipMembers(data, start) == SkipMembers(data, pos)
        decreases |data| - pos
      {
        err := SkipAnyKey();
        if err.Some? {
          return;
        }
        err := SkipAny();
        if err.Some? {
          return;
        }
        var more;
        err, more := DecodeSeparator(RBRACE);
        if !more {
          return;
        }
      }
    }

    method SkipAnyKey() returns (err: Option<Code>)
      requires pos <= |data|
      modifies `pos
      ensures old(pos) <= pos <= |data|
      ensures Matches(SkipKey(data, old(pos)), err, pos)
    {
      SkipWhitespace();
      err := SkipAnyString();
      if err.Some? {
        return;
      }
      SkipWhitespace();
      if pos >= |data| || data[pos] != COLON {
        return Some(InvalidJSON);
      }
      pos := pos + 1;
    }

    method SkipAnyArray() returns (err: Option<Code>)
      requires At(data, pos, LBRACKET)
      modifies `pos
      ensures old(pos) <= pos <= |data|
      ensures Matches(SkipArray(data, old(pos) + 1), err, pos)
      decreases |data| - pos - 1, 3
    {
      hide SkipValue, SkipSpace, Advances;
      pos := pos + 1;
      SkipWhitespace();
      if pos < |data| && data[pos] == RBRACKET {
        pos := pos + 1;
        return None;
      }
      ghost var start := pos;
      while true
        invariant old(pos) < start <= pos <= |data|
        invariant SkipItems(data, start) == SkipItems(data, pos)
        decreases |data| - pos
      {
        err := SkipAny();
        if err.Some? {
          return;
        }
        var more;
        err, more := DecodeSeparator(RBRACKET);
        if !more {
          return;
        }
      }
    }

    /** The first byte is read without a bounds check; past the end the source panics. */
    method SkipAnyString() returns (err: Option<Code>)
      requires pos <= |data|
      modifies `pos
      ensures old(pos) <= pos <= |data|
      ensures Matches(SkipString(data, old(pos)), err, pos)
    {
      if pos == |data| {
        return Some(IndexPanic);
      }
      if data[pos] != QUOTE {
        return Some(InvalidString);
      }
      pos := pos + 1;
      var end := FindQuote(data, pos);
      if end < 0 {
        return Some(InvalidString);
      }
      pos := end + 1;
      return None;
    }

    method SkipAnyLiteral() returns (err: Option<Code>)
      requires pos <= |data|
      modifies `pos
      ensures old(pos) <= pos <= |data|
      ensures Matches(SkipLiteral(data, old(pos)), err, pos)
    {
      var start := pos;
      while pos < |data| && IsLower(data[pos])
        invariant start <= pos <= |data| && LettersEnd(data, start) == LettersEnd(data, pos)
      {
        pos := pos + 1;
      }
      var literal := data[start..pos];
      if literal != TRUE_TEXT && literal != FALSE_TEXT && literal != NULL_TEXT {
        return Some(InvalidValue);
      }
      return None;
    }

    method SkipAnyNumber() returns (err: Option<Code>)
      requires pos < |data| && !IsDelimiter(data[pos])
      modifies `pos
      ensures old(pos) <= pos <= |data|
      ensures Matches(SkipNumber(data, old(pos)), err, pos)
    {
      var end := FindDelimiter(data, pos);
      if end < 0 {
        end := |data|;
      }
      pos := end;
      return None;
    }
  }
}
