/** The stream encoder, and the stream decoder with its own scanner over a refillable buffer. The
    decoder's methods follow the scanner of StreamScan while a value stays in its window; clients
    at the end read everything there is, and send documents and receive them. */
module Streaming {
  import opened Bytes
  import opened Integers
  import opened Strings
  import opened Values
  import opened Reflection
  import opened Encoding
  import Parsing
  import Decoding
  import opened Targets
  import opened StreamScan
  import opened SkipAgreement
  import opened Framing

  /** `Panicked` is the run-time panic of the string escaper; it is not stored as an error. */
  datatype EncodeError = EncodingFailed(e: Error) | WriteFailed | Panicked

  lemma OneLine(cfg: Config, v: Val)
    ensures LinesOf(cfg, [v]) == [] + Print(cfg, v, 0) + [LF]
  {
    assert Print(cfg, v, 0) + [LF] + [] == [] + Print(cfg, v, 0) + [LF];
  }

  /** One byte, or an escape, of the search for the closing quote. */
  lemma QuoteStep(b: Text, p: nat)
    requires p < |b|
    ensures FindQuote(b, p)
         == if b[p] == QUOTE then p
            else if b[p] != BACKSLASH then FindQuote(b, p + 1)
            else if p + 1 == |b| then -1
            else FindQuote(b, p + 2)
  {
  }

  lemma NoLines(cfg: Config)
    ensures LinesOf(cfg, []) == []
  {
  }

  class StreamEncoder {
    const w: Sink
    const config: Config
    const growth: (nat, nat) -> nat
    var err: Option<EncodeError>

    constructor (w: Sink, config: Config, growth: (nat, nat) -> nat)
      ensures this.w == w && this.config == config && err == None
    {
      this.w, this.config, this.growth, err := w, config, growth, None;
    }

    /** One write of the document and a line feed; nothing is written for a value that cannot
        be encoded, and nothing at all after the first error. */
    method Encode(h: Heap, v: Val) returns (result: Option<EncodeError>)
      modifies this, w
      ensures if result == Some(Panicked) then err == old(err) else result == err
      ensures old(err).Some? ==> err == old(err) && w.sent == old(w.sent) && w.calls == old(w.calls)
      ensures old(err) == None && result == Some(Panicked) ==>
        !config.escapeHTML && !(PlainVal(v) && PlainHeap(h)) && w.sent == old(w.sent) && w.calls == old(w.calls)
      ensures old(err) == None && result != Some(Panicked) ==>
        match EncodeTop(h, v, config.maxDepth)
        case Err(e) => err == Some(EncodingFailed(e)) && w.sent == old(w.sent) && w.calls == old(w.calls)
        case Ok(t) =>
          && w.calls == old(w.calls) + 1
          && err == (if w.accepts(old(w.calls)) then None else Some(WriteFailed))
          && w.sent == old(w.sent) + if err == None then LinesOf(config, [t]) else []
    {
      hide EncodeTop, Print, PlainVal, PlainHeap, Encoder.Open, Encoder.Valid, Encoder.Tracks, LinesOf;
      if err.Some? {
        return err;
      }
      var enc := new Encoder(config, SCRATCH, growth);
      var failed := enc.Encode(h, v);
      if failed == Some(BufferOverrun) {
        return Some(Panicked);
      }
      if failed.Some? {
        err := Some(EncodingFailed(failed.value));
        return err;
      }
      enc.BatchBuffer();
      var line := enc.buf + [LF];
      OneLine(config, EncodeTop(h, v, config.maxDepth).value);
      var ok := w.Write(line);
      if !ok {
        err := Some(WriteFailed);
      }
      return err;
    }
  }

  datatype StreamError = EndOfInput | Malformed | DecodeFailed(code: Parsing.Code)

  function Total(texts: seq<Text>): nat {
    if texts == [] then 0 else |texts[0]| + Total(texts[1..])
  }

  /** From this many bytes on the vector library skips white space. */
  const SIMD_WHITESPACE_MIN: nat := 32

  /** A decoder over a reader. `buf` is the filled part of the buffer; `coming` is what the next
      reads will return, each of them at least one byte. */
  class StreamDecoder {
    const options: Parsing.Options
    var buf: Text
    var pos: nat
    var valueStart: nat
    var coming: seq<Text>
    var err: Option<StreamError>

    predicate Safe()
      reads this
    {
      valueStart <= pos <= |buf| && forall i | 0 <= i < |coming| :: coming[i] != []
    }

    function Here(): Place
      reads this
    {
      Place(buf, pos, coming)
    }

    /** Bytes that have not been passed yet. */
    function Remaining(): nat
      reads this
      requires Safe()
    {
      |buf| - pos + Total(coming)
    }

    /** Nothing has been read since the state with this buffer. */
    predicate Stays(b: Text, c: seq<Text>, start: nat)
      reads this
    {
      buf == b && coming == c && valueStart == start
    }

    /** The window scanner's result `r` has come true; nothing is said when its window is short. */
    predicate Follows(r: Scan, failed: Option<StreamError>, b: Text, c: seq<Text>, start: nat)
      reads this
    {
      match r
      case End(p) => failed == None && pos == p && Stays(b, c, start)
      case Bad => failed == Some(Malformed) && err == None
      case Short => true
    }

    /** One round of a loop whose list the scanner reads to `r`, and to `rest` from here on. */
    predicate Continues(r: Scan, rest: Scan, failed: Option<StreamError>, more: bool, b: Text, c: seq<Text>, start: nat)
      reads this
    {
      !r.Short? ==> if failed == None && more then Stays(b, c, start) && rest == r else Follows(r, failed, b, c, start)
    }

    /** After a number whose integer part was cut by the end of its window: without another read the
        end of the input is met, and where the next read does not take the number on, it ends at
        the start of that read. */
    predicate Cut(failed: Option<StreamError>, c: seq<Text>)
      reads this
    {
      if c == [] then failed == err == Some(EndOfInput)
      else if c[0] == [] || GoesOn(c[0][0]) then true
      else failed == None && err == None && Here() == Place(c[0], 0, c[1..]) && valueStart == 0
    }

    constructor (coming: seq<Text>, options: Parsing.Options)
      requires forall i | 0 <= i < |coming| :: coming[i] != []
      ensures Safe() && Here() == Beginning(coming) && err == None && this.options == options
    {
      this.coming, this.options := coming, options;
      buf, pos, valueStart, err := [], 0, 0, None;
    }

    /** Reads once more. The current value is kept only when the buffer still holds a byte that
        has not been passed. */
    method Fill() returns (failed: Option<StreamError>)
      requires Safe() && err == None
      modifies `buf, `pos, `valueStart, `coming, `err
      ensures Safe() && failed == err && Remaining() == old(Remaining())
      ensures failed == if old(pos < |buf| || coming != []) then None else Some(EndOfInput)
      ensures failed == None ==> pos < |buf|
      ensures old(pos == |buf| && coming != []) ==>
        Here() == Place(old(coming)[0], 0, old(coming)[1..]) && valueStart == 0
    {
      if pos < |buf| {
        buf := buf[valueStart..];
        pos, valueStart := pos - valueStart, 0;
      } else {
        buf, pos, valueStart := [], 0, 0;
      }
      if coming == [] {
        if |buf| > pos {
          return None;
        }
        err := Some(EndOfInput);
        return err;
      }
      buf, coming := buf + coming[0], coming[1..];
      return None;
    }

    method SkipWhitespace() returns (failed: Option<StreamError>)
      requires Safe() && err == None
      modifies `buf, `pos, `valueStart, `coming, `err
      ensures Safe() && failed == err && Remaining() <= old(Remaining())
      ensures match Next(old(Here()))
              case None => failed == Some(EndOfInput)
              case Some(p) => failed == None && Here() == p && pos < |buf| && !IsSpace(buf[pos])
      ensures old(SkipSpace(buf, pos) < |buf|) ==> Stays(old(buf), old(coming), old(valueStart))
    {
      hide Total, Next, SkipSpace;
      while true
        invariant Safe() && err == None && Remaining() <= old(Remaining())
        invariant Next(Here()) == Next(old(Here()))
        invariant old(SkipSpace(buf, pos) < |buf|) ==>
          Stays(old(buf), old(coming), old(valueStart)) && SkipSpace(buf, pos) == old(SkipSpace(buf, pos))
        decreases Remaining()
      {
        NextStep(Here());
        if pos >= |buf| {
          failed := Fill();
          if failed.Some? {
            return;
          }
          NextStep(Here());
        }
        if |buf| - pos >= SIMD_WHITESPACE_MIN {
          SkipSpaceTwice(buf, pos);
          pos := SkipSpace(buf, pos);
          NextStep(Here());
          if pos < |buf| {
            return None;
          }
        } else if IsSpace(buf[pos]) {
          pos := pos + 1;
        } else {
          return None;
        }
      }
    }

    /** skipValue: exactly the scanner when it stays inside the window. In every case it ends, no
        index is out of range, and at least one byte has been passed. */
    method SkipValue() returns (failed: Option<StreamError>)
      requires Safe() && err == None
      modifies `buf, `pos, `valueStart, `coming, `err
      ensures Safe() && Remaining() <= old(Remaining())
      ensures failed == None ==> err == None && Remaining() < old(Remaining())
      ensures Follows(old(ScanValue(buf, pos)), failed, old(buf), old(coming), old(valueStart))
      ensures old(CutInteger(buf, pos)) ==> Cut(failed, old(coming))
      decreases Remaining(), 3
    {
      if pos >= |buf| {
        failed := Fill();
        if failed.Some? {
          return;
        }
      }
      var c := buf[pos];
      if c == QUOTE {
        failed := SkipString();
      } else if c == LBRACE {
        failed := SkipObject();
      } else if c == LBRACKET {
        failed := SkipArray();
      } else if c == 0x74 || c == 0x66 {
        failed := SkipLiteral(TRUE_OR_FALSE);
      } else if c == 0x6E {
        failed := SkipLiteral([NULL_TEXT]);
      } else if Parsing.StartsNumber(c) {
        failed := SkipNumber();
      } else {
        failed := Some(Malformed);
      }
    }

    /** skipString: the first byte is passed unseen. */
    method SkipString() returns (failed: Option<StreamError>)
      requires Safe() && err == None && pos < |buf|
      modifies `buf, `pos, `valueStart, `coming, `err
      ensures Safe() && Remaining() <= old(Remaining())
      ensures failed == None ==> err == None && Remaining() < old(Remaining())
      ensures Follows(old(ScanString(buf, pos)), failed, old(buf), old(coming), old(valueStart))
    {
      hide Total, Next, FindQuote;
      pos := pos + 1;
      while true
        invariant Safe() && err == None && Remaining() < old(Remaining())
        invariant old(ScanString(buf, pos)).End? ==>
          Stays(old(buf), old(coming), old(valueStart)) && FindQuote(buf, pos) == old(ScanString(buf, pos)).pos - 1
        decreases Remaining()
      {
        if pos >= |buf| {
          failed := Fill();
          if failed.Some? {
            return;
          }
        }
        QuoteStep(buf, pos);
        var c := buf[pos];
        pos := pos + 1;
        if c == QUOTE {
          return None;
        }
        if c == BACKSLASH {
          if pos >= |buf| {
            failed := Fill();
            if failed.Some? {
              return;
            }
          }
          pos := pos + 1;
        }
      }
    }

    method SkipObject() returns (failed: Option<StreamError>)
      requires Safe() && err == None && pos < |buf|
      modifies `buf, `pos, `valueStart, `coming, `err
      ensures Safe() && Remaining() <= old(Remaining())
      ensures failed == None ==> err == None && Remaining() < old(Remaining())
      ensures Follows(old(ScanObject(buf, SkipSpace(buf, pos + 1))), failed, old(buf), old(coming), old(valueStart))
      decreases Remaining(), 2
    {
      EndIsShort(buf);
      pos := pos + 1;
      failed := SkipWhitespace();
      if failed.Some? {
        return;
      }
      if buf[pos] == RBRACE {
        pos := pos + 1;
        return None;
      }
      failed := SkipMembers();
    }

    method SkipMembers() returns (failed: Option<StreamError>)
      requires Safe() && err == None && pos < |buf|
      modifies `buf, `pos, `valueStart, `coming, `err
      ensures Safe() && Remaining() <= old(Remaining())
      ensures failed == None ==> err == None && Remaining() < old(Remaining())
      ensures Follows(old(ScanMembers(buf, pos)), failed, old(buf), old(coming), old(valueStart))
      decreases Remaining(), 5
    {
      hide ScanMembers, ScanMember, ScanItems, ScanValue, SkipSpace, Next, Total;
      ghost var goal := ScanMembers(buf, pos);
      while true
        invariant Safe() && err == None && pos < |buf| && Remaining() <= old(Remaining())
        invariant !goal.Short? ==> Stays(old(buf), old(coming), old(valueStart)) && ScanMembers(buf, pos) == goal
        decreases Remaining()
      {
        var more;
        failed, more := SkipOneMember();
        if failed.Some? || !more {
          return;
        }
      }
    }

    /** One round of the loop: a member and what separates it from the next. */
    method SkipOneMember() returns (failed: Option<StreamError>, more: bool)
      requires Safe() && err == None && pos < |buf|
      modifies `buf, `pos, `valueStart, `coming, `err
      ensures Safe() && Remaining() <= old(Remaining())
      ensures failed == None ==> err == None && Remaining() < old(Remaining())
      ensures failed == None && more ==> pos < |buf|
      ensures Continues(old(ScanMembers(buf, pos)), if pos <= |buf| then ScanMembers(buf, pos) else Short, failed, more,
                        old(buf), old(coming), old(valueStart))
      decreases Remaining(), 4
    {
      hide ScanMembers, ScanMember, ScanItems, ScanValue, SkipSpace, Next, Total;
      if !ScanMembers(buf, pos).Short? {
        MembersGoOn(buf, pos);
      }
      more := false;
      failed := SkipMember();
      if failed == None {
        failed, more := SkipSeparator(RBRACE);
      }
    }

    /** What follows a member or an element: the end of the container or a comma and the start
        of the next. */
    method SkipSeparator(close: byte) returns (failed: Option<StreamError>, more: bool)
      requires Safe() && err == None && !IsSpace(close) && close != COMMA
      modifies `buf, `pos, `valueStart, `coming, `err
      ensures Safe() && Remaining() <= old(Remaining())
      ensures failed == None ==> err == None && Remaining() < old(Remaining())
      ensures failed == None && more ==> pos < |buf|
      ensures var e := old(SkipSpace(buf, pos));
        && (Parsing.At(old(buf), e, close) ==>
              failed == None && !more && pos == e + 1 && Stays(old(buf), old(coming), old(valueStart)))
        && (Parsing.At(old(buf), e, COMMA) && SkipSpace(old(buf), e + 1) < |old(buf)| ==>
              failed == None && more && pos == SkipSpace(old(buf), e + 1)
                  && Stays(old(buf), old(coming), old(valueStart)))
        && (e < |old(buf)| && old(buf)[e] != close && old(buf)[e] != COMMA ==> failed == Some(Malformed) && err == None)
    {
      more := false;
      failed := SkipWhitespace();
      if failed.Some? {
        return;
      }
      var c := buf[pos];
      if c == close {
        pos := pos + 1;
        return;
      }
      if c != COMMA {
        failed := Some(Malformed);
        return;
      }
      pos := pos + 1;
      failed := SkipWhitespace();
      more := true;
    }

    /** A key is skipped like a string whatever its first byte is. */
    method SkipMember() returns (failed: Option<StreamError>)
      requires Safe() && err == None && pos < |buf|
      modifies `buf, `pos, `valueStart, `coming, `err
      ensures Safe() && Remaining() <= old(Remaining())
      ensures failed == None ==> err == None && Remaining() < old(Remaining())
      ensures Follows(old(ScanMember(buf, pos)), failed, old(buf), old(coming), old(valueStart))
      decreases Remaining(), 3
    {
      hide ScanValue, ScanString, Total;
      EndIsShort(buf);
      failed := SkipString();
      if failed.Some? {
        return;
      }
      failed := SkipWhitespace();
      if failed.Some? {
        return;
      }
      if buf[pos] != COLON {
        return Some(Malformed);
      }
      pos := pos + 1;
      failed := SkipWhitespace();
      if failed.Some? {
        return;
      }
      failed := SkipValue();
    }

    method SkipArray() returns (failed: Option<StreamError>)
      requires Safe() && err == None && pos < |buf|
      modifies `buf, `pos, `valueStart, `coming, `err
      ensures Safe() && Remaining() <= old(Remaining())
      ensures failed == None ==> err == None && Remaining() < old(Remaining())
      ensures Follows(old(ScanArray(buf, SkipSpace(buf, pos + 1))), failed, old(buf), old(coming), old(valueStart))
      decreases Remaining(), 2
    {
      EndIsShort(buf);
      pos := pos + 1;
      failed := SkipWhitespace();
      if failed.Some? {
        return;
      }
      if buf[pos] == RBRACKET {
        pos := pos + 1;
        return None;
      }
      failed := SkipItems();
    }

    method SkipItems() returns (failed: Option<StreamError>)
      requires Safe() && err == None && pos < |buf|
      modifies `buf, `pos, `valueStart, `coming, `err
      ensures Safe() && Remaining() <= old(Remaining())
      ensures failed == None ==> err == None && Remaining() < old(Remaining())
      ensures Follows(old(ScanItems(buf, pos)), failed, old(buf), old(coming), old(valueStart))
      decreases Remaining(), 5
    {
      hide ScanMembers, ScanMember, ScanItems, ScanValue, SkipSpace, Next, Total;
      ghost var goal := ScanItems(buf, pos);
      while true
        invariant Safe() && err == None && pos < |buf| && Remaining() <= old(Remaining())
        invariant !goal.Short? ==> Stays(old(buf), old(coming), old(valueStart)) && ScanItems(buf, pos) == goal
        decreases Remaining()
      {
        var more;
        failed, more := SkipOneItem();
        if failed.Some? || !more {
          return;
        }
      }
    }

    /** One round of the loop: an element and what separates it from the next. */
    method SkipOneItem() returns (failed: Option<StreamError>, more: bool)
      requires Safe() && err == None && pos < |buf|
      modifies `buf, `pos, `valueStart, `coming, `err
      ensures Safe() && Remaining() <= old(Remaining())
      ensures failed == None ==> err == None && Remaining() < old(Remaining())
      ensures failed == None && more ==> pos < |buf|
      ensures Continues(old(ScanItems(buf, pos)), if pos <= |buf| then ScanItems(buf, pos) else Short, failed, more,
                        old(buf), old(coming), old(valueStart))
      decreases Remaining(), 4
    {
      hide ScanMembers, ScanMember, ScanItems, ScanValue, SkipSpace, Next, Total;
      if !ScanItems(buf, pos).Short? {
        ItemsGoOn(buf, pos);
      }
      more := false;
      failed := SkipValue();
      if failed == None {
        failed, more := SkipSeparator(RBRACKET);
      }
    }

    /** skipLiteral: the literals are tried in order, reading more while one does not fit. */
    method SkipLiteral(literals: seq<Text>) returns (failed: Option<StreamError>)
      requires Safe() && err == None && pos < |buf| && Ascending(literals)
      modifies `buf, `pos, `valueStart, `coming, `err
      ensures Safe() && Remaining() <= old(Remaining())
      ensures failed == None ==> err == None && Remaining() < old(Remaining())
      ensures Follows(old(ScanLiteral(buf, pos, literals)), failed, old(buf), old(coming), old(valueStart))
    {
      var i := 0;
      while i < |literals|
        invariant 0 <= i <= |literals| && Ascending(literals[i..])
        invariant Safe() && err == None && pos < |buf| && Remaining() == old(Remaining())
        invariant !old(ScanLiteral(buf, pos, literals)).Short? ==>
          Stays(old(buf), old(coming), old(valueStart))
              && ScanLiteral(buf, pos, literals[i..]) == old(ScanLiteral(buf, pos, literals))
      {
        var lit := literals[i];
        if pos + |lit| > |buf| {
          failed := Fill();
          if failed.Some? {
            return;
          }
        }
        HasSlice(buf, pos, lit);
        if pos + |lit| <= |buf| && buf[pos..pos + |lit|] == lit {
          pos := pos + |lit|;
          return None;
        }
        i := i + 1;
      }
      failed := Some(Malformed);
    }

    method SkipNumber() returns (failed: Option<StreamError>)
      requires Safe() && err == None && pos < |buf|
      modifies `buf, `pos, `valueStart, `coming, `err
      ensures Safe() && Remaining() <= old(Remaining())
      ensures failed == None ==> err == None && Remaining() < old(Remaining())
      ensures Follows(old(ScanNumber(buf, pos)), failed, old(buf), old(coming), old(valueStart))
      ensures old(CutInteger(buf, pos)) ==> Cut(failed, old(coming))
    {
      failed := SkipInteger();
      if failed == None {
        failed := SkipFraction();
      }
      if failed == None {
        failed := SkipExponent();
      }
    }

    method SkipDigits()
      requires Safe()
      modifies `pos
      ensures Safe() && pos == DigitsEnd(buf, old(pos))
    {
      while pos < |buf| && IsDigit(buf[pos])
        invariant old(pos) <= pos <= |buf| && DigitsEnd(buf, pos) == DigitsEnd(buf, old(pos))
      {
        pos := pos + 1;
      }
    }

    method SkipInteger() returns (failed: Option<StreamError>)
      requires Safe() && err == None && pos < |buf|
      modifies `buf, `pos, `valueStart, `coming, `err
      ensures Safe() && Remaining() <= old(Remaining())
      ensures failed == None ==> err == None && Remaining() < old(Remaining())
      ensures Follows(old(ScanInteger(buf, pos)), failed, old(buf), old(coming), old(valueStart))
      ensures old(CutInteger(buf, pos)) ==> Cut(failed, old(coming))
    {
      failed := None;
      if buf[pos] == MINUS {
        pos := pos + 1;
        if pos >= |buf| {
          failed := Fill();
          if failed.Some? {
            return;
          }
        }
      }
      if buf[pos] == ZERO {
        pos := pos + 1;
      } else if IsDigit(buf[pos]) {
        pos := pos + 1;
        SkipDigits();
        if pos >= |buf| {
          failed := Fill();
        }
      } else {
        failed := Some(Malformed);
      }
    }

    method SkipFraction() returns (failed: Option<StreamError>)
      requires Safe() && err == None
      modifies `buf, `pos, `valueStart, `coming, `err
      ensures Safe() && (failed == None ==> err == None) && Remaining() <= old(Remaining())
      ensures Follows(old(ScanFraction(buf, pos)), failed, old(buf), old(coming), old(valueStart))
    {
      failed := None;
      if pos < |buf| && buf[pos] == DOT {
        pos := pos + 1;
        if pos >= |buf| {
          failed := Fill();
          if failed.Some? {
            return;
          }
        }
        if !IsDigit(buf[pos]) {
          return Some(Malformed);
        }
        SkipDigits();
        if pos >= |buf| {
          failed := Fill();
        }
      }
    }

    method SkipExponent() returns (failed: Option<StreamError>)
      requires Safe() && err == None
      modifies `buf, `pos, `valueStart, `coming, `err
      ensures Safe() && (failed == None ==> err == None) && Remaining() <= old(Remaining())
      ensures Follows(old(ScanExponent(buf, pos)), failed, old(buf), old(coming), old(valueStart))
    {
      failed := None;
      if pos < |buf| && (buf[pos] == 0x65 || buf[pos] == 0x45) {
        pos := pos + 1;
        if pos >= |buf| {
          failed := Fill();
          if failed.Some? {
            return;
          }
        }
        if buf[pos] == PLUS || buf[pos] == MINUS {
          pos := pos + 1;
          if pos >= |buf| {
            failed := Fill();
            if failed.Some? {
              return;
            }
          }
        }
        if !IsDigit(buf[pos]) {
          return Some(Malformed);
        }
        SkipDigits();
      }
    }

    /** Decode: the next value of the input, the end of it, or an error; errors of the reader and
        of the decoder are returned by every later call, those of the scanner are not. Unless the
        value is not whole in its window, the outcome is the specified one; an integer that the
        window cuts is lost, if the next read does not take it on. */
    method Decode() returns (failed: Option<StreamError>, out: Any)
      requires Safe()
      modifies this
      ensures Safe() && Remaining() <= old(Remaining()) && (failed == None ==> Remaining() < old(Remaining()))
      ensures old(err).Some? ==> failed == err == old(err) && Here() == old(Here())
      ensures old(err) == None ==>
        match ReadOne(old(Here()), options)
        case AtEnd => failed == err == Some(EndOfInput)
        case NotWhole(at) =>
          CutInteger(at.window, at.pos) ==>
            if at.coming == [] then failed == err == Some(EndOfInput)
            else at.coming[0] != [] && !GoesOn(at.coming[0][0]) ==>
              failed == err == Some(DecodeFailed(Parsing.InvalidJSON))
                  && Here() == Place(at.coming[0], 0, at.coming[1..])
        case Garbled(_) => failed == Some(Malformed) && err == None
        case Undecodable(_, code) => failed == err == Some(DecodeFailed(code))
        case Got(v, after) => failed == err == None && Here() == after && out == Meaning(v)
    {
      out := Nil;
      if err.Some? {
        return err, out;
      }
      failed := SkipWhitespace();
      if failed.Some? {
        return;
      }
      valueStart := pos;
      failed := SkipValue();
      if failed.Some? {
        return;
      }
      var end := pos;
      var start := if valueStart > end then 0 else valueStart;
      var decoder := new Decoding.Decoder(buf[start..end], options);
      var code;
      code, out := decoder.Decode();
      if code.Some? {
        err := Some(DecodeFailed(code.value));
        return err, out;
      }
      pos := end;
    }
  }

  /** A client that reads values until a call fails. Where the input is one that is cut into
      whole values, it gets exactly these, and then the end of the input. */
  method ReadAll(sd: StreamDecoder) returns (out: seq<Any>)
    requires sd.Safe() && sd.err == None
    modifies sd
    ensures sd.Safe()
    ensures var goal := Drain(old(sd.Here()), sd.options);
            goal.Some? ==> out == goal.value && sd.err == Some(EndOfInput)
  {
    hide ReadOne, Meaning, Total;
    out := [];
    ghost var goal := Drain(sd.Here(), sd.options);
    assert goal.Some? ==> [] + goal.value == goal.value;
    while true
      invariant sd.Safe() && (goal.Some? ==> sd.err == None)
      invariant goal.Some? ==>
        Drain(sd.Here(), sd.options).Some? && goal.value == out + Drain(sd.Here(), sd.options).value
      decreases sd.Remaining()
    {
      ghost var here := sd.Here();
      var failed, v := sd.Decode();
      if goal.Some? {
        DrainStep(here, sd.options);
      }
      if failed.Some? {
        return;
      }
      ghost var rest := if goal.Some? then Drain(sd.Here(), sd.options).value else [];
      assert out + ([v] + rest) == (out + [v]) + rest;
      out := out + [v];
    }
  }

  /** A client whose first read ends in an integer, as a reader that returns what has arrived may
      do: unless the integer is zero, it is not returned, whatever the later reads are, if only
      the next one does not take the number on. */
  method LosesInteger(i: int, later: seq<Text>, opt: Parsing.Options) returns (failed: Option<StreamError>, out: Any)
    requires forall k | 0 <= k < |later| :: later[k] != []
    requires i != 0 && (later != [] ==> !GoesOn(later[0][0]))
    ensures failed == Some(if later == [] then EndOfInput else DecodeFailed(Parsing.InvalidJSON))
  {
    hide ReadOne, CutInteger, Total;
    var input := [Decimal(i)] + later;
    assert input[0] == Decimal(i) && input[1..] == later;
    FirstInteger(i, later, opt);
    var sd := new StreamDecoder(input, opt);
    failed, out := sd.Decode();
  }

  lemma FirstInteger(i: int, later: seq<Text>, opt: Parsing.Options)
    requires i != 0
    ensures var at := Place(Decimal(i), 0, later);
            ReadOne(Beginning([Decimal(i)] + later), opt) == NotWhole(at) && CutInteger(at.window, 0)
  {
    hide ScanValue, CutInteger;
    var input := [Decimal(i)] + later;
    assert input[0] == Decimal(i) && input[1..] == later;
    HasAll(Decimal(i));
    IntegerAtEndOfRead(Decimal(i), 0, i, later, opt);
    SpaceIsSkipped(Beginning(input), opt);
  }

  /** What a call reads when all that is left is cut into values. */
  lemma DrainStep(at: Place, opt: Parsing.Options)
    requires at.pos <= |at.window| && Drain(at, opt).Some?
    ensures ReadOne(at, opt).AtEnd? || ReadOne(at, opt).Got?
    ensures ReadOne(at, opt).AtEnd? ==> Drain(at, opt).value == []
    ensures ReadOne(at, opt).Got? ==>
      var rest := Drain(ReadOne(at, opt).after, opt);
      rest.Some? && Drain(at, opt).value == [Meaning(ReadOne(at, opt).value)] + rest.value
  {
    hide ReadOne, Meaning;
  }

  lemma {:induction false} ReadableConcat(cfg: Config, a: seq<Val>, b: seq<Val>, opt: Parsing.Options)
    requires AllReadable(cfg, a, opt) && AllReadable(cfg, b, opt)
    ensures AllReadable(cfg, a + b, opt)
  {
    hide Readable;
    if a == [] {
      assert a + b == b;
    } else {
      assert (a + b)[1..] == a[1..] + b;
      ReadableConcat(cfg, a[1..], b, opt);
    }
  }

  lemma {:induction false} GroupsAreReadable(cfg: Config, groups: seq<seq<Val>>, opt: Parsing.Options)
    requires GroupsReadable(cfg, groups, opt)
    ensures AllReadable(cfg, DocsOf(groups), opt)
    ensures forall i | 0 <= i < |LineReads(cfg, groups)| :: LineReads(cfg, groups)[i] != []
  {
    hide Readable;
    if groups != [] {
      GroupsAreReadable(cfg, groups[1..], opt);
      ReadableConcat(cfg, groups[0], DocsOf(groups[1..]), opt);
    }
  }

  /** A readable document is encoded as itself when it fits the encoder's limit. */
  lemma {:induction false} ReadableIsEncoded(cfg: Config, docs: seq<Val>, i: nat, opt: Parsing.Options, max: int)
    requires AllReadable(cfg, docs, opt) && i < |docs|
    ensures EncodeTop(map[], docs[i], max).Ok? ==> EncodeTop(map[], docs[i], max).value == docs[i]
    ensures Height(docs[i]) <= max ==> EncodeTop(map[], docs[i], max).Ok?
    decreases i
  {
    if i > 0 {
      ReadableIsEncoded(cfg, docs[1..], i - 1, opt, max);
    } else {
      EncodeTree(map[], docs[0], 0, [], max);
    }
  }

  /** Documents that go through the stream encoder and are read back, several lines at a time,
      come out again. Within the depth limit and with HTML escaping nothing stops the sender. */
  method SendAndReceive(groups: seq<seq<Val>>, config: Config, growth: (nat, nat) -> nat, opt: Parsing.Options)
      returns (ok: bool, out: seq<Any>)
    requires GroupsReadable(config, groups, opt)
    ensures ok ==> out == MeaningItems(DocsOf(groups))
    ensures var docs := DocsOf(groups);
            config.escapeHTML && (forall i | 0 <= i < |docs| :: Height(docs[i]) <= config.maxDepth) ==> ok
  {
    hide EncodeTop, Print, Height, MeaningItems, Readable, LinesOf, Drain, PlainVal, PlainHeap, Refused;
    var docs := DocsOf(groups);
    var w := new Sink(_ => true);
    var se := new StreamEncoder(w, config, growth);
    out := [];
    GroupsAreReadable(config, groups, opt);
    NoLines(config);
    assert docs[..0] == [];
    for i := 0 to |docs|
      invariant se.err == None && w.sent == LinesOf(config, docs[..i])
    {
      ReadableIsEncoded(config, docs, i, opt, config.maxDepth);
      var failed := se.Encode(map[], docs[i]);
      if failed.Some? {
        return false, out;
      }
      assert docs[..i + 1] == docs[..i] + [docs[i]];
      LinesOfConcat(config, docs[..i], [docs[i]]);
    }
    assert docs[..|docs|] == docs;
    LineReadsConcat(config, groups);
    assert w.sent == Concat(LineReads(config, groups));
    LinesAreCut(config, groups, opt);
    var sd := new StreamDecoder(LineReads(config, groups), opt);
    out := ReadAll(sd);
    ok := true;
  }
}
