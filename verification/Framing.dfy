/** How the stream decoder cuts what it reads into values: places in the input, what one call reads
    at a place, what a sequence of calls returns, and the reads for which that is what was written,
    one value after the other. */
module Framing {
  import opened Bytes
  import opened Integers
  import opened Values
  import opened Utf8
  import opened Parsing
  import opened SkipAgreement
  import opened RoundTrip
  import opened Targets
  import opened StreamScan
  import opened WriterSpec

  /** A place in the input: the bytes read last, the position in them, and what the reader will
      return from its next calls before the end of input. */
  datatype Place = Place(window: Text, pos: nat, coming: seq<Text>)

  /** The next byte that is no white space, in this window or a later one. */
  function Next(at: Place): (r: Option<Place>)
    requires at.pos <= |at.window|
    ensures r.Some? ==> r.value.pos < |r.value.window|
    decreases |at.coming|
  {
    var p := SkipSpace(at.window, at.pos);
    if p < |at.window| then Some(at.(pos := p))
    else if at.coming == [] then None
    else Next(Place(at.coming[0], 0, at.coming[1..]))
  }

  /** One step over white space, or into the next read. */
  lemma NextStep(at: Place)
    requires at.pos <= |at.window|
    ensures at.pos < |at.window| && IsSpace(at.window[at.pos]) ==> Next(at.(pos := at.pos + 1)) == Next(at)
    ensures at.pos < |at.window| && !IsSpace(at.window[at.pos]) ==> Next(at) == Some(at)
    ensures Next(at.(pos := SkipSpace(at.window, at.pos))) == Next(at)
    ensures at.pos < |at.window| && IsSpace(at.window[at.pos]) ==>
      SkipSpace(at.window, at.pos + 1) == SkipSpace(at.window, at.pos)
    ensures at.pos < |at.window| && !IsSpace(at.window[at.pos]) ==> SkipSpace(at.window, at.pos) == at.pos
    ensures at.pos == |at.window| ==>
      Next(at) == if at.coming == [] then None else Next(Place(at.coming[0], 0, at.coming[1..]))
  {
    SkipSpaceTwice(at.window, at.pos);
  }

  /** The window has changed at most for one later read; nothing is read twice. */
  lemma {:induction false} NextMoves(at: Place)
    requires at.pos <= |at.window|
    ensures match Next(at)
            case None => true
            case Some(p) =>
              || |p.coming| < |at.coming|
              || (p.coming == at.coming && p.window == at.window && p.pos >= at.pos)
    decreases |at.coming|
  {
    if SkipSpace(at.window, at.pos) == |at.window| && at.coming != [] {
      NextMoves(Place(at.coming[0], 0, at.coming[1..]));
    }
  }

  /** What one Decode call reads: nothing any more, a value that is not whole in the window it
      starts in, text in that window that no value goes on with, a value that does not decode, or a
      value and the place after it. */
  datatype Outcome =
    | AtEnd
    | NotWhole(at: Place)
    | Garbled(at: Place)
    | Undecodable(at: Place, code: Code)
    | Got(value: Val, after: Place)

  function ReadOne(at: Place, opt: Options): (r: Outcome)
    requires at.pos <= |at.window|
    ensures r.Got? ==> r.after.pos <= |r.after.window|
    ensures r.Got? ==>
        || |r.after.coming| < |at.coming|
        || (r.after.coming == at.coming && r.after.window == at.window && r.after.pos > at.pos)
  {
    NextMoves(at);
    match Next(at)
    case None => AtEnd
    case Some(p) =>
      match ScanValue(p.window, p.pos)
      case Short => NotWhole(p)
      case Bad => Garbled(p)
      case End(end) =>
        match ParseDocument(p.window[p.pos..end], 0, 0, opt)
        case Fail(code) => Undecodable(p, code)
        case Ok(v, _) => Got(v, p.(pos := end))
  }

  /** The values that repeated Decode calls return up to the end of the input; None when a call
      fails or a value is not whole in the window it starts in. */
  function Drain(at: Place, opt: Options): Option<seq<Any>>
    requires at.pos <= |at.window|
    decreases |at.coming|, |at.window| - at.pos
  {
    match ReadOne(at, opt)
    case AtEnd => Some([])
    case Got(v, after) =>
      (match Drain(after, opt)
      case None => None
      case Some(vs) => Some([Meaning(v)] + vs))
    case _ => None
  }

  /** A document with the white space before it. */
  datatype Piece = Piece(lead: Text, doc: Val)

  /** One read: whole documents, and white space after the last. */
  datatype Batch = Batch(pieces: seq<Piece>, tail: Text)

  function PiecesText(cfg: Config, pieces: seq<Piece>, tail: Text): Text {
    if pieces == [] then tail
    else pieces[0].lead + Print(cfg, pieces[0].doc, 0) + PiecesText(cfg, pieces[1..], tail)
  }

  function ReadsOf(cfg: Config, batches: seq<Batch>): seq<Text> {
    if batches == [] then [] else [PiecesText(cfg, batches[0].pieces, batches[0].tail)] + ReadsOf(cfg, batches[1..])
  }

  function PieceMeanings(pieces: seq<Piece>): seq<Any> {
    if pieces == [] then [] else [Meaning(pieces[0].doc)] + PieceMeanings(pieces[1..])
  }

  function BatchMeanings(batches: seq<Batch>): seq<Any> {
    if batches == [] then [] else PieceMeanings(batches[0].pieces) + BatchMeanings(batches[1..])
  }

  /** A document that can be scanned and decoded. */
  ghost predicate Readable(cfg: Config, v: Val, opt: Options) {
    Scannable(cfg, v) && Ready(cfg, v, 0, opt) && (opt.validate ==> Utf8Val(v))
  }

  /** The documents are readable, everything between them is white space, and an integer is
      followed, in the same read, by a byte that ends it. */
  ghost predicate Aligned(cfg: Config, pieces: seq<Piece>, tail: Text, opt: Options) {
    if pieces == [] then AllSpace(tail)
    else
      var rest := PiecesText(cfg, pieces[1..], tail);
      && AllSpace(pieces[0].lead) && Readable(cfg, pieces[0].doc, opt)
      && (IsNumber(pieces[0].doc) ==> rest != [] && !IsNumberByte(rest[0]))
      && Aligned(cfg, pieces[1..], tail, opt)
  }

  ghost predicate AllAligned(cfg: Config, batches: seq<Batch>, opt: Options) {
    batches != [] ==> Aligned(cfg, batches[0].pieces, batches[0].tail, opt) && AllAligned(cfg, batches[1..], opt)
  }

  lemma Cut(w: Text, pos: nat, a: Text, t: Text, rest: Text)
    requires pos <= |w| && w[pos..] == a + t + rest
    ensures var p, end := pos + |a|, pos + |a| + |t|;
            && |w| == end + |rest| && Has(w, pos, a) && Has(w, p, t) && w[p..end] == t && w[end..] == rest
  {
    var all := a + t + rest;
    assert all[|a|..|a| + |t|] == t && all[..|a|] == a && all[|a| + |t|..] == rest;
    assert w[pos..pos + |a|] == a && w[pos + |a|..pos + |a| + |t|] == t && w[pos + |a| + |t|..] == rest;
    HasSlice(w, pos + |a|, t);
    HasSlice(w, pos, a);
  }

  lemma Find(at: Place, lead: Text, t: Text)
    requires at.pos <= |at.window| && AllSpace(lead) && Has(at.window, at.pos, lead)
    requires Has(at.window, at.pos + |lead|, t) && t != [] && !IsSpace(t[0])
    ensures Next(at) == Some(at.(pos := at.pos + |lead|))
  {
    SkipSpaceOver(at.window, at.pos, lead);
  }

  lemma DecodeAlone(cfg: Config, doc: Val, opt: Options)
    requires Ready(cfg, doc, 0, opt) && (opt.validate ==> Utf8Val(doc))
    ensures ParseDocument(Print(cfg, doc, 0), 0, 0, opt) == Ok(doc, |Print(cfg, doc, 0)|)
  {
    HasAll(Print(cfg, doc, 0));
    PrintIsUtf8(cfg, doc, 0);
    hide ParseValue, Ready, Print, Utf8Val, ValidUtf8;
    ValueRoundTrip(cfg, doc, 0, Print(cfg, doc, 0), 0, 0, opt);
  }

  lemma Ends(w: Text, end: nat, rest: Text, doc: Val)
    requires end <= |w| && w[end..] == rest && (IsNumber(doc) ==> rest != [] && !IsNumberByte(rest[0]))
    ensures Terminated(doc, w, end)
  {
    assert rest != [] ==> w[end] == rest[0];
  }

  lemma DocHead(cfg: Config, doc: Val, opt: Options)
    requires Readable(cfg, doc, opt)
    ensures Print(cfg, doc, 0) != [] && !IsSpace(Print(cfg, doc, 0)[0])
  {
    ScanHead(cfg, doc, 0);
  }

  lemma DocIsRead(cfg: Config, doc: Val, rest: Text, w: Text, p: nat, opt: Options)
    requires Readable(cfg, doc, opt) && Has(w, p, Print(cfg, doc, 0)) && w[p + |Print(cfg, doc, 0)|..] == rest
    requires IsNumber(doc) ==> rest != [] && !IsNumberByte(rest[0])
    ensures ScanValue(w, p) == End(p + |Print(cfg, doc, 0)|)
    ensures ParseDocument(Print(cfg, doc, 0), 0, 0, opt) == Ok(doc, |Print(cfg, doc, 0)|)
  {
    hide Print, Has, Scannable, Ready, ScanValue, ParseDocument, Utf8Val;
    Ends(w, p + |Print(cfg, doc, 0)|, rest, doc);
    ScanPrinted(cfg, doc, 0, w, p);
    DecodeAlone(cfg, doc, opt);
  }

  lemma OneStep(at: Place, p: nat, end: nat, doc: Val, opt: Options)
    requires at.pos <= |at.window| && Next(at) == Some(at.(pos := p)) && p < end <= |at.window|
    requires ScanValue(at.window, p) == End(end) && ParseDocument(at.window[p..end], 0, 0, opt) == Ok(doc, end - p)
    ensures ReadOne(at, opt) == Got(doc, at.(pos := end))
  {
    hide ScanValue, ParseDocument, Next;
  }

  lemma {:induction false} PlacedIsRead(cfg: Config, doc: Val, lead: Text, t: Text, rest: Text, at: Place, opt: Options)
    requires AllSpace(lead) && Readable(cfg, doc, opt) && at.pos <= |at.window|
    requires at.window[at.pos..] == lead + t + rest && t == Print(cfg, doc, 0) && t != [] && !IsSpace(t[0])
    requires IsNumber(doc) ==> rest != [] && !IsNumberByte(rest[0])
    ensures var end := at.pos + |lead| + |t|;
            end <= |at.window| && at.window[end..] == rest && ReadOne(at, opt) == Got(doc, at.(pos := end))
  {
    hide Print, Readable, ScanValue, ParseDocument, Next, AllSpace, Has, ReadOne, IsNumberByte;
    Cut(at.window, at.pos, lead, t, rest);
    Find(at, lead, t);
    DocIsRead(cfg, doc, rest, at.window, at.pos + |lead|, opt);
    OneStep(at, at.pos + |lead|, at.pos + |lead| + |t|, doc, opt);
  }

  /** A document in a read is found, scanned and decoded, and the rest of the read is left. */
  lemma {:induction false} PieceIsRead(cfg: Config, doc: Val, lead: Text, rest: Text, at: Place, opt: Options)
    requires AllSpace(lead) && Readable(cfg, doc, opt) && at.pos <= |at.window|
    requires at.window[at.pos..] == lead + Print(cfg, doc, 0) + rest
    requires IsNumber(doc) ==> rest != [] && !IsNumberByte(rest[0])
    ensures var end := at.pos + |lead| + |Print(cfg, doc, 0)|;
            end <= |at.window| && at.window[end..] == rest && ReadOne(at, opt) == Got(doc, at.(pos := end))
  {
    DocHead(cfg, doc, opt);
    hide Readable, ScanValue, ParseDocument, Next, AllSpace, Has, ReadOne, Print;
    PlacedIsRead(cfg, doc, lead, Print(cfg, doc, 0), rest, at, opt);
  }

  /** At white space only, a call goes on to the next read. */
  lemma SpaceIsSkipped(at: Place, opt: Options)
    requires at.pos <= |at.window| && AllSpace(at.window[at.pos..])
    ensures ReadOne(at, opt) == if at.coming == [] then AtEnd else ReadOne(Place(at.coming[0], 0, at.coming[1..]), opt)
  {
    var rest := at.window[at.pos..];
    HasSlice(at.window, at.pos, rest);
    SkipSpaceOver(at.window, at.pos, rest);
    assert Next(at) == if at.coming == [] then None else Next(Place(at.coming[0], 0, at.coming[1..]));
    hide ScanValue, ParseDocument, Next, AllSpace, SkipSpace;
  }

  lemma DrainGot(at: Place, opt: Options, v: Val, after: Place, vs: seq<Any>)
    requires at.pos <= |at.window| && ReadOne(at, opt) == Got(v, after) && Drain(after, opt) == Some(vs)
    ensures Drain(at, opt) == Some([Meaning(v)] + vs)
  {
    hide ReadOne, Meaning;
  }

  lemma DrainSame(at: Place, next: Place, opt: Options)
    requires at.pos <= |at.window| && next.pos <= |next.window| && ReadOne(at, opt) == ReadOne(next, opt)
    ensures Drain(at, opt) == Drain(next, opt)
  {
    hide ReadOne, Meaning;
  }

  lemma DrainEnd(at: Place, opt: Options)
    requires at.pos <= |at.window| && ReadOne(at, opt) == AtEnd
    ensures Drain(at, opt) == Some([])
  {
    hide ReadOne, Meaning;
  }

  /** The first of the documents that are left in a read. */
  lemma FirstPiece(cfg: Config, at: Place, pieces: seq<Piece>, tail: Text, opt: Options) returns (after: Place)
    requires pieces != [] && Aligned(cfg, pieces, tail, opt)
    requires at.pos <= |at.window| && at.window[at.pos..] == PiecesText(cfg, pieces, tail)
    ensures after.pos <= |at.window| && after == at.(pos := after.pos)
    ensures at.window[after.pos..] == PiecesText(cfg, pieces[1..], tail)
    ensures Aligned(cfg, pieces[1..], tail, opt) && ReadOne(at, opt) == Got(pieces[0].doc, after)
  {
    hide ReadOne, Readable, Print, IsNumberByte, AllSpace;
    PieceIsRead(cfg, pieces[0].doc, pieces[0].lead, PiecesText(cfg, pieces[1..], tail), at, opt);
    after := at.(pos := at.pos + |pieces[0].lead| + |Print(cfg, pieces[0].doc, 0)|);
  }

  lemma MeaningsCons(pieces: seq<Piece>, vs: seq<Any>)
    requires pieces != []
    ensures PieceMeanings(pieces) + vs == [Meaning(pieces[0].doc)] + (PieceMeanings(pieces[1..]) + vs)
  {
    hide Meaning;
  }

  /** From any place inside a read: the rest of its documents and all later ones. */
  lemma {:induction false} DrainFrom(cfg: Config, at: Place, pieces: seq<Piece>, tail: Text, later: seq<Batch>,
      opt: Options)
    requires Aligned(cfg, pieces, tail, opt) && AllAligned(cfg, later, opt)
    requires at.pos <= |at.window| && at.window[at.pos..] == PiecesText(cfg, pieces, tail)
        && at.coming == ReadsOf(cfg, later)
    ensures Drain(at, opt) == Some(PieceMeanings(pieces) + BatchMeanings(later))
    decreases |later|, |pieces|
  {
    hide ReadOne, Meaning, Readable, Print, IsNumberByte, AllSpace, Drain;
    if pieces != [] {
      var after := FirstPiece(cfg, at, pieces, tail, opt);
      DrainFrom(cfg, after, pieces[1..], tail, later, opt);
      DrainGot(at, opt, pieces[0].doc, after, PieceMeanings(pieces[1..]) + BatchMeanings(later));
      MeaningsCons(pieces, BatchMeanings(later));
    } else {
      SpaceIsSkipped(at, opt);
      if later != [] {
        var next := Place(at.coming[0], 0, at.coming[1..]);
        assert next.window[0..] == next.window;
        DrainFrom(cfg, next, later[0].pieces, later[0].tail, later[1..], opt);
        DrainSame(at, next, opt);
      } else {
        DrainEnd(at, opt);
      }
      assert [] + BatchMeanings(later) == BatchMeanings(later);
    }
  }

  /** Nothing has been read yet. */
  function Beginning(coming: seq<Text>): Place {
    Place([], 0, coming)
  }

  /** Reads that end after whole values: exactly the values written, in order, then the end. */
  lemma AlignedReadsAreCut(cfg: Config, batches: seq<Batch>, opt: Options)
    requires AllAligned(cfg, batches, opt)
    ensures Drain(Beginning(ReadsOf(cfg, batches)), opt) == Some(BatchMeanings(batches))
  {
    hide Drain;
    DrainFrom(cfg, Beginning(ReadsOf(cfg, batches)), [], [], batches, opt);
    assert [] + BatchMeanings(batches) == BatchMeanings(batches);
  }

  // ----- newline-delimited documents -----

  /** Each document followed by a line feed: what the stream encoder sends. */
  function LinesOf(cfg: Config, docs: seq<Val>): Text {
    if docs == [] then [] else Print(cfg, docs[0], 0) + [LF] + LinesOf(cfg, docs[1..])
  }

  function Pieces(lead: Text, docs: seq<Val>): seq<Piece>
    decreases |docs|
  {
    if docs == [] then [] else [Piece(lead, docs[0])] + Pieces([LF], docs[1..])
  }

  function DocsOf(groups: seq<seq<Val>>): seq<Val> {
    if groups == [] then [] else groups[0] + DocsOf(groups[1..])
  }

  /** One read for each group of lines. */
  function LineReads(cfg: Config, groups: seq<seq<Val>>): seq<Text> {
    if groups == [] then [] else [LinesOf(cfg, groups[0])] + LineReads(cfg, groups[1..])
  }

  function Concat(texts: seq<Text>): Text {
    if texts == [] then [] else texts[0] + Concat(texts[1..])
  }

  ghost predicate AllReadable(cfg: Config, docs: seq<Val>, opt: Options) {
    docs != [] ==> Readable(cfg, docs[0], opt) && AllReadable(cfg, docs[1..], opt)
  }

  ghost predicate GroupsReadable(cfg: Config, groups: seq<seq<Val>>, opt: Options) {
    groups != [] ==> groups[0] != [] && AllReadable(cfg, groups[0], opt) && GroupsReadable(cfg, groups[1..], opt)
  }

  lemma {:induction false} MeaningItemsConcat(a: seq<Val>, b: seq<Val>)
    ensures MeaningItems(a + b) == MeaningItems(a) + MeaningItems(b)
    decreases |b|
  {
    if b == [] {
      assert a + b == a;
    } else {
      var n := |b| - 1;
      MeaningItemsConcat(a, b[..n]);
      assert a + b == (a + b[..n]) + [b[n]];
      MeaningItemsSnoc(a + b[..n], b[n]);
    }
  }

  lemma {:induction false} PiecesMean(lead: Text, docs: seq<Val>)
    ensures PieceMeanings(Pieces(lead, docs)) == MeaningItems(docs)
    decreases |docs|
  {
    if docs != [] {
      PiecesMean([LF], docs[1..]);
      MeaningItemsConcat([docs[0]], docs[1..]);
      MeaningItemsSnoc([], docs[0]);
      assert docs == [docs[0]] + docs[1..] && [] + [docs[0]] == [docs[0]];
    }
  }

  lemma {:induction false} PiecesAreLines(cfg: Config, lead: Text, docs: seq<Val>)
    requires docs != []
    ensures PiecesText(cfg, Pieces(lead, docs), [LF]) == lead + LinesOf(cfg, docs)
    decreases |docs|
  {
    var t := Print(cfg, docs[0], 0);
    if |docs| == 1 {
      assert lead + t + [LF] == lead + (t + [LF] + []);
    } else {
      PiecesAreLines(cfg, [LF], docs[1..]);
      assert lead + t + ([LF] + LinesOf(cfg, docs[1..])) == lead + (t + [LF] + LinesOf(cfg, docs[1..]));
    }
  }

  /** A line feed after every document ends integers too. */
  lemma {:induction false} LinesAligned(cfg: Config, lead: Text, docs: seq<Val>, tail: Text, opt: Options)
    requires AllSpace(lead) && AllSpace(tail) && AllReadable(cfg, docs, opt)
    requires docs != [] && tail == [] ==> !IsNumber(docs[|docs| - 1])
    ensures Aligned(cfg, Pieces(lead, docs), tail, opt)
    decreases |docs|
  {
    if docs != [] {
      hide Readable, Print;
      LinesAligned(cfg, [LF], docs[1..], tail, opt);
      if |docs| > 1 {
        assert PiecesText(cfg, Pieces(lead, docs)[1..], tail)[0] == LF;
      } else if tail != [] {
        assert IsSpace(tail[0]);
      }
    }
  }

  function EncoderBatches(groups: seq<seq<Val>>): seq<Batch> {
    if groups == [] then [] else [Batch(Pieces([], groups[0]), [LF])] + EncoderBatches(groups[1..])
  }

  lemma {:induction false} EncoderBatchesFit(cfg: Config, groups: seq<seq<Val>>, opt: Options)
    requires GroupsReadable(cfg, groups, opt)
    ensures ReadsOf(cfg, EncoderBatches(groups)) == LineReads(cfg, groups)
    ensures AllAligned(cfg, EncoderBatches(groups), opt)
    ensures BatchMeanings(EncoderBatches(groups)) == MeaningItems(DocsOf(groups))
  {
    if groups != [] {
      EncoderBatchesFit(cfg, groups[1..], opt);
      PiecesAreLines(cfg, [], groups[0]);
      LinesAligned(cfg, [], groups[0], [LF], opt);
      PiecesMean([], groups[0]);
      MeaningItemsConcat(groups[0], DocsOf(groups[1..]));
      hide LinesOf, Pieces, PiecesText, Aligned, MeaningItems, PieceMeanings;
      assert [] + LinesOf(cfg, groups[0]) == LinesOf(cfg, groups[0]);
    }
  }

  /** The stream encoder's output, however many whole lines each read returns, is decoded to the
      documents that were encoded, in order, and then the end of input. */
  lemma LinesAreCut(cfg: Config, groups: seq<seq<Val>>, opt: Options)
    requires GroupsReadable(cfg, groups, opt)
    ensures Drain(Beginning(LineReads(cfg, groups)), opt) == Some(MeaningItems(DocsOf(groups)))
  {
    EncoderBatchesFit(cfg, groups, opt);
    AlignedReadsAreCut(cfg, EncoderBatches(groups), opt);
  }

  lemma {:induction false} LineReadsConcat(cfg: Config, groups: seq<seq<Val>>)
    ensures Concat(LineReads(cfg, groups)) == LinesOf(cfg, DocsOf(groups))
  {
    if groups != [] {
      LineReadsConcat(cfg, groups[1..]);
      LinesOfConcat(cfg, groups[0], DocsOf(groups[1..]));
    }
  }

  lemma {:induction false} LinesOfConcat(cfg: Config, a: seq<Val>, b: seq<Val>)
    ensures LinesOf(cfg, a + b) == LinesOf(cfg, a) + LinesOf(cfg, b)
  {
    if a == [] {
      assert a + b == b;
    } else {
      assert (a + b)[1..] == a[1..] + b;
      LinesOfConcat(cfg, a[1..], b);
    }
  }

  /** The incremental writer separates documents instead of ending them. */
  lemma {:induction false} LinesArePieces(cfg: Config, docs: seq<Val>)
    ensures Lines(cfg, docs) == PiecesText(cfg, Pieces([], docs), [])
    decreases |docs|
  {
    if |docs| > 1 {
      var n := |docs| - 1;
      LinesArePieces(cfg, docs[..n]);
      PiecesSnoc(cfg, [], docs[..n], docs[n]);
      assert docs == docs[..n] + [docs[n]];
    }
  }

  lemma {:induction false} PiecesSnoc(cfg: Config, lead: Text, docs: seq<Val>, v: Val)
    requires docs != []
    ensures PiecesText(cfg, Pieces(lead, docs + [v]), [])
        == PiecesText(cfg, Pieces(lead, docs), []) + [LF] + Print(cfg, v, 0)
    decreases |docs|
  {
    assert (docs + [v])[1..] == docs[1..] + [v] && (docs + [v])[0] == docs[0];
    if |docs| == 1 {
      assert docs[1..] + [v] == [v];
    } else {
      PiecesSnoc(cfg, [LF], docs[1..], v);
    }
  }

  /** Documents driven through the Write* calls and read back in one piece. */
  lemma WrittenIsCut(cfg: Config, docs: seq<Val>, opt: Options)
    requires AllReadable(cfg, docs, opt) && (forall i | 0 <= i < |docs| :: Drivable(cfg, docs[i]))
    ensures Drain(Beginning([Run(cfg, EMPTY, DriveAll(docs)).log]), opt) == Some(MeaningItems(docs))
  {
    DocumentsAreLines(cfg, docs);
    LinesArePieces(cfg, docs);
    var batch := Batch(Pieces([], docs), []);
    assert docs != [] ==> Drivable(cfg, docs[|docs| - 1]);
    LinesAligned(cfg, [], docs, [], opt);
    PiecesMean([], docs);
    hide Drain, Run, DriveAll, Lines, Pieces, PiecesText, Aligned, MeaningItems, PieceMeanings, AllReadable, Drivable;
    assert ReadsOf(cfg, [batch]) == [Lines(cfg, docs)];
    assert BatchMeanings([batch]) == MeaningItems(docs) + [] == MeaningItems(docs);
    AlignedReadsAreCut(cfg, [batch], opt);
  }

  lemma IntegerAlone(i: int, opt: Options)
    requires MIN_INT64 <= i <= MAX_INT64 && !opt.useNumber
    ensures ParseDocument(Decimal(i), 0, 0, opt) == Ok(Int(i), |Decimal(i)|)
  {
    AsciiIsValid(Decimal(i));
    HasAll(Decimal(i));
    IntegerRoundTrip(Decimal(i), 0, 0, opt, i);
  }

  /** Why a read must not end in an integer. Wherever an integer stands, with no other number byte
      behind it, it is scanned as it is exactly when it is zero or the window holds another byte.
      Otherwise it is cut, and the scanner reads on. */
  lemma IntegerAtEndOfRead(w: Text, p: nat, i: int, coming: seq<Text>, opt: Options)
    requires Has(w, p, Decimal(i)) && (p + |Decimal(i)| < |w| ==> !IsNumberByte(w[p + |Decimal(i)|]))
    ensures var at, end := Place(w, p, coming), p + |Decimal(i)|;
            if i == 0 || end < |w| then ScanValue(w, p) == End(end)
            else ReadOne(at, opt) == NotWhole(at) && CutInteger(w, p)
    ensures var at, end := Place(w, p, coming), p + |Decimal(i)|;
            MIN_INT64 <= i <= MAX_INT64 && !opt.useNumber ==>
              (ReadOne(at, opt) == Got(Int(i), Place(w, end, coming)) <==> i == 0 || end < |w|)
  {
    var at, end := Place(w, p, coming), p + |Decimal(i)|;
    HasSlice(w, p, Decimal(i));
    assert w[p] == w[p..end][0];
    assert Next(at) == Some(at);
    if end < |w| {
      ScanDecimal(w, p, i);
    } else {
      ScanLastInteger(w, p, i);
    }
    assert i == 0 || end < |w| ==> ScanValue(w, p) == End(end) by {
      hide DigitsEnd;
      assert StartsNumber(w[p]);
    }
    hide ScanValue, Next, ParseDocument, Has, Decimal;
    if MIN_INT64 <= i <= MAX_INT64 && !opt.useNumber {
      IntegerAlone(i, opt);
    }
  }
}
