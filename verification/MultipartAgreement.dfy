/**
 The streaming reader driven over a whole body, and its agreement with the buffered one: which
 documents it accepts under which chunkings, and what it returns for them.
 */
module MultipartAgreement {
  import opened Wrappers
  import opened Bytes
  import opened HeaderSyntax
  import opened MultipartGrammar
  import opened BufferedMultipart
  import opened Transport
  import opened MultipartReader

  /** `Parts`, with every header block required to survive the chunking. */
  ghost function FittingParts(items: seq<Item>, delimiter: bytes, read: HeaderReader, at: nat, room: nat)
    : Option<Document>
    decreases room
  {
    var d := Delivered(items);
    if room == 0 then None
    else
      match SectionAt(d, delimiter, read, at)
      case None => None
      case Some(Section(part, next)) =>
        if !BlockFits(items, at, HeaderBlock(d, read, at).value.end) then None
        else if next.Closed? then Some(Document([part], next.at))
        else Resume([part], FittingParts(items, delimiter, read, next.at, room - 1))
  }

  /** `Parse`, with every header block required to survive the chunking. */
  ghost function FittingParse(items: seq<Item>, delimiter: bytes, read: HeaderReader): Option<Document> {
    var d := Delivered(items);
    if !Occurs(d, delimiter, 0) then None
    else
      match AfterDelimiter(d, |delimiter|)
      case None => None
      case Some(Closed(end)) => Some(Document([], end))
      case Some(HeadersAt(next)) => FittingParts(items, delimiter, read, next, MAX_PARTS)
  }

  lemma FittingPartsUnfold(items: seq<Item>, delimiter: bytes, read: HeaderReader, at: nat, room: nat, done: seq<Part>)
    ensures Resume(done, FittingParts(items, delimiter, read, at, room))
         == match SectionAt(Delivered(items), delimiter, read, at)
            case None => None
            case Some(Section(part, next)) =>
              if room == 0 || !BlockFits(items, at, HeaderBlock(Delivered(items), read, at).value.end) then None
              else if next.Closed? then Some(Document(done + [part], next.at))
              else Resume(done + [part], FittingParts(items, delimiter, read, next.at, room - 1))
  {
    hide SectionAt, HeaderBlock, BlockFits;
    match SectionAt(Delivered(items), delimiter, read, at)
    case None =>
    case Some(Section(part, next)) =>
      if room > 0 && next.HeadersAt? {
        ResumeAppends(done, [part], FittingParts(items, delimiter, read, next.at, room - 1));
      }
  }

  /** What reading on from `next` yields, after the parts `done`. */
  ghost function Remaining(items: seq<Item>, delimiter: bytes, read: HeaderReader,
                           next: Option<Next>, done: seq<Part>): Option<Document>
    requires |done| <= MAX_PARTS
  {
    match next
    case None => None
    case Some(Closed(end)) => Some(Document(done, end))
    case Some(HeadersAt(at)) => Resume(done, FittingParts(items, delimiter, read, at, MAX_PARTS - |done|))
  }

  /** Reads the current part's data to its end. */
  method ReadData(stream: MultipartStream) returns (r: Result<bytes, MultipartError>)
    requires stream.Valid() && stream.state == InPart && stream.Position() <= |stream.Body()|
    modifies stream
    ensures stream.Valid() && stream.parts == old(stream.parts)
    ensures r.Ok? <==> old(stream.RestOfPart()).Some?
    ensures r.Ok? ==> r.value == old(stream.RestOfPart()).value
    ensures r.Ok? ==> (stream.state == Headers || stream.state == Done) && stream.Upcoming() == old(stream.Upcoming())
    ensures r.Err? ==> r.error == Starved(stream.source, "multipart part has no closing boundary")
  {
    hide Delivered, Occurs, FirstTerminator, TerminatorAt, AfterDelimiter, Starved;
    hide MultipartStream.Consistent, MultipartStream.TerminatorsAhead, MultipartStream.CutsBehind;
    var data := [];
    ghost var start := stream.Position();
    while true
      invariant stream.Valid() && stream.parts == old(stream.parts) && stream.state == InPart
      invariant start <= stream.Position() <= |stream.Body()| && data == stream.Body()[start..stream.Position()]
      invariant stream.Upcoming() == old(stream.Upcoming())
      invariant FirstTerminator(stream.Body(), stream.delimiter, stream.Position())
             == FirstTerminator(stream.Body(), stream.delimiter, start)
      decreases |stream.Body()| - stream.Position()
    {
      var chunk := stream.NextChunk();
      if chunk.Err? {
        return Err(chunk.error);
      }
      if chunk.value.None? {
        return Ok(data);
      }
      data := data + chunk.value.value;
    }
  }

  /** Why part `n`, whose header block starts at `at`, cannot be read from the stream. */
  ghost predicate StreamedPartFault(
    items: seq<Item>, delimiter: bytes, read: HeaderReader, at: nat, n: nat, error: MultipartError)
  {
    var block := HeaderBlock(Delivered(items), read, at);
    if block.None? || !BlockFits(items, at, block.value.end) then HeaderFault(items, read, at, error)
    else if n == MAX_PARTS then error == Malformed("multipart body contains too many parts")
    else
      && FirstTerminator(Delivered(items), delimiter, block.value.end + 4).None?
      && error == Starved(items, "multipart part has no closing boundary")
  }

  /** Why a stream is not a document: its opening, or the part after `n` complete ones. */
  ghost predicate StreamFault(items: seq<Item>, delimiter: bytes, read: HeaderReader, error: MultipartError) {
    var d := Delivered(items);
    if !Occurs(d, delimiter, 0) || AfterDelimiter(d, |delimiter|).None? then error == OpeningFault(items, delimiter)
    else
      exists n: nat | n <= MAX_PARTS && BlockStart(d, delimiter, read, n).Some? ::
        StreamedPartFault(items, delimiter, read, BlockStart(d, delimiter, read, n).value, n, error)
  }

  /** What is announced after `n` complete parts. */
  ghost predicate Reached(
    d: bytes, delimiter: bytes, read: HeaderReader, state: State, upcoming: Option<Next>, n: nat)
  {
    match state
    case Opening =>
      n == 0 && upcoming == if Occurs(d, delimiter, 0) then AfterDelimiter(d, |delimiter|) else None
    case Headers =>
      upcoming.Some? && upcoming.value.HeadersAt? && BlockStart(d, delimiter, read, n) == Some(upcoming.value.at)
    case _ => upcoming.Some? && upcoming.value.Closed?
  }

  lemma ReachedHere(d: bytes, delimiter: bytes, read: HeaderReader, state: State, upcoming: Option<Next>, n: nat)
    requires Reached(d, delimiter, read, state, upcoming, n) && upcoming.Some? && upcoming.value.HeadersAt?
    ensures BlockStart(d, delimiter, read, n) == Some(upcoming.value.at)
    ensures Occurs(d, delimiter, 0) && AfterDelimiter(d, |delimiter|).Some?
  {
    hide SectionAt;
    BlockStartOpens(d, delimiter, read, n);
  }

  lemma {:induction false} BlockStartOpens(d: bytes, delimiter: bytes, read: HeaderReader, n: nat)
    requires n == 0 || BlockStart(d, delimiter, read, n).Some?
    ensures BlockStart(d, delimiter, read, n).Some? ==> Occurs(d, delimiter, 0) && AfterDelimiter(d, |delimiter|).Some?
  {
    hide SectionAt;
    if n > 0 {
      BlockStartOpens(d, delimiter, read, n - 1);
    }
  }

  lemma ReachedNext(d: bytes, delimiter: bytes, read: HeaderReader, at: nat, n: nat)
    requires BlockStart(d, delimiter, read, n) == Some(at) && SectionAt(d, delimiter, read, at).Some?
    ensures var next := SectionAt(d, delimiter, read, at).value.next;
            BlockStart(d, delimiter, read, n + 1) == if next.HeadersAt? then Some(next.at) else None
  {
    hide SectionAt;
  }

  lemma FieldFaultReported(
    items: seq<Item>, delimiter: bytes, read: HeaderReader, state: State, upcoming: Option<Next>, n: nat,
    error: MultipartError)
    requires n <= MAX_PARTS && Reached(Delivered(items), delimiter, read, state, upcoming, n)
    requires FieldFault(items, delimiter, read, state, upcoming, n, error)
    ensures StreamFault(items, delimiter, read, error)
  {
    hide SectionAt, HeaderFault, OpeningFault, Starved, Occurs, AfterDelimiter, BlockFits, HeaderBlock, BlockStart;
    if upcoming.Some? {
      ReachedHere(Delivered(items), delimiter, read, state, upcoming, n);
      assert StreamedPartFault(items, delimiter, read, upcoming.value.at, n, error);
    }
  }

  lemma DataFaultReported(items: seq<Item>, delimiter: bytes, read: HeaderReader, at: nat, n: nat, error: MultipartError)
    requires n < MAX_PARTS && BlockStart(Delivered(items), delimiter, read, n) == Some(at)
    requires var block := HeaderBlock(Delivered(items), read, at);
             && block.Some? && BlockFits(items, at, block.value.end)
             && FirstTerminator(Delivered(items), delimiter, block.value.end + 4).None?
    requires error == Starved(items, "multipart part has no closing boundary")
    ensures StreamFault(items, delimiter, read, error)
  {
    hide SectionAt, Starved, Occurs, AfterDelimiter, BlockFits, HeaderBlock, FirstTerminator, BlockStart;
    BlockStartOpens(Delivered(items), delimiter, read, n);
    assert StreamedPartFault(items, delimiter, read, at, n, error);
  }

  /** The whole document, part by part, as a handler that keeps everything reads it. */
  method ReadDocument(stream: MultipartStream) returns (r: Result<seq<Part>, MultipartError>)
    requires stream.Valid() && stream.state == Opening
    modifies stream
    ensures stream.Valid()
    ensures r.Ok? <==> FittingParse(stream.source, stream.delimiter, stream.read).Some?
    ensures r.Ok? ==> r.value == FittingParse(stream.source, stream.delimiter, stream.read).value.parts
    ensures r.Ok? ==> stream.state == Done
    ensures r.Err? ==> StreamFault(stream.source, stream.delimiter, stream.read, r.error)
  {
    hide Delivered, Occurs, FirstTerminator, TerminatorAt, AfterDelimiter, SectionAt, FittingParts, BlockFits;
    hide StreamFault, FieldFault, Starved, BlockStart, HeaderFault, OpeningFault;
    hide MultipartStream.Consistent, MultipartStream.TerminatorsAhead, MultipartStream.CutsBehind;
    ghost var items, delimiter, read, body := stream.source, stream.delimiter, stream.read, stream.Body();
    var parts := [];
    Begin(items, delimiter, read);
    while true
      invariant stream.Valid() && |parts| == stream.parts <= MAX_PARTS
      invariant stream.state == Opening || stream.state == Headers || stream.state == Done
      invariant FittingParse(items, delimiter, read) == Remaining(items, delimiter, read, stream.Upcoming(), parts)
      invariant Reached(body, delimiter, read, stream.state, stream.Upcoming(), |parts|)
      decreases MAX_PARTS - |parts|
    {
      ghost var next := stream.Upcoming();
      if next.Some? && next.value.HeadersAt? {
        FittingPartsUnfold(items, delimiter, read, next.value.at, MAX_PARTS - |parts|, parts);
        SectionFields(body, delimiter, read, next.value.at);
      }
      ghost var state := stream.state;
      var field := stream.NextField();
      if field.Err? {
        FieldFaultReported(items, delimiter, read, state, next, |parts|, field.error);
        return Err(field.error);
      }
      if field.value.None? {
        return Ok(parts);
      }
      TerminatorAnnounces(body, delimiter, stream.Position());
      ReachedHere(body, delimiter, read, state, next, |parts|);
      var data := ReadData(stream);
      if data.Err? {
        DataFaultReported(items, delimiter, read, next.value.at, |parts|, data.error);
        return Err(data.error);
      }
      ReachedNext(body, delimiter, read, next.value.at, |parts|);
      parts := parts + [Part(field.value.value, data.value)];
    }
  }

  lemma Begin(items: seq<Item>, delimiter: bytes, read: HeaderReader)
    ensures FittingParse(items, delimiter, read)
         == Remaining(items, delimiter, read,
                      if Occurs(Delivered(items), delimiter, 0) then AfterDelimiter(Delivered(items), |delimiter|) else None,
                      [])
  {
    hide FittingParts, AfterDelimiter, Occurs;
    var next := AfterDelimiter(Delivered(items), |delimiter|);
    if next.Some? && next.value.HeadersAt? {
      ResumeAppends([], [], FittingParts(items, delimiter, read, next.value.at, MAX_PARTS));
    }
  }

  // ----- agreement -----

  /** Every header block that `Parts` meets survives the chunking. */
  ghost predicate BlocksFit(items: seq<Item>, delimiter: bytes, read: HeaderReader, at: nat, room: nat)
    decreases room
  {
    var d := Delivered(items);
    room > 0 && SectionAt(d, delimiter, read, at).Some? ==>
      && BlockFits(items, at, HeaderBlock(d, read, at).value.end)
      && var next := SectionAt(d, delimiter, read, at).value.next;
         next.HeadersAt? ==> BlocksFit(items, delimiter, read, next.at, room - 1)
  }

  /** Every header block that `Parts` meets is at least three bytes below the limit. */
  predicate BlocksShort(d: bytes, delimiter: bytes, read: HeaderReader, at: nat, room: nat)
    decreases room
  {
    room > 0 && SectionAt(d, delimiter, read, at).Some? ==>
      && HeaderBlock(d, read, at).value.end - at <= MAX_HEADER_BYTES - 3
      && var next := SectionAt(d, delimiter, read, at).value.next;
         next.HeadersAt? ==> BlocksShort(d, delimiter, read, next.at, room - 1)
  }

  predicate ShortHeaders(d: bytes, delimiter: bytes, read: HeaderReader) {
    FirstHeaders(d, delimiter).Some? ==>
      BlocksShort(d, delimiter, read, FirstHeaders(d, delimiter).value, MAX_PARTS)
  }

  ghost predicate ChunkingFits(items: seq<Item>, delimiter: bytes, read: HeaderReader) {
    FirstHeaders(Delivered(items), delimiter).Some? ==>
      BlocksFit(items, delimiter, read, FirstHeaders(Delivered(items), delimiter).value, MAX_PARTS)
  }

  lemma {:induction false} FittingPartsExact(items: seq<Item>, delimiter: bytes, read: HeaderReader, at: nat, room: nat)
    ensures var parts := Parts(Delivered(items), delimiter, read, at, room);
            FittingParts(items, delimiter, read, at, room)
            == if parts.Some? && BlocksFit(items, delimiter, read, at, room) then parts else None
    decreases room
  {
    hide SectionAt, HeaderBlock, BlockFits, Delivered;
    if room > 0 {
      match SectionAt(Delivered(items), delimiter, read, at)
      case None =>
      case Some(Section(part, next)) =>
        if next.HeadersAt? {
          FittingPartsExact(items, delimiter, read, next.at, room - 1);
        }
    }
  }

  /**
   What the streaming reader makes of a chunked body: exactly what the buffered reader makes of
   the joined body when every header block survives the chunking, and an error otherwise.
   */
  lemma StreamingExact(items: seq<Item>, delimiter: bytes, read: HeaderReader)
    ensures var buffered := Parse(Delivered(items), delimiter, read);
            FittingParse(items, delimiter, read)
            == if buffered.Some? && ChunkingFits(items, delimiter, read) then buffered else None
  {
    hide FittingParts, Parts, BlocksFit, Occurs, AfterDelimiter, Delivered;
    var first := FirstHeaders(Delivered(items), delimiter);
    if first.Some? {
      FittingPartsExact(items, delimiter, read, first.value, MAX_PARTS);
    }
  }

  /** Blocks at least three bytes below the limit survive every chunking. */
  lemma {:induction false} ShortBlocksFit(items: seq<Item>, delimiter: bytes, read: HeaderReader, at: nat, room: nat)
    requires BlocksShort(Delivered(items), delimiter, read, at, room)
    ensures BlocksFit(items, delimiter, read, at, room)
    decreases room
  {
    hide SectionAt, HeaderBlock, Delivered, Cut;
    var section := SectionAt(Delivered(items), delimiter, read, at);
    if room > 0 && section.Some? && section.value.next.HeadersAt? {
      ShortBlocksFit(items, delimiter, read, section.value.next.at, room - 1);
    }
  }

  /** A block within three bytes of the limit is refused when a chunk ends just past the limit. */
  lemma {:induction false} LongBlockBreaks(d: bytes, delimiter: bytes, read: HeaderReader, at: nat, room: nat)
    returns (cut: nat)
    requires Parts(d, delimiter, read, at, room).Some? && !BlocksShort(d, delimiter, read, at, room)
    ensures cut <= |d|
    ensures forall items: seq<Item>, k: nat | Delivered(items) == d && k <= |items| && Cut(items, k) == cut ::
              !BlocksFit(items, delimiter, read, at, room)
    decreases room
  {
    hide SectionAt, Delivered, Cut, HeaderBlock;
    SectionFields(d, delimiter, read, at);
    var end := HeaderBlock(d, read, at).value.end;
    if end - at > MAX_HEADER_BYTES - 3 {
      cut := at + MAX_HEADER_BYTES + 1;
    } else {
      cut := LongBlockBreaks(d, delimiter, read, SectionAt(d, delimiter, read, at).value.next.at, room - 1);
    }
  }

  lemma TwoChunks(d: bytes, cut: nat) returns (items: seq<Item>)
    requires cut <= |d|
    ensures Delivered(items) == d && AllChunks(items)
    ensures |items| == 2 && Cut(items, 1) == cut
  {
    items := [Chunk(d[..cut]), Chunk(d[cut..])];
    assert items[1..] == [Chunk(d[cut..])];
    assert Delivered(items[1..]) == d[cut..] + Delivered(items[1..][1..]) == d[cut..] + [];
    assert items[..1] == [Chunk(d[..cut])];
    assert Delivered(items[..1]) == d[..cut] + Delivered(items[..1][1..]) == d[..cut] + [];
  }

  /**
   For a body the buffered reader accepts, the streaming reader returns the same under every
   chunking exactly when every header block is at most MAX - 3 bytes long.
   */
  lemma AgreementUnderEveryChunking(d: bytes, delimiter: bytes, read: HeaderReader)
    requires Parse(d, delimiter, read).Some?
    ensures (forall items: seq<Item> | Delivered(items) == d ::
               FittingParse(items, delimiter, read) == Parse(d, delimiter, read))
            <==> ShortHeaders(d, delimiter, read)
  {
    hide FittingParse, Parse, Parts, BlocksFit, BlocksShort, FirstHeaders, Delivered, Cut;
    var first := FirstHeaders(d, delimiter);
    if ShortHeaders(d, delimiter, read) {
      forall items: seq<Item> | Delivered(items) == d
        ensures FittingParse(items, delimiter, read) == Parse(d, delimiter, read)
      {
        StreamingExact(items, delimiter, read);
        if first.Some? {
          ShortBlocksFit(items, delimiter, read, first.value, MAX_PARTS);
        }
      }
    } else {
      ParseFromFirst(d, delimiter, read);
      var cut := LongBlockBreaks(d, delimiter, read, first.value, MAX_PARTS);
      var items := TwoChunks(d, cut);
      StreamingExact(items, delimiter, read);
      assert FittingParse(items, delimiter, read) != Parse(d, delimiter, read);
    }
  }

  lemma ParseFromFirst(d: bytes, delimiter: bytes, read: HeaderReader)
    ensures var first := FirstHeaders(d, delimiter);
            first.Some? ==> Parse(d, delimiter, read) == Parts(d, delimiter, read, first.value, MAX_PARTS)
  {
    hide Parts, AfterDelimiter, Occurs;
  }

  /** Whatever the chunking and the header sizes, what streaming accepts the buffered reader accepts. */
  lemma StreamingImpliesBuffered(items: seq<Item>, delimiter: bytes, read: HeaderReader)
    requires FittingParse(items, delimiter, read).Some?
    ensures Parse(Delivered(items), delimiter, read) == FittingParse(items, delimiter, read)
  {
    StreamingExact(items, delimiter, read);
  }

  /**
   A body cut short anywhere before the end of its closing delimiter, by its end or by a transport
   failure, is an error under every chunking: truncation is never taken for the end.
   */
  lemma TruncatedStreamFails(d: bytes, delimiter: bytes, read: HeaderReader, items: seq<Item>)
    requires Parse(d, delimiter, read).Some?
    requires |Delivered(items)| < Parse(d, delimiter, read).value.end
    requires Delivered(items) == d[..|Delivered(items)|]
    ensures FittingParse(items, delimiter, read).None?
  {
    StreamingExact(items, delimiter, read);
    TruncationDetected(d, delimiter, read, |Delivered(items)|);
  }

  // ----- from the content type -----

  /** `--` and the boundary's bytes; a valid boundary is ASCII, so a byte is a character. */
  function DelimiterOf(boundary: string): (r: bytes)
    requires ValidBoundary(boundary)
    ensures ValidDelimiter(r) && |r| == |boundary| + 2
  {
    DASHES + seq(|boundary|, i requires 0 <= i < |boundary| => BoundaryByte(boundary[i], boundary))
  }

  function BoundaryByte(c: char, boundary: string): byte
    requires ValidBoundary(boundary) && c in boundary
  {
    c as int
  }

  /** `MultipartStream::new`. */
  method OpenStream(body: seq<Item>, contentType: string) returns (r: Result<MultipartStream, MultipartError>)
    ensures r.Ok? <==> BoundaryOf(contentType).Some?
    ensures r.Ok? ==>
              && fresh(r.value) && r.value.Valid() && r.value.state == Opening && r.value.source == body
              && r.value.delimiter == DelimiterOf(BoundaryOf(contentType).value)
              && r.value.read == HeadersOfBytes
    ensures r.Err? ==> r.error == Malformed("multipart boundary is missing or invalid")
  {
    var boundary := MultipartBoundary(contentType);
    if boundary.None? {
      return Err(Malformed("multipart boundary is missing or invalid"));
    }
    var stream := new MultipartStream(body, DelimiterOf(boundary.value), HeadersOfBytes);
    r := Ok(stream);
  }

  /** `parse_multipart_request`, given the request's content type and body. */
  method ParseMultipartRequest(contentType: Option<string>, body: bytes) returns (r: Result<seq<Part>, string>)
    ensures r.Ok? <==>
              && contentType.Some? && BoundaryOf(contentType.value).Some?
              && Parse(body, DelimiterOf(BoundaryOf(contentType.value).value), HeadersOfBytes).Some?
    ensures r.Ok? ==>
              r.value == Parse(body, DelimiterOf(BoundaryOf(contentType.value).value), HeadersOfBytes).value.parts
    ensures r.Err? ==>
              if contentType.None? then r.error == "missing multipart Content-Type header"
              else if BoundaryOf(contentType.value).None? then r.error == "multipart boundary is missing or invalid"
              else BodyFault(body, DelimiterOf(BoundaryOf(contentType.value).value), HeadersOfBytes, r.error)
  {
    hide Parse, HeadersOfBytes, BoundaryOf, DelimiterOf, BodyFault;
    if contentType.None? {
      return Err("missing multipart Content-Type header");
    }
    var boundary := MultipartBoundary(contentType.value);
    if boundary.None? {
      return Err("multipart boundary is missing or invalid");
    }
    r := ParseMultipart(body, DelimiterOf(boundary.value), HeadersOfBytes);
  }
}
