/** What the transport still has to deliver, and where its chunks cut the body. */
module Transport {
  import opened Bytes

  /** One item of the pulled body: a chunk (possibly empty) or a transport failure. */
  datatype Item = Chunk(data: bytes) | Failure

  /** The bytes a reader can pull before the body ends or fails. */
  function Delivered(items: seq<Item>): bytes {
    if items == [] || items[0].Failure? then [] else items[0].data + Delivered(items[1..])
  }

  /** The offset in the body after the first `k` items. */
  function Cut(items: seq<Item>, k: nat): nat
    requires k <= |items|
  {
    |Delivered(items[..k])|
  }

  function LargestChunk(items: seq<Item>): nat {
    if items == [] then 0
    else
      var rest := LargestChunk(items[1..]);
      if items[0].Chunk? && |items[0].data| > rest then |items[0].data| else rest
  }

  ghost predicate AllChunks(items: seq<Item>) {
    forall i | 0 <= i < |items| :: items[i].Chunk?
  }

  /** The transport fails before the body ends. */
  ghost predicate Interrupted(items: seq<Item>) {
    exists i | 0 <= i < |items| :: items[i].Failure?
  }

  lemma {:induction false} DeliveredConcat(a: seq<Item>, b: seq<Item>)
    requires AllChunks(a)
    ensures Delivered(a + b) == Delivered(a) + Delivered(b)
  {
    if a == [] {
      assert a + b == b;
    } else {
      assert (a + b)[1..] == a[1..] + b;
      DeliveredConcat(a[1..], b);
    }
  }

  lemma {:induction false} ChunkBounded(items: seq<Item>, k: nat)
    requires k < |items| && items[k].Chunk?
    ensures |items[k].data| <= LargestChunk(items)
  {
    if k > 0 {
      ChunkBounded(items[1..], k - 1);
    }
  }

  /** Pulling item `k` moves the cut by that chunk, and the chunk is that stretch of the body. */
  lemma PullChunk(items: seq<Item>, k: nat)
    requires k < |items| && AllChunks(items[..k]) && items[k].Chunk?
    ensures AllChunks(items[..k + 1])
    ensures Cut(items, k + 1) == Cut(items, k) + |items[k].data|
    ensures Occurs(Delivered(items), items[k].data, Cut(items, k))
  {
    assert items[..k + 1] == items[..k] + [items[k]];
    DeliveredConcat(items[..k], [items[k]]);
    assert Delivered([items[k]]) == items[k].data;
    assert items == items[..k + 1] + items[k + 1..];
    DeliveredConcat(items[..k + 1], items[k + 1..]);
  }

  /** With nothing left to pull, the cut is the end of the body. */
  lemma PullEnd(items: seq<Item>, k: nat)
    requires k <= |items| && AllChunks(items[..k])
    requires k == |items| || items[k].Failure?
    ensures Cut(items, k) == |Delivered(items)|
  {
    assert items == items[..k] + items[k..];
    DeliveredConcat(items[..k], items[k..]);
  }

  lemma {:induction false} CutMonotone(items: seq<Item>, j: nat, k: nat)
    requires j <= k <= |items|
    ensures Cut(items, j) <= Cut(items, k) <= |Delivered(items)|
  {
    if j > 0 && items[0].Chunk? {
      assert items[..j][1..] == items[1..][..j - 1];
      assert items[..k][1..] == items[1..][..k - 1];
      CutMonotone(items[1..], j - 1, k - 1);
    } else if k > 0 && items[0].Chunk? {
      assert items[..k][1..] == items[1..][..k - 1];
      CutMonotone(items[1..], 0, k - 1);
    }
  }
}

/**
 The pull-based reader `MultipartStream`: a sliding buffer, withheld look-ahead and five states.
 Ghost fields relate every state to the body as a whole.
 */
module MultipartReader {
  import opened Wrappers
  import opened Bytes
  import opened HeaderSyntax
  import opened MultipartGrammar
  import opened MultipartScan
  import opened Transport

  const U64_MAX: nat := 0xFFFF_FFFF_FFFF_FFFF

  datatype State = Opening | Headers | InPart | Done | Failed

  datatype MultipartError = Malformed(reason: string) | TooLarge(limit: nat) | TransportFailed

  /**
   The header block from `at` to `end` survives the chunking: at no moment are more than the
   limit's bytes available without the blank line being complete.
   */
  ghost predicate BlockFits(items: seq<Item>, at: nat, end: nat) {
    forall k: nat | k <= |items| :: !(at + MAX_HEADER_BYTES < Cut(items, k) < end + 4)
  }

  /** What a reader reports when the bytes run out: the transport's failure, or else its own complaint. */
  ghost function Starved(items: seq<Item>, reason: string): MultipartError {
    if Interrupted(items) then TransportFailed else Malformed(reason)
  }

  /** What is wrong with a suffix that is neither a line break nor two dashes. */
  ghost function SuffixFault(items: seq<Item>, at: nat): MultipartError {
    if |Delivered(items)| < at + 2 then Starved(items, "multipart boundary is malformed")
    else Malformed("multipart boundary is malformed")
  }

  /** What is wrong with a body that does not open with its delimiter and a suffix. */
  ghost function OpeningFault(items: seq<Item>, delimiter: bytes): MultipartError {
    if Occurs(Delivered(items), delimiter, 0) then SuffixFault(items, |delimiter|)
    else if |Delivered(items)| < |delimiter| then
      Starved(items, "multipart body does not start with its declared boundary")
    else Malformed("multipart body does not start with its declared boundary")
  }

  /** What is wrong with the header block at `at`: cut short, too long under this chunking, or unreadable. */
  ghost predicate HeaderFault(items: seq<Item>, read: HeaderReader, at: nat, error: MultipartError) {
    match Find(Delivered(items), BLANK_LINE, at)
    case None =>
      error == if |Delivered(items)| > at + MAX_HEADER_BYTES
               then Malformed("multipart part headers exceed the configured limit")
               else Starved(items, "multipart part headers are incomplete")
    case Some(end) =>
      if end - at > MAX_HEADER_BYTES || !BlockFits(items, at, end)
      then error == Malformed("multipart part headers exceed the configured limit")
      else read(Delivered(items)[at..end]).Err? && error == Malformed(read(Delivered(items)[at..end]).error)
  }

  /** Why the next part cannot be started: what the rest of the body announced, from this state. */
  ghost predicate FieldFault(
    items: seq<Item>, delimiter: bytes, read: HeaderReader, state: State, upcoming: Option<Next>, parts: nat,
    error: MultipartError)
  {
    match upcoming
    case None =>
      error == (match state
                case Opening => OpeningFault(items, delimiter)
                case InPart => Starved(items, "multipart part has no closing boundary")
                case _ => Malformed("multipart body already failed to parse"))
    case Some(Closed(_)) => false
    case Some(HeadersAt(at)) =>
      var block := HeaderBlock(Delivered(items), read, at);
      if block.Some? && BlockFits(items, at, block.value.end)
      then parts >= MAX_PARTS && error == Malformed("multipart body contains too many parts")
      else HeaderFault(items, read, at, error)
  }

  function Max(a: nat, b: nat): nat {
    if a < b then b else a
  }

  class MultipartStream {
    /** `--` followed by the declared boundary. */
    const delimiter: bytes
    const read: HeaderReader
    var incoming: seq<Item>
    var buffer: bytes
    var cursor: nat
    var state: State
    var parts: nat
    var bytesRead: nat

    /** Everything the transport will ever offer, and how much of it has been pulled. */
    ghost const source: seq<Item>
    ghost var pulled: nat
    /** The offset in the body of the first byte in `buffer`. */
    ghost var origin: nat

    ghost function Body(): bytes {
      Delivered(source)
    }

    ghost function Position(): nat
      reads this
    {
      origin + cursor
    }

    ghost function BufferEnd(): nat
      reads this
    {
      origin + |buffer|
    }

    /** The buffer is a window of the body that ends where the next unpulled chunk begins. */
    ghost predicate Synced()
      reads this
    {
      && pulled <= |source|
      && incoming == source[pulled..]
      && AllChunks(source[..pulled])
      && BufferEnd() == Cut(source, pulled)
      && Occurs(Body(), buffer, origin)
      && bytesRead == (if BufferEnd() < 18446744073709551615 then BufferEnd() else 18446744073709551615)
    }

    ghost predicate Consistent()
      reads this
    {
      && ValidDelimiter(delimiter)
      && cursor <= |buffer| <= MAX_HEADER_BYTES + LargestChunk(source)
      && (state != Failed ==> Synced() && parts <= MAX_PARTS)
    }

    /** Every chunk boundary so far lies before the read position, except the buffer's own end. */
    ghost predicate CutsBehind()
      reads this
      requires pulled <= |source|
    {
      forall k: nat | k <= pulled :: Cut(source, k) <= Position() || Cut(source, k) == BufferEnd()
    }

    /** No terminator ahead was already complete at an earlier chunk boundary. */
    ghost predicate TerminatorsAhead()
      reads this
      requires pulled <= |source|
    {
      forall k: nat, i: nat | k <= pulled && Position() <= i && TerminatorAt(Body(), delimiter, i) ::
        i + |delimiter| + 4 > Cut(source, k) || Cut(source, k) == BufferEnd()
    }

    ghost predicate Valid()
      reads this
    {
      && Consistent()
      && (state == Opening ==> buffer == [] && origin == 0 && pulled == 0 && parts == 0)
      && (state == Headers ==> CutsBehind())
      && (state == InPart ==> TerminatorsAhead())
    }

    /** `MultipartStream::new`, for a boundary already extracted from the content type. */
    constructor (body: seq<Item>, delimiter: bytes, read: HeaderReader)
      requires ValidDelimiter(delimiter)
      ensures Valid() && state == Opening
      ensures source == body && this.delimiter == delimiter && this.read == read
    {
      this.delimiter := delimiter;
      this.read := read;
      incoming := body;
      buffer, cursor, state, parts, bytesRead := [], 0, Opening, 0, 0;
      source, pulled, origin := body, 0, 0;
      new;
      assert source[..0] == [] && source[0..] == source;
    }

    /** `fail`: marks the document unusable. */
    method Fail(reason: string) returns (error: MultipartError)
      modifies this`state
      ensures state == Failed && error == Malformed(reason)
    {
      state := Failed;
      error := Malformed(reason);
    }

    /** The part of `fill` that drops the consumed prefix and appends the chunk just pulled. */
    method Absorb(chunk: bytes)
      requires Consistent() && state != Failed && |buffer| - cursor <= MAX_HEADER_BYTES
      requires pulled < |source| && source[pulled] == Chunk(chunk) && |chunk| <= LargestChunk(source)
      requires Cut(source, pulled + 1) == Cut(source, pulled) + |chunk|
      requires AllChunks(source[..pulled + 1]) && Occurs(Body(), chunk, Cut(source, pulled))
      modifies this
      ensures Consistent() && parts == old(parts) && state == old(state)
      ensures pulled == old(pulled) + 1 && |incoming| < old(|incoming|)
      ensures Position() == old(Position()) && BufferEnd() == old(BufferEnd()) + |chunk|
      ensures buffer == old(buffer[cursor..]) + chunk
    {
      hide Delivered, Cut, LargestChunk, Occurs;
      ghost var kept := buffer[cursor..];
      WindowGrows(Body(), buffer, origin, cursor, chunk);
      assert source[pulled..][1..] == source[pulled + 1..];
      if cursor > 0 {
        origin := origin + cursor;
        buffer := buffer[cursor..];
        cursor := 0;
      }
      assert buffer == kept;
      buffer := buffer + chunk;
      bytesRead := if bytesRead + |chunk| < U64_MAX then bytesRead + |chunk| else U64_MAX;
      incoming := incoming[1..];
      pulled := pulled + 1;
    }

    /**
     `fill`: pulls one nonempty chunk, dropping the consumed prefix of the buffer first.
     */
    method Fill() returns (r: Result<bool, MultipartError>)
      requires Consistent() && state != Failed && |buffer| - cursor <= MAX_HEADER_BYTES
      modifies this
      ensures Consistent() && parts == old(parts)
      ensures r.Err? ==> state == Failed && r.error == TransportFailed
      ensures r.Ok? ==> state == old(state) && Position() == old(Position())
      ensures r.Ok? ==> old(pulled) <= pulled <= |source|
      ensures r.Ok? ==> forall k: nat | old(pulled) <= k <= pulled ::
                Cut(source, k) == old(BufferEnd()) || Cut(source, k) == BufferEnd()
      ensures r == Ok(true) ==> BufferEnd() > old(BufferEnd()) && |incoming| < old(|incoming|)
      ensures r == Ok(true) ==> |buffer| <= old(|buffer| - cursor) + LargestChunk(source)
      ensures r != Ok(true) ==> buffer == old(buffer) && origin == old(origin) && cursor == old(cursor)
      ensures r != Ok(true) ==> old(BufferEnd()) == |Body()|
      ensures r.Err? ==> Interrupted(source)
      ensures r == Ok(false) ==> !Interrupted(source)
    {
      hide Delivered, Cut, LargestChunk, Occurs;
      while incoming != []
        invariant Consistent() && state == old(state) && parts == old(parts)
        invariant buffer == old(buffer) && cursor == old(cursor) && origin == old(origin)
        invariant old(pulled) <= pulled
        invariant forall k: nat | old(pulled) <= k <= pulled :: Cut(source, k) == old(BufferEnd())
        decreases |incoming|
      {
        var item := incoming[0];
        assert item == source[pulled];
        if item.Failure? {
          PullEnd(source, pulled);
          state := Failed;
          return Err(TransportFailed);
        }
        PullChunk(source, pulled);
        ChunkBounded(source, pulled);
        if item.data == [] {
          incoming := incoming[1..];
          pulled := pulled + 1;
        } else {
          Absorb(item.data);
          return Ok(true);
        }
      }
      PullEnd(source, pulled);
      assert source[..pulled] == source;
      r := Ok(false);
    }

    /** Every chunk boundary so far lies before `limit`, except the buffer's own end. */
    ghost predicate CutsBelow(limit: nat)
      reads this
      requires pulled <= |source|
    {
      forall k: nat | k <= pulled :: Cut(source, k) < limit || Cut(source, k) == BufferEnd()
    }

    /** `read_boundary_suffix`: the two bytes after a delimiter pick the next state. */
    method ReadBoundarySuffix() returns (r: Result<(), MultipartError>)
      requires Consistent() && state != Failed && CutsBelow(Position() + 2)
      modifies this
      ensures Consistent() && parts == old(parts)
      ensures r.Ok? <==> AfterDelimiter(Body(), old(Position())).Some?
      ensures r.Ok? ==> state == if AfterDelimiter(Body(), old(Position())).value.Closed? then Done else Headers
      ensures r.Ok? ==> Position() == old(Position()) + 2 && CutsBehind()
      ensures r.Err? ==> state == Failed && r.error == SuffixFault(source, old(Position()))
      ensures |buffer| <= Max(old(|buffer|), 1 + LargestChunk(source))
    {
      hide Delivered, Cut, LargestChunk, Occurs, Interrupted;
      while |buffer| - cursor < 2
        invariant Consistent() && state == old(state) && parts == old(parts)
        invariant Position() == old(Position()) && CutsBelow(Position() + 2)
        invariant |buffer| <= Max(old(|buffer|), 1 + LargestChunk(source))
        decreases |incoming|
      {
        var more := Fill();
        if more.Err? {
          return Err(more.error);
        }
        if !more.value {
          var error := Fail("multipart boundary is malformed");
          return Err(error);
        }
      }
      ByteOfWindow(Body(), buffer, origin, cursor);
      ByteOfWindow(Body(), buffer, origin, cursor + 1);
      var first, second := buffer[cursor], buffer[cursor + 1];
      cursor := cursor + 2;
      if first == DASH && second == DASH {
        state := Done;
        return Ok(());
      }
      if first == CR && second == LF {
        state := Headers;
        return Ok(());
      }
      var error := Fail("multipart boundary is malformed");
      r := Err(error);
    }

    /** The first half of `read_opening`: pulls until the opening delimiter could be there. */
    method AwaitOpening() returns (r: Result<(), MultipartError>)
      requires Valid() && state == Opening
      modifies this
      ensures Consistent() && parts == 0
      ensures r.Ok? ==> state == Opening && Position() == 0 && |delimiter| <= |buffer| - cursor
      ensures r.Ok? ==> pulled <= |source| && CutsBelow(|delimiter|)
      ensures r.Err? ==> state == Failed && !Occurs(Body(), delimiter, 0) && r.error == OpeningFault(source, delimiter)
    {
      OpeningFacts();
      hide Delivered, Cut, LargestChunk, Occurs, Interrupted, OpeningFault, Synced, ValidDelimiter;
      while |buffer| - cursor < |delimiter|
        invariant Consistent() && state == Opening && parts == 0 && pulled <= |source|
        invariant Position() == 0 && CutsBelow(|delimiter|)
        decreases |incoming|
      {
        var more := Fill();
        if more.Err? {
          OpeningCutShort(source, delimiter);
          return Err(more.error);
        }
        if !more.value {
          OpeningCutShort(source, delimiter);
          var error := Fail("multipart body does not start with its declared boundary");
          return Err(error);
        }
      }
      r := Ok(());
    }

    lemma OpeningFacts()
      requires Valid() && state == Opening
      ensures pulled <= |source| && Position() == 0 && CutsBelow(|delimiter|) && |delimiter| <= MAX_HEADER_BYTES
    {
      CutStart(source);
    }

    /** `read_opening`: consumes the opening delimiter and its suffix. */
    method ReadOpening() returns (r: Result<(), MultipartError>)
      requires Valid() && state == Opening
      modifies this
      ensures Consistent() && parts == 0
      ensures r.Ok? <==> Occurs(Body(), delimiter, 0) && AfterDelimiter(Body(), |delimiter|).Some?
      ensures r.Ok? ==> state == if AfterDelimiter(Body(), |delimiter|).value.Closed? then Done else Headers
      ensures r.Ok? ==> Position() == |delimiter| + 2 && CutsBehind()
      ensures r.Err? ==> state == Failed && r.error == OpeningFault(source, delimiter)
    {
      hide Delivered, Cut, LargestChunk, Occurs, Interrupted, Starved, SuffixFault, AfterDelimiter, Consistent, CutsBelow;
      r := AwaitOpening();
      if r.Err? {
        return;
      }
      OpeningInWindow();
      if !Occurs(buffer, delimiter, cursor) {
        var error := FailOpening();
        return Err(error);
      }
      SkipDelimiter();
      r := ReadBoundarySuffix();
    }

    lemma OpeningInWindow()
      requires Consistent() && state == Opening && Position() == 0 && |delimiter| <= |buffer| - cursor
      ensures Occurs(buffer, delimiter, cursor) == Occurs(Body(), delimiter, 0) && |delimiter| <= |Body()|
    {
      hide Delivered, Cut, Occurs;
      OccursInWindow(Body(), buffer, origin, delimiter, cursor);
      CutMonotone(source, pulled, pulled);
    }

    method FailOpening() returns (error: MultipartError)
      requires Consistent()
      modifies this`state
      ensures Consistent() && state == Failed
      ensures error == Malformed("multipart body does not start with its declared boundary")
    {
      error := Fail("multipart body does not start with its declared boundary");
    }

    /** Consumes the opening delimiter. */
    method SkipDelimiter()
      requires Consistent() && state == Opening && Position() == 0 && |delimiter| <= |buffer| - cursor
      requires pulled <= |source| && CutsBelow(|delimiter|)
      modifies this`cursor
      ensures Consistent() && Position() == |delimiter| && CutsBelow(|delimiter| + 2)
    {
      hide Delivered, Cut, Occurs;
      cursor := cursor + |delimiter|;
    }

    /** While the blank line is not complete, no earlier boundary saw too much or all of it. */
    ghost predicate HeaderCuts(at: nat)
      reads this
      requires pulled <= |source|
    {
      forall k: nat | k <= pulled :: Cut(source, k) == BufferEnd() || HeaderCut(Body(), at, Cut(source, k))
    }

    /** No blank line that starts at or after the read position is complete in the buffer. */
    ghost predicate BlankLineAhead()
      reads this
    {
      var found := Find(Body(), BLANK_LINE, Position());
      found.Some? ==> found.value + 4 > BufferEnd()
    }

    /** The search in the buffer, skipping what was searched before. */
    method SearchBuffer(searched: nat) returns (found: Option<nat>)
      requires Consistent() && state == Headers && searched <= |buffer| - cursor
      requires Find(Body(), BLANK_LINE, Position()) == Find(Body(), BLANK_LINE, Position() + searched)
      ensures found.Some? ==> cursor + found.value + 4 <= |buffer|
      ensures found.Some? ==> Find(Body(), BLANK_LINE, Position()) == Some(Position() + found.value)
      ensures found.None? ==> BlankLineAhead()
    {
      hide Delivered, Cut, LargestChunk, Occurs, Find;
      SuffixOfWindow(Body(), buffer, origin, cursor);
      found := FindBytes(buffer[cursor..], BLANK_LINE, searched);
      FindInWindow(Body(), buffer[cursor..], Position(), BLANK_LINE, searched);
    }

    /** Pulls more bytes while the blank line is not complete, unless that is hopeless. */
    method PullHeaders() returns (r: Result<(), MultipartError>)
      requires Consistent() && state == Headers && HeaderCuts(Position()) && BlankLineAhead()
      modifies this
      ensures Consistent() && parts == old(parts)
      ensures r.Ok? ==>
                && state == Headers && Position() == old(Position()) && HeaderCuts(Position())
                && BufferEnd() > old(BufferEnd()) && |incoming| < old(|incoming|)
      ensures r.Err? ==> state == Failed && HeaderFault(source, read, old(Position()), r.error)
    {
      hide Delivered, Cut, LargestChunk, Occurs, Find, BlockFits, Interrupted;
      if |buffer| - cursor > MAX_HEADER_BYTES {
        HeaderOverrun(Position());
        var error := Fail("multipart part headers exceed the configured limit");
        return Err(error);
      }
      HeaderUnfinished(Position(), BufferEnd());
      var more := Fill();
      if more.Err? {
        return Err(more.error);
      }
      if !more.value {
        var error := Fail("multipart part headers are incomplete");
        return Err(error);
      }
      r := Ok(());
    }

    /** The loop of `read_headers`: where the blank line is, relative to the cursor. */
    method FindBlankLine() returns (r: Result<nat, MultipartError>)
      requires Valid() && state == Headers
      modifies this
      ensures Consistent() && parts == old(parts)
      ensures r.Ok? ==> state == Headers && Position() == old(Position()) && HeaderCuts(Position())
      ensures r.Ok? ==>
                && Find(Body(), BLANK_LINE, Position()) == Some(Position() + r.value)
                && cursor + r.value + 4 <= |buffer|
      ensures r.Err? ==> state == Failed && HeaderFault(source, read, old(Position()), r.error)
    {
      hide Delivered, Cut, LargestChunk, Occurs, Find, BlockFits, Interrupted;
      ghost var at := Position();
      var searched: nat := 0;
      CutsAreHeaderCuts(at);
      hide HeaderFault, CutsBehind, HeaderCut, HeaderCuts, Synced, BlankLineAhead;
      while true
        invariant Consistent() && state == Headers && parts == old(parts) && Position() == at
        invariant searched <= |buffer| - cursor && pulled <= |source| && HeaderCuts(at)
        invariant Find(Body(), BLANK_LINE, at) == Find(Body(), BLANK_LINE, at + searched)
        decreases |incoming|
      {
        var found := SearchBuffer(searched);
        if found.Some? {
          return Ok(found.value);
        }
        var available := |buffer| - cursor;
        var more := PullHeaders();
        if more.Err? {
          return Err(more.error);
        }
        searched := if available < 3 then 0 else available - 3;
        FindSkips(Body(), BLANK_LINE, at, searched);
      }
    }

    /** `read_headers`: finds the blank line, however it is cut, and reads the block before it. */
    method ReadHeaders() returns (r: Result<PartHeaders, MultipartError>)
      requires Valid() && state == Headers
      modifies this
      ensures Consistent() && parts == old(parts)
      ensures r.Ok? <==>
                var block := HeaderBlock(Body(), read, old(Position()));
                block.Some? && BlockFits(source, old(Position()), block.value.end)
      ensures r.Err? ==> HeaderFault(source, read, old(Position()), r.error)
      ensures r.Ok? ==> state == Headers && Position() >= 4
      ensures r.Ok? ==> HeaderBlock(Body(), read, old(Position())) == Some(Block(r.value, Position() - 4))
      ensures r.Ok? ==> CutsBehind()
      ensures r.Err? ==> state == Failed
    {
      hide Delivered, Cut, LargestChunk, Occurs, Find, BlockFits;
      var end := FindBlankLine();
      if end.Err? {
        return Err(end.error);
      }
      if end.value > MAX_HEADER_BYTES {
        var error := Fail("multipart part headers exceed the configured limit");
        return Err(error);
      }
      HeaderFits(Position(), Position() + end.value);
      SliceOfWindow(Body(), buffer, origin, cursor, cursor + end.value);
      var parsed := read(buffer[cursor..cursor + end.value]);
      if parsed.Err? {
        var error := Fail(parsed.error);
        return Err(error);
      }
      cursor := cursor + (end.value + 4);
      r := Ok(parsed.value);
    }

    lemma CutsAreHeaderCuts(at: nat)
      requires pulled <= |source| && at == Position() && CutsBehind()
      ensures HeaderCuts(at)
    {
    }

    /** A body that ends before the blank line has none. */
    lemma HeaderUnfinished(at: nat, end: nat)
      requires Find(Body(), BLANK_LINE, at).Some? ==> Find(Body(), BLANK_LINE, at).value + 4 > end
      ensures end == |Body()| ==> Find(Body(), BLANK_LINE, at).None?
    {
    }

    /** The streaming reader's early limit check fires only on blocks that do not fit. */
    lemma HeaderOverrun(at: nat)
      requires Synced() && at == Position() && BufferEnd() > at + MAX_HEADER_BYTES && BlankLineAhead()
      ensures var found := Find(Body(), BLANK_LINE, at);
              if found.Some? then !BlockFits(source, at, found.value) else |Body()| > at + MAX_HEADER_BYTES
    {
      var found := Find(Body(), BLANK_LINE, at);
      if found.Some? {
        assert at + MAX_HEADER_BYTES < Cut(source, pulled) < found.value + 4;
      } else {
        CutMonotone(source, pulled, pulled);
      }
    }

    /** Once the blank line is in the buffer, no later boundary can hurt. */
    lemma HeaderFits(at: nat, end: nat)
      requires Synced() && HeaderCuts(at)
      requires Find(Body(), BLANK_LINE, at) == Some(end) && end + 4 <= BufferEnd()
      ensures BlockFits(source, at, end)
      ensures forall k: nat | k <= pulled :: Cut(source, k) <= end + 4 || Cut(source, k) == BufferEnd()
    {
      forall k: nat | k <= |source|
        ensures !(at + MAX_HEADER_BYTES < Cut(source, k) < end + 4)
      {
        if k > pulled {
          CutMonotone(source, pulled, k);
        }
      }
    }

    /** The two bytes before the cursor are the suffix that announced the current state. */
    ghost predicate Announced()
      reads this
    {
      && Position() >= 2
      && (state == Done || state == Headers)
      && AfterDelimiter(Body(), Position() - 2)
      == Some(if state == Done then Closed(Position()) else HeadersAt(Position()))
    }

    /** Hands out the next `count` bytes of the buffer, which are all part data. */
    method HandOut(count: nat) returns (range: (nat, nat))
      requires Valid() && state == InPart && 0 < count <= |buffer| - cursor
      requires FirstTerminator(Body(), delimiter, Position())
            == FirstTerminator(Body(), delimiter, Position() + count)
      modifies this`cursor
      ensures Valid() && Position() == old(Position()) + count <= |Body()|
      ensures range == (old(cursor), cursor) && cursor == old(cursor) + count
      ensures buffer[old(cursor)..cursor] == Body()[old(Position())..Position()]
    {
      hide Delivered, Cut, LargestChunk, Occurs, FirstTerminator, TerminatorAt;
      SliceOfWindow(Body(), buffer, origin, cursor, cursor + count);
      range := (cursor, cursor + count);
      cursor := cursor + count;
    }

    /** Consumes the terminator at the cursor. */
    method CloseSection() returns (r: Result<(), MultipartError>)
      requires Valid() && state == InPart && cursor + |delimiter| + 4 <= |buffer|
      requires pulled <= |source| && CutsBelow(Position() + |delimiter| + 4)
      requires AfterDelimiter(Body(), Position() + 2 + |delimiter|).Some?
      modifies this
      ensures Valid() && parts == old(parts) && r.Ok?
      ensures Position() == old(Position()) + |delimiter| + 4
      ensures Announced()
      ensures |buffer| <= Max(old(|buffer|), 1 + LargestChunk(source))
    {
      hide Delivered, Cut, LargestChunk, Occurs;
      cursor := cursor + (2 + |delimiter|);
      r := ReadBoundarySuffix();
    }

    /** Pulls more part data when all that is buffered could still be a terminator. */
    method PullPart() returns (r: Result<(), MultipartError>)
      requires Valid() && state == InPart && |buffer| - cursor < |delimiter| + 4
      requires FirstTerminator(buffer[cursor..], delimiter, 0).None?
      modifies this
      ensures Valid() && parts == old(parts)
      ensures r.Ok? ==> state == InPart && Position() == old(Position()) && |incoming| < old(|incoming|)
      ensures r.Err? ==> state == Failed && FirstTerminator(Body(), delimiter, old(Position())).None?
      ensures r.Err? ==> r.error == Starved(source, "multipart part has no closing boundary")
      ensures |buffer| <= Max(old(|buffer|), |delimiter| + 3 + LargestChunk(source))
    {
      hide Delivered, Cut, LargestChunk, Occurs, TerminatorAt, FirstTerminator;
      NoTerminatorBuffered();
      var more := Fill();
      if more.Err? {
        return Err(more.error);
      }
      if !more.value {
        var error := Fail("multipart part has no closing boundary");
        return Err(error);
      }
      r := Ok(());
    }

    /** The scan of what is buffered, and what it says of the body. */
    method ScanBuffer() returns (scan: Scan)
      requires Valid() && state == InPart
      ensures pulled <= |source| && cursor <= |buffer|
      ensures scan.Terminator? ==>
                && cursor + scan.at + |delimiter| + 4 <= |buffer|
                && FirstTerminator(Body(), delimiter, Position()) == Some(Position() + scan.at)
                && FirstTerminator(Body(), delimiter, Position() + scan.at) == Some(Position() + scan.at)
                && AfterDelimiter(Body(), Position() + scan.at + 2 + |delimiter|).Some?
                && CutsBelow(Position() + scan.at + |delimiter| + 4)
      ensures scan.Data? ==>
                && scan.safe <= |buffer| - cursor < scan.safe + |delimiter| + 4
                && FirstTerminator(buffer[cursor..], delimiter, 0).None?
                && FirstTerminator(Body(), delimiter, Position()) == FirstTerminator(Body(), delimiter, Position() + scan.safe)
    {
      hide Delivered, Cut, LargestChunk, Occurs, FirstTerminator, TerminatorAt, AfterDelimiter, Refuted;
      hide Consistent, TerminatorsAhead, CutsBehind, Synced, CutsBelow;
      BufferFacts();
      scan := ScanMultipartTerminator(buffer[cursor..], delimiter);
      ScanOfWindow(Body(), buffer[cursor..], Position(), delimiter, scan);
      match scan
      case Terminator(offset) => TerminatorFound(offset);
      case Data(safe) => TerminatorsSkipped(Body(), delimiter, Position(), Position() + safe);
    }

    /**
     `advance_part`: the next run of part data as a range of `buffer`, or `None` at the part's
     terminator. Whenever it has to pull, fewer than the delimiter plus four bytes are retained.
     */
    method AdvancePart() returns (r: Result<Option<(nat, nat)>, MultipartError>)
      requires Valid()
      modifies this
      ensures Valid() && parts == old(parts)
      ensures old(state) != InPart ==> r == Ok(None) && state == old(state) && Position() == old(Position())
      ensures old(state) == InPart && r.Err? ==>
                && state == Failed && FirstTerminator(Body(), delimiter, old(Position())).None?
                && r.error == Starved(source, "multipart part has no closing boundary")
      ensures old(state) == InPart && r.Ok? && r.value.Some? ==>
                var (start, end) := r.value.value;
                && state == InPart && start < end <= |buffer|
                && Position() == old(Position()) + (end - start) <= |Body()|
                && buffer[start..end] == Body()[old(Position())..Position()]
                && FirstTerminator(Body(), delimiter, old(Position())) == FirstTerminator(Body(), delimiter, Position())
      ensures old(state) == InPart && r == Ok(None) ==>
                && FirstTerminator(Body(), delimiter, old(Position())) == Some(old(Position()))
                && Position() == old(Position()) + |delimiter| + 4
                && Announced()
      ensures |buffer| <= Max(old(|buffer|), |delimiter| + 3 + LargestChunk(source))
    {
      hide Delivered, Cut, LargestChunk, Occurs, FirstTerminator, TerminatorAt, AfterDelimiter, Refuted, Starved;
      hide Consistent, TerminatorsAhead, CutsBehind, Synced, CutsBelow, Announced;
      if state != InPart {
        return Ok(None);
      }
      ghost var at := Position();
      while true
        invariant Valid() && state == InPart && parts == old(parts) && Position() == at
        invariant |buffer| <= Max(old(|buffer|), |delimiter| + 3 + LargestChunk(source))
        decreases |incoming|
      {
        var scan := ScanBuffer();
        match scan
        case Terminator(offset) =>
          if offset > 0 {
            var range := HandOut(offset);
            return Ok(Some(range));
          }
          var closed := CloseSection();
          return Ok(None);
        case Data(safe) =>
          if safe > 0 {
            var range := HandOut(safe);
            return Ok(Some(range));
          }
          var more := PullPart();
          if more.Err? {
            return Err(more.error);
          }
      }
    }

    lemma BufferFacts()
      requires Valid() && state == InPart
      ensures ValidDelimiter(delimiter) && cursor <= |buffer| && pulled <= |source|
      ensures Synced() && TerminatorsAhead()
      ensures Occurs(Body(), buffer[cursor..], Position())
    {
      SuffixOfWindow(Body(), buffer, origin, cursor);
    }

    /** A terminator found in the buffer is the body's next one, and no earlier boundary had all of it. */
    lemma TerminatorFound(offset: nat)
      requires Synced() && cursor <= |buffer| && TerminatorsAhead()
      requires FirstTerminator(buffer[cursor..], delimiter, 0) == Some(offset)
      requires FirstTerminator(Body(), delimiter, Position()) == Some(Position() + offset)
      ensures cursor + offset + |delimiter| + 4 <= |buffer|
      ensures FirstTerminator(Body(), delimiter, Position() + offset) == Some(Position() + offset)
      ensures AfterDelimiter(Body(), Position() + offset + 2 + |delimiter|).Some?
      ensures CutsBelow(Position() + offset + |delimiter| + 4)
    {
      assert TerminatorAt(buffer[cursor..], delimiter, offset);
      assert TerminatorAt(Body(), delimiter, Position() + offset);
    }

    /** When the whole buffer was scanned in vain, the next terminator ends past it. */
    lemma NoTerminatorBuffered()
      requires Synced() && cursor <= |buffer|
      requires FirstTerminator(buffer[cursor..], delimiter, 0).None?
      ensures forall i: nat | Position() <= i && TerminatorAt(Body(), delimiter, i) :: i + |delimiter| + 4 > BufferEnd()
      ensures BufferEnd() == |Body()| ==> FirstTerminator(Body(), delimiter, Position()).None?
    {
      var window := buffer[cursor..];
      SuffixOfWindow(Body(), buffer, origin, cursor);
      forall i: nat | Position() <= i && i + |delimiter| + 4 <= BufferEnd()
        ensures !TerminatorAt(Body(), delimiter, i)
      {
        TerminatorInWindow(Body(), window, Position(), delimiter, i - Position());
      }
    }

    /** What the rest of the body announces from the current state. */
    ghost function Upcoming(): Option<Next>
      reads this
    {
      match state
      case Opening => if Occurs(Body(), delimiter, 0) then AfterDelimiter(Body(), |delimiter|) else None
      case Headers => Some(HeadersAt(Position()))
      case InPart =>
        (match FirstTerminator(Body(), delimiter, Position())
         case None => None
         case Some(terminator) => AfterDelimiter(Body(), terminator + 2 + |delimiter|))
      case Done => Some(Closed(Position()))
      case Failed => None
    }

    /** `skip_part`: consumes whatever is left of the current part. */
    method SkipPart() returns (r: Result<(), MultipartError>)
      requires Valid() && state == InPart
      modifies this
      ensures Valid() && parts == old(parts)
      ensures r.Ok? <==> old(Upcoming()).Some?
      ensures r.Ok? ==> (state == Headers || state == Done) && Upcoming() == old(Upcoming())
      ensures r.Err? ==> state == Failed && r.error == Starved(source, "multipart part has no closing boundary")
    {
      hide Delivered, Cut, LargestChunk, Occurs, FirstTerminator, TerminatorAt, AfterDelimiter;
      hide Consistent, TerminatorsAhead, CutsBehind;
      while true
        invariant Valid() && state == InPart && parts == old(parts)
        invariant Upcoming() == old(Upcoming())
        decreases |Body()| - Position()
      {
        var run := AdvancePart();
        if run.Err? {
          return Err(run.error);
        }
        if run.value.None? {
          return Ok(());
        }
      }
    }

    /** Counts the part whose headers were just read and starts handing out its data. */
    method BeginPart()
      requires Consistent() && state == Headers && parts < MAX_PARTS && CutsBehind()
      modifies this`parts, this`state
      ensures Valid() && state == InPart && parts == old(parts) + 1
    {
      hide Delivered, Cut, LargestChunk, Occurs, TerminatorAt;
      parts := parts + 1;
      state := InPart;
    }

    /**
     `next_field`: skips to the next part and reads its headers; `None` once the document is closed.
     */
    method NextField() returns (r: Result<Option<PartHeaders>, MultipartError>)
      requires Valid()
      modifies this
      ensures Valid()
      ensures r == Ok(None) <==> old(Upcoming()).Some? && old(Upcoming()).value.Closed?
      ensures r == Ok(None) ==> state == Done && parts == old(parts)
      ensures r.Ok? && r.value.Some? <==>
                && old(Upcoming()).Some? && old(Upcoming()).value.HeadersAt? && old(parts) < MAX_PARTS
                && var at := old(Upcoming()).value.at;
                   var block := HeaderBlock(Body(), read, at);
                   block.Some? && BlockFits(source, at, block.value.end)
      ensures r.Ok? && r.value.Some? ==> state == InPart && parts == old(parts) + 1
      ensures r.Ok? && r.value.Some? ==> Position() >= 4
      ensures r.Ok? && r.value.Some? ==>
                HeaderBlock(Body(), read, old(Upcoming()).value.at) == Some(Block(r.value.value, Position() - 4))
      ensures r.Err? ==> state == Failed
      ensures r.Err? ==> FieldFault(source, delimiter, read, old(state), old(Upcoming()), old(parts), r.error)
    {
      hide Delivered, Cut, LargestChunk, Occurs, FirstTerminator, TerminatorAt, AfterDelimiter, HeaderBlock, BlockFits;
      hide Synced, CutsBehind, TerminatorsAhead, Starved, OpeningFault, HeaderFault, Interrupted;
      match state {
        case Failed =>
          return Err(Malformed("multipart body already failed to parse"));
        case Done =>
          return Ok(None);
        case Opening =>
          var begun := ReadOpening();
          if begun.Err? {
            return Err(begun.error);
          }
        case InPart =>
          var skipped := SkipPart();
          if skipped.Err? {
            return Err(skipped.error);
          }
        case Headers =>
      }
      if state == Done {
        return Ok(None);
      }
      var headers := ReadHeaders();
      if headers.Err? {
        return Err(headers.error);
      }
      if parts + 1 > MAX_PARTS {
        parts := parts + 1;
        var error := Fail("multipart body contains too many parts");
        return Err(error);
      }
      BeginPart();
      r := Ok(Some(headers.value));
    }

    /** `next_chunk`: the next run of the current part's data, `None` at its end. */
    method NextChunk() returns (r: Result<Option<bytes>, MultipartError>)
      requires Valid()
      modifies this
      ensures Valid() && parts == old(parts)
      ensures old(state) != InPart ==> r == Ok(None) && state == old(state) && Position() == old(Position())
      ensures old(state) == InPart && r.Err? ==>
                && state == Failed && old(Upcoming()).None?
                && r.error == Starved(source, "multipart part has no closing boundary")
                && FirstTerminator(Body(), delimiter, old(Position())).None?
      ensures old(state) == InPart && r.Ok? && r.value.Some? ==>
                && state == InPart && Upcoming() == old(Upcoming())
                && old(Position()) < Position() <= |Body()|
                && r.value.value == Body()[old(Position())..Position()]
                && FirstTerminator(Body(), delimiter, old(Position())) == FirstTerminator(Body(), delimiter, Position())
      ensures old(state) == InPart && r == Ok(None) ==>
                && FirstTerminator(Body(), delimiter, old(Position())) == Some(old(Position()))
                && (state == Headers || state == Done) && Upcoming() == old(Upcoming())
      ensures |buffer| <= Max(old(|buffer|), |delimiter| + 3 + LargestChunk(source))
    {
      hide Delivered, Cut, LargestChunk, Occurs, FirstTerminator, TerminatorAt, AfterDelimiter;
      hide Consistent, TerminatorsAhead, CutsBehind;
      var run := AdvancePart();
      if run.Err? {
        return Err(run.error);
      }
      if run.value.None? {
        return Ok(None);
      }
      var (start, end) := run.value.value;
      r := Ok(Some(buffer[start..end]));
    }

    /** The data left in the current part, when the part is closed. */
    ghost function RestOfPart(): Option<bytes>
      reads this
      requires Position() <= |Body()|
    {
      match FirstTerminator(Body(), delimiter, Position())
      case None => None
      case Some(terminator) => Some(Body()[Position()..terminator])
    }

    /** `collect`: the rest of the part in memory, up to `limit` bytes. */
    method Collect(limit: nat) returns (r: Result<bytes, MultipartError>)
      requires Valid() && state == InPart && Position() <= |Body()|
      modifies this
      ensures Valid() && parts == old(parts)
      ensures r.Ok? <==> old(RestOfPart()).Some? && |old(RestOfPart()).value| <= limit
      ensures r.Ok? ==> r.value == old(RestOfPart()).value
      ensures r.Ok? ==> (state == Headers || state == Done) && Upcoming() == old(Upcoming())
      ensures old(RestOfPart()).Some? && |old(RestOfPart()).value| > limit ==> r == Err(TooLarge(limit))
      ensures r.Err? && r != Err(TooLarge(limit)) ==>
                && state == Failed && old(RestOfPart()).None?
                && r.error == Starved(source, "multipart part has no closing boundary")
    {
      hide Delivered, Cut, LargestChunk, Occurs, FirstTerminator, TerminatorAt, AfterDelimiter;
      hide Consistent, TerminatorsAhead, CutsBehind;
      var data := [];
      ghost var at := Position();
      while true
        invariant Valid() && state == InPart && parts == old(parts)
        invariant at <= Position() <= |Body()| && data == Body()[at..Position()] && |data| <= limit
        invariant Upcoming() == old(Upcoming())
        invariant FirstTerminator(Body(), delimiter, Position()) == FirstTerminator(Body(), delimiter, at)
        decreases |Body()| - Position()
      {
        var chunk := NextChunk();
        if chunk.Err? {
          return Err(chunk.error);
        }
        if chunk.value.None? {
          return Ok(data);
        }
        assert |data| + |chunk.value.value| == Position() - at;
        if |data| + |chunk.value.value| > limit {
          return Err(TooLarge(limit));
        }
        data := data + chunk.value.value;
      }
    }
  }

  /** A chunk boundary that a header block from `at` on survives, and that does not contain it. */
  ghost predicate HeaderCut(d: bytes, at: nat, cut: nat) {
    && cut <= at + MAX_HEADER_BYTES
    && (Find(d, BLANK_LINE, at).Some? ==> Find(d, BLANK_LINE, at).value + 4 > cut)
  }

  lemma CutStart(items: seq<Item>)
    ensures Cut(items, 0) == 0
  {
    assert items[..0] == [];
  }

  lemma OpeningCutShort(items: seq<Item>, delimiter: bytes)
    requires |Delivered(items)| < |delimiter|
    ensures !Occurs(Delivered(items), delimiter, 0)
    ensures OpeningFault(items, delimiter)
            == if Interrupted(items) then TransportFailed
               else Malformed("multipart body does not start with its declared boundary")
  {
    hide Delivered, Interrupted;
  }

  /** A search that skipped only positions whose occurrence would end past `at + skipped + 3` missed nothing. */
  lemma FindSkips(d: bytes, needle: bytes, at: nat, skipped: nat)
    requires |needle| == 4
    requires Find(d, needle, at).Some? ==> Find(d, needle, at).value >= at + skipped
    ensures Find(d, needle, at) == Find(d, needle, at + skipped)
  {
    FindFrom(d, needle, at, at + skipped);
  }

  lemma SuffixOfWindow(whole: bytes, window: bytes, from: nat, dropped: nat)
    requires dropped <= |window| && Occurs(whole, window, from)
    ensures Occurs(whole, window[dropped..], from + dropped)
  {
    WindowGrows(whole, window, from, dropped, []);
    assert window[dropped..] + [] == window[dropped..];
  }

  lemma SliceOfWindow(whole: bytes, window: bytes, from: nat, start: nat, end: nat)
    requires Occurs(whole, window, from) && start <= end <= |window|
    ensures from + end <= |whole| && window[start..end] == whole[from + start..from + end]
  {
    forall i | start <= i < end ensures window[i] == whole[from + i] {
    }
  }

  lemma TerminatorsSkipped(d: bytes, delimiter: bytes, from: nat, next: nat)
    requires from <= next
    requires forall i: nat | from <= i < next :: !TerminatorAt(d, delimiter, i)
    ensures FirstTerminator(d, delimiter, from) == FirstTerminator(d, delimiter, next)
  {
    var early, late := FirstTerminator(d, delimiter, from), FirstTerminator(d, delimiter, next);
    assert early.Some? && late.Some? ==> !(early.value < late.value) && !(late.value < early.value);
  }

  lemma ByteOfWindow(whole: bytes, window: bytes, from: nat, at: nat)
    requires Occurs(whole, window, from) && at < |window|
    ensures from + at < |whole| && whole[from + at] == window[at]
  {
  }

  /** Dropping a prefix of a window and appending the chunk that follows it gives a window. */
  lemma WindowGrows(whole: bytes, window: bytes, from: nat, dropped: nat, chunk: bytes)
    requires dropped <= |window| && Occurs(whole, window, from)
    requires Occurs(whole, chunk, from + |window|)
    ensures Occurs(whole, window[dropped..] + chunk, from + dropped)
  {
    var grown := window[dropped..] + chunk;
    forall i | 0 <= i < |grown| ensures grown[i] == whole[from + dropped + i] {
      if i < |window| - dropped {
        assert grown[i] == window[dropped + i];
        assert window[dropped + i] == whole[from + (dropped + i)];
      } else {
        assert grown[i] == chunk[i - (|window| - dropped)];
      }
    }
  }
}
