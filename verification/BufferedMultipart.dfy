/** The whole-body reader: `parse_multipart` and `find_multipart_boundary` in blazingly-executor. */
module BufferedMultipart {
  import opened Wrappers
  import opened Bytes
  import opened MultipartGrammar

  /** A terminator starts with a line break and the delimiter's two dashes. */
  lemma TerminatorIsCandidate(d: bytes, delimiter: bytes, at: nat)
    requires ValidDelimiter(delimiter)
    ensures TerminatorAt(d, delimiter, at) ==> Occurs(d, CRLF_DASHES, at)
  {
    if TerminatorAt(d, delimiter, at) {
      assert delimiter[0] == d[at + 2 + 0] && delimiter[1] == d[at + 2 + 1];
    }
  }

  /** `find_multipart_boundary`. */
  method FindMultipartBoundary(body: bytes, delimiter: bytes, from: nat) returns (r: Option<nat>)
    requires ValidDelimiter(delimiter)
    ensures r == FirstTerminator(body, delimiter, from)
  {
    var position := from;
    while true
      invariant from <= position
      invariant forall j: nat | from <= j < position :: !TerminatorAt(body, delimiter, j)
      decreases |body| - position
    {
      forall j: nat ensures TerminatorAt(body, delimiter, j) ==> Occurs(body, CRLF_DASHES, j) {
        TerminatorIsCandidate(body, delimiter, j);
      }
      var found := FindBytes(body, CRLF_DASHES, position);
      if found.None? {
        return None;
      }
      assert CRLF_DASHES[0] == body[found.value + 0] && CRLF_DASHES[1] == body[found.value + 1];
      assert body[found.value] == CR && body[found.value + 1] == LF;
      var delimiterStart := found.value + 2;
      if Occurs(body, delimiter, delimiterStart) {
        var suffix := delimiterStart + |delimiter|;
        SuffixOccurs(body, suffix);
        if Occurs(body, CRLF, suffix) || Occurs(body, DASHES, suffix) {
          assert TerminatorAt(body, delimiter, found.value);
          return found;
        }
      }
      position := found.value + 2;
    }
  }

  lemma SuffixOccurs(d: bytes, at: nat)
    ensures Occurs(d, DASHES, at) <==> AfterDelimiter(d, at) == Some(Closed(at + 2))
    ensures Occurs(d, CRLF, at) <==> AfterDelimiter(d, at) == Some(HeadersAt(at + 2))
  {
    assert at + 2 <= |d| ==> d[at] == d[at + 0];
    assert DASHES[0] == DASH && DASHES[1] == DASH && CRLF[0] == CR && CRLF[1] == LF;
  }

  /** Why the part whose header block starts at `at` cannot be read. */
  predicate PartFault(d: bytes, delimiter: bytes, read: HeaderReader, at: nat, fault: string) {
    match Find(d, BLANK_LINE, at)
    case None => fault == "multipart part headers are incomplete"
    case Some(end) =>
      if end - at > MAX_HEADER_BYTES then fault == "multipart part headers exceed the configured limit"
      else
        match read(d[at..end])
        case Err(reason) => fault == reason
        case Ok(_) =>
          && FirstTerminator(d, delimiter, end + 4).None?
          && fault == "multipart part has no closing boundary"
  }

  /** Why a body is not a document: its opening, or the part after `n` complete ones. */
  ghost predicate BodyFault(d: bytes, delimiter: bytes, read: HeaderReader, fault: string) {
    if !Occurs(d, delimiter, 0) then fault == "multipart body does not start with its declared boundary"
    else if AfterDelimiter(d, |delimiter|).None? then fault == "multipart boundary is malformed"
    else
      exists n: nat | n <= MAX_PARTS && BlockStart(d, delimiter, read, n).Some? ::
        var at := BlockStart(d, delimiter, read, n).value;
        if SectionAt(d, delimiter, read, at).None? then PartFault(d, delimiter, read, at, fault)
        else n == MAX_PARTS && fault == "multipart body contains too many parts"
  }

  /** The first half of `parse_multipart`'s loop body: one part and where its data ends. */
  method ReadPart(body: bytes, delimiter: bytes, read: HeaderReader, position: nat)
    returns (r: Result<(Part, nat), string>)
    requires ValidDelimiter(delimiter)
    ensures r.Ok? <==> SectionAt(body, delimiter, read, position).Some?
    ensures r.Ok? ==>
              var section := SectionAt(body, delimiter, read, position).value;
              && section.part == r.value.0
              && Some(section.next) == AfterDelimiter(body, r.value.1 + 2 + |delimiter|)
              && position <= r.value.1
    ensures r.Err? ==> PartFault(body, delimiter, read, position, r.error)
  {
    var headerEnd := FindBytes(body, BLANK_LINE, position);
    if headerEnd.None? {
      return Err("multipart part headers are incomplete");
    }
    if headerEnd.value - position > MAX_HEADER_BYTES {
      return Err("multipart part headers exceed the configured limit");
    }
    var headers := read(body[position..headerEnd.value]);
    if headers.Err? {
      return Err(headers.error);
    }
    var dataStart := headerEnd.value + 4;
    var boundaryStart := FindMultipartBoundary(body, delimiter, dataStart);
    if boundaryStart.None? {
      return Err("multipart part has no closing boundary");
    }
    r := Ok((Part(headers.value, body[dataStart..boundaryStart.value]), boundaryStart.value));
  }

  /** `parse_multipart`: one pass over a body held in memory. */
  method ParseMultipart(body: bytes, delimiter: bytes, read: HeaderReader) returns (r: Result<seq<Part>, string>)
    requires ValidDelimiter(delimiter)
    ensures r.Ok? <==> Parse(body, delimiter, read).Some?
    ensures r.Ok? ==> r.value == Parse(body, delimiter, read).value.parts
    ensures r.Err? ==> BodyFault(body, delimiter, read, r.error)
  {
    hide SectionAt, Parts, Resume;
    if !Occurs(body, delimiter, 0) {
      return Err("multipart body does not start with its declared boundary");
    }
    var position := |delimiter|;
    SuffixOccurs(body, position);
    if Occurs(body, DASHES, position) {
      return Ok([]);
    }
    if !Occurs(body, CRLF, position) {
      return Err("multipart boundary is malformed");
    }
    position := position + 2;

    var parts := [];
    ResumeAppends([], [], Parts(body, delimiter, read, position, MAX_PARTS));
    while true
      invariant |parts| <= MAX_PARTS && position <= |body|
      invariant Parse(body, delimiter, read)
             == Resume(parts, Parts(body, delimiter, read, position, MAX_PARTS - |parts|))
      invariant BlockStart(body, delimiter, read, |parts|) == Some(position)
      decreases |body| - position
    {
      PartsUnfold(body, delimiter, read, position, MAX_PARTS - |parts|, parts);
      var part := ReadPart(body, delimiter, read, position);
      if part.Err? {
        return Err(part.error);
      }
      parts := parts + [part.value.0];
      if |parts| > MAX_PARTS {
        return Err("multipart body contains too many parts");
      }

      position := part.value.1 + 2 + |delimiter|;
      SuffixOccurs(body, position);
      if Occurs(body, DASHES, position) {
        return Ok(parts);
      }
      if !Occurs(body, CRLF, position) {
        return Err("multipart boundary is malformed");
      }
      position := position + 2;
    }
  }
}
