/**
 What a `multipart/form-data` document is, independently of how it is read: section 5.1.1 of
 RFC 2046 and section 4 of RFC 7578, as strict as the repository is (no preamble, no padding
 after a boundary, bounded header blocks, a bounded number of parts).
 */
module MultipartGrammar {
  import opened Wrappers
  import opened Bytes
  import opened HeaderSyntax

  const MAX_HEADER_BYTES: nat := 16 * 1024
  const MAX_PARTS: nat := 256

  /**
   How a header block is read. Both readers are given the same function, and nothing about
   the framing depends on which one.
   */
  type HeaderReader = bytes -> Result<PartHeaders, string>

  datatype Part = Part(headers: PartHeaders, data: bytes)

  /** The parts of a document and the offset just past its closing delimiter. */
  datatype Document = Document(parts: seq<Part>, end: nat)

  /** `--` and a boundary; the bound is the 70 characters a boundary may have. */
  predicate ValidDelimiter(delimiter: bytes) {
    2 <= |delimiter| <= 72 && delimiter[0] == DASH && delimiter[1] == DASH
  }

  // ----- delimiters -----

  datatype Next = Closed(at: nat) | HeadersAt(at: nat)

  /** What the two bytes after a delimiter announce. */
  function AfterDelimiter(d: bytes, at: nat): (r: Option<Next>)
    ensures r.Some? ==> r.value.at == at + 2 <= |d|
  {
    if at + 2 > |d| then None
    else if d[at] == DASH && d[at + 1] == DASH then Some(Closed(at + 2))
    else if d[at] == CR && d[at + 1] == LF then Some(HeadersAt(at + 2))
    else None
  }

  /** A line break, a delimiter, and a suffix that makes the delimiter count. */
  predicate TerminatorAt(d: bytes, delimiter: bytes, at: nat) {
    && at + 2 <= |d| && d[at] == CR && d[at + 1] == LF
    && Occurs(d, delimiter, at + 2)
    && AfterDelimiter(d, at + 2 + |delimiter|).Some?
  }

  /** The least position at or after `from` where part data ends. */
  function FirstTerminator(d: bytes, delimiter: bytes, from: nat): (r: Option<nat>)
    ensures r.Some? ==> from <= r.value < |d| && TerminatorAt(d, delimiter, r.value)
    ensures r.Some? ==> forall j | from <= j < r.value :: !TerminatorAt(d, delimiter, j)
    ensures r.None? ==> forall j | from <= j :: !TerminatorAt(d, delimiter, j)
    decreases |d| - from
  {
    if from >= |d| then None
    else if TerminatorAt(d, delimiter, from) then Some(from)
    else FirstTerminator(d, delimiter, from + 1)
  }

  // ----- parts -----

  datatype Block = Block(headers: PartHeaders, end: nat)

  /** The header block that starts at `at`: its headers and where the blank line begins. */
  function HeaderBlock(d: bytes, read: HeaderReader, at: nat): (r: Option<Block>)
    ensures r.Some? ==> at <= r.value.end <= at + MAX_HEADER_BYTES && r.value.end + 4 <= |d|
    ensures r.Some? ==> Find(d, BLANK_LINE, at) == Some(r.value.end)
  {
    match Find(d, BLANK_LINE, at)
    case None => None
    case Some(end) =>
      if end - at > MAX_HEADER_BYTES then None
      else
        match read(d[at..end])
        case Err(_) => None
        case Ok(headers) => Some(Block(headers, end))
  }

  /** One part, and what follows it. */
  datatype Section = Section(part: Part, next: Next)

  function SectionAt(d: bytes, delimiter: bytes, read: HeaderReader, at: nat): (r: Option<Section>)
    ensures r.Some? ==> at < r.value.next.at <= |d|
  {
    match HeaderBlock(d, read, at)
    case None => None
    case Some(block) =>
      match FirstTerminator(d, delimiter, block.end + 4)
      case None => None
      case Some(terminator) =>
        Some(Section(Part(block.headers, d[block.end + 4..terminator]),
                     AfterDelimiter(d, terminator + 2 + |delimiter|).value))
  }

  /** A section is a header block, data up to the next terminator, and that terminator's suffix. */
  lemma SectionFields(d: bytes, delimiter: bytes, read: HeaderReader, at: nat)
    ensures SectionAt(d, delimiter, read, at)
         == match HeaderBlock(d, read, at)
            case None => None
            case Some(block) =>
              match FirstTerminator(d, delimiter, block.end + 4)
              case None => None
              case Some(terminator) =>
                Some(Section(Part(block.headers, d[block.end + 4..terminator]),
                             AfterDelimiter(d, terminator + 2 + |delimiter|).value))
  {
    hide HeaderBlock, AfterDelimiter;
  }

  lemma TerminatorAnnounces(d: bytes, delimiter: bytes, from: nat)
    ensures var found := FirstTerminator(d, delimiter, from);
            found.Some? ==> AfterDelimiter(d, found.value + 2 + |delimiter|).Some?
  {
  }

  /** `parts` already read, followed by what `rest` holds. */
  function Resume(parts: seq<Part>, rest: Option<Document>): Option<Document> {
    match rest
    case None => None
    case Some(document) => Some(Document(parts + document.parts, document.end))
  }

  lemma ResumeAppends(a: seq<Part>, b: seq<Part>, rest: Option<Document>)
    ensures Resume(a, Resume(b, rest)) == Resume(a + b, rest)
    ensures Resume([], rest) == rest
  {
    if rest.Some? {
      assert a + (b + rest.value.parts) == (a + b) + rest.value.parts;
      assert [] + rest.value.parts == rest.value.parts;
    }
  }

  /** The parts from the header block at `at` on, at most `room` of them. */
  function Parts(d: bytes, delimiter: bytes, read: HeaderReader, at: nat, room: nat): (r: Option<Document>)
    ensures r.Some? ==> at < r.value.end <= |d| && 1 <= |r.value.parts| <= room
    decreases room
  {
    if room == 0 then None
    else
      match SectionAt(d, delimiter, read, at)
      case None => None
      case Some(Section(part, Closed(end))) => Some(Document([part], end))
      case Some(Section(part, HeadersAt(next))) => Resume([part], Parts(d, delimiter, read, next, room - 1))
  }

  /** A whole body; bytes after the closing delimiter are ignored. */
  function Parse(d: bytes, delimiter: bytes, read: HeaderReader): (r: Option<Document>)
    ensures r.Some? ==> r.value.end <= |d| && |r.value.parts| <= MAX_PARTS
  {
    if !Occurs(d, delimiter, 0) then None
    else
      match AfterDelimiter(d, |delimiter|)
      case None => None
      case Some(Closed(end)) => Some(Document([], end))
      case Some(HeadersAt(next)) => Parts(d, delimiter, read, next, MAX_PARTS)
  }

  /** The offset of the first header block, when the body opens with its delimiter and has one. */
  function FirstHeaders(d: bytes, delimiter: bytes): Option<nat> {
    if !Occurs(d, delimiter, 0) then None
    else
      match AfterDelimiter(d, |delimiter|)
      case Some(HeadersAt(at)) => Some(at)
      case _ => None
  }

  /** Where the header block of part `n` starts, when the parts before it are complete. */
  function BlockStart(d: bytes, delimiter: bytes, read: HeaderReader, n: nat): Option<nat> {
    if n == 0 then FirstHeaders(d, delimiter)
    else
      match BlockStart(d, delimiter, read, n - 1)
      case None => None
      case Some(at) =>
        match SectionAt(d, delimiter, read, at)
        case Some(Section(_, HeadersAt(next))) => Some(next)
        case _ => None
  }

  /** One step of reading parts, in front of the parts already read. */
  lemma PartsUnfold(d: bytes, delimiter: bytes, read: HeaderReader, at: nat, room: nat, done: seq<Part>)
    ensures Resume(done, Parts(d, delimiter, read, at, room))
         == match SectionAt(d, delimiter, read, at)
            case None => None
            case Some(Section(part, next)) =>
              if room == 0 then None
              else if next.Closed? then Some(Document(done + [part], next.at))
              else Resume(done + [part], Parts(d, delimiter, read, next.at, room - 1))
  {
    var section := SectionAt(d, delimiter, read, at);
    if room > 0 && section.Some? && section.value.next.HeadersAt? {
      ResumeAppends(done, [section.value.part], Parts(d, delimiter, read, section.value.next.at, room - 1));
    }
  }

  // ----- locality: a reader that has seen enough bytes cannot be wrong -----

  /** `d` and `e` agree on their first `n` bytes. */
  predicate Agree(d: bytes, e: bytes, n: nat) {
    n <= |d| && n <= |e| && forall i | 0 <= i < n :: d[i] == e[i]
  }

  lemma OccursLocal(d: bytes, e: bytes, n: nat, needle: bytes, at: nat)
    requires Agree(d, e, n) && at + |needle| <= n
    ensures Occurs(d, needle, at) == Occurs(e, needle, at)
  {
  }

  lemma AfterDelimiterLocal(d: bytes, e: bytes, n: nat, at: nat)
    requires Agree(d, e, n) && at + 2 <= n
    ensures AfterDelimiter(d, at) == AfterDelimiter(e, at)
  {
  }

  lemma TerminatorLocal(d: bytes, e: bytes, n: nat, delimiter: bytes, at: nat)
    requires Agree(d, e, n) && at + |delimiter| + 4 <= n
    ensures TerminatorAt(d, delimiter, at) == TerminatorAt(e, delimiter, at)
  {
    OccursLocal(d, e, n, delimiter, at + 2);
    AfterDelimiterLocal(d, e, n, at + 2 + |delimiter|);
  }

  lemma FindLocal(d: bytes, e: bytes, n: nat, needle: bytes, from: nat)
    requires Agree(d, e, n) && needle != []
    requires Find(d, needle, from).Some? && Find(d, needle, from).value + |needle| <= n
    ensures Find(e, needle, from) == Find(d, needle, from)
  {
    forall j: nat | j + |needle| <= n ensures Occurs(d, needle, j) == Occurs(e, needle, j) {
      OccursLocal(d, e, n, needle, j);
    }
  }

  lemma FirstTerminatorLocal(d: bytes, e: bytes, n: nat, delimiter: bytes, from: nat)
    requires Agree(d, e, n)
    requires FirstTerminator(d, delimiter, from).Some?
    requires FirstTerminator(d, delimiter, from).value + |delimiter| + 4 <= n
    ensures FirstTerminator(e, delimiter, from) == FirstTerminator(d, delimiter, from)
  {
    forall j: nat | j + |delimiter| + 4 <= n
      ensures TerminatorAt(d, delimiter, j) == TerminatorAt(e, delimiter, j)
    {
      TerminatorLocal(d, e, n, delimiter, j);
    }
  }

  lemma SliceLocal(d: bytes, e: bytes, n: nat, from: nat, to: nat)
    requires Agree(d, e, n) && from <= to <= n
    ensures d[from..to] == e[from..to]
  {
  }

  lemma HeaderBlockLocal(d: bytes, e: bytes, n: nat, read: HeaderReader, at: nat)
    requires HeaderBlock(d, read, at).Some? && Agree(d, e, n) && HeaderBlock(d, read, at).value.end + 4 <= n
    ensures HeaderBlock(e, read, at) == HeaderBlock(d, read, at)
  {
    FindLocal(d, e, n, BLANK_LINE, at);
    SliceLocal(d, e, n, at, HeaderBlock(d, read, at).value.end);
  }

  lemma SectionLocal(d: bytes, e: bytes, n: nat, delimiter: bytes, read: HeaderReader, at: nat)
    requires SectionAt(d, delimiter, read, at).Some?
    requires Agree(d, e, n) && SectionAt(d, delimiter, read, at).value.next.at <= n
    ensures SectionAt(e, delimiter, read, at) == SectionAt(d, delimiter, read, at)
  {
    SectionFields(d, delimiter, read, at);
    SectionFields(e, delimiter, read, at);
    hide SectionAt, HeaderBlock, FirstTerminator, AfterDelimiter, TerminatorAt, Agree;
    var block := HeaderBlock(d, read, at).value;
    var terminator := FirstTerminator(d, delimiter, block.end + 4).value;
    assert AfterDelimiter(d, terminator + 2 + |delimiter|).Some? by {
      TerminatorAnnounces(d, delimiter, block.end + 4);
    }
    HeaderBlockLocal(d, e, n, read, at);
    FirstTerminatorLocal(d, e, n, delimiter, block.end + 4);
    AfterDelimiterLocal(d, e, n, terminator + 2 + |delimiter|);
    SliceLocal(d, e, n, block.end + 4, terminator);
  }

  lemma {:induction false} PartsLocal(d: bytes, e: bytes, delimiter: bytes, read: HeaderReader, at: nat, room: nat)
    requires Parts(d, delimiter, read, at, room).Some?
    requires Agree(d, e, Parts(d, delimiter, read, at, room).value.end)
    ensures Parts(e, delimiter, read, at, room) == Parts(d, delimiter, read, at, room)
    decreases room
  {
    hide SectionAt;
    var n := Parts(d, delimiter, read, at, room).value.end;
    SectionLocal(d, e, n, delimiter, read, at);
    var next := SectionAt(d, delimiter, read, at).value.next;
    if next.HeadersAt? {
      PartsLocal(d, e, delimiter, read, next.at, room - 1);
    }
  }

  /** Only the bytes up to the closing delimiter matter. */
  lemma ParseLocal(d: bytes, e: bytes, delimiter: bytes, read: HeaderReader)
    requires Parse(d, delimiter, read).Some? && Agree(d, e, Parse(d, delimiter, read).value.end)
    ensures Parse(e, delimiter, read) == Parse(d, delimiter, read)
  {
    hide Parts, AfterDelimiter, Occurs;
    var n := Parse(d, delimiter, read).value.end;
    OccursLocal(d, e, n, delimiter, 0);
    AfterDelimiterLocal(d, e, n, |delimiter|);
    var after := AfterDelimiter(d, |delimiter|).value;
    if after.HeadersAt? {
      PartsLocal(d, e, delimiter, read, after.at, MAX_PARTS);
    }
  }

  /** A document cut anywhere before the end of its closing delimiter is not a document. */
  lemma TruncationDetected(d: bytes, delimiter: bytes, read: HeaderReader, n: nat)
    requires Parse(d, delimiter, read).Some? && n < Parse(d, delimiter, read).value.end
    ensures Parse(d[..n], delimiter, read).None?
  {
    var cut := Parse(d[..n], delimiter, read);
    if cut.Some? {
      ParseLocal(d[..n], d, delimiter, read);
    }
  }
}
