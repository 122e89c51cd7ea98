/**
 The bytes of a `multipart/form-data` document, spelled out: which byte strings are documents, and
 with which parts.
 */
module MultipartText {
  import opened Wrappers
  import opened Bytes
  import opened HeaderSyntax
  import opened MultipartGrammar
  import opened MultipartRendering

  /** `block` is read as `headers`: at most 16384 bytes and no empty line before its end. */
  ghost predicate BlockReads(read: HeaderReader, block: bytes, headers: PartHeaders) {
    && |block| <= 16384
    && (forall i: nat | i < |block| :: !Occurs(block + [13, 10, 13, 10], [13, 10, 13, 10], i))
    && read(block) == Ok(headers)
  }

  /** No line in front of the closing one looks like a delimiter line. */
  ghost predicate DataKept(delimiter: bytes, data: bytes, suffix: bytes) {
    var window := data + [13, 10] + delimiter + suffix;
    forall i: nat | i < |data| ::
      && !Occurs(window, [13, 10] + delimiter + [13, 10], i)
      && !Occurs(window, [13, 10] + delimiter + [45, 45], i)
  }

  /** What follows a delimiter: two dashes, or a line break, a part and the next delimiter. */
  function Text(delimiter: bytes, blocks: seq<bytes>, parts: seq<Part>): bytes
    requires |blocks| == |parts|
  {
    if parts == [] then [45, 45]
    else
      [13, 10] + blocks[0] + [13, 10, 13, 10] + parts[0].data
      + [13, 10] + delimiter + Text(delimiter, blocks[1..], parts[1..])
  }

  /** The bytes after the delimiter that follows part `i` of `n`. */
  function Closing(i: nat, n: nat): bytes {
    if i + 1 == n then [45, 45] else [13, 10]
  }

  /** The header blocks say what the parts' headers are, and the parts' data stays data. */
  ghost predicate Spells(delimiter: bytes, read: HeaderReader, blocks: seq<bytes>, parts: seq<Part>) {
    && |blocks| == |parts|
    && forall i | 0 <= i < |parts| ::
         && BlockReads(read, blocks[i], parts[i].headers)
         && DataKept(delimiter, parts[i].data, Closing(i, |parts|))
  }

  /** The document that starts right after a delimiter. */
  function Rest(d: bytes, delimiter: bytes, read: HeaderReader, at: nat, room: nat): Option<Document> {
    match AfterDelimiter(d, at)
    case None => None
    case Some(Closed(end)) => Some(Document([], end))
    case Some(HeadersAt(next)) => Parts(d, delimiter, read, next, room)
  }

  lemma SuffixExactly(d: bytes, at: nat)
    ensures AfterDelimiter(d, at) == Some(Closed(at + 2)) <==> Occurs(d, [45, 45], at)
    ensures AfterDelimiter(d, at) == Some(HeadersAt(at + 2)) <==> Occurs(d, [13, 10], at)
    ensures AfterDelimiter(d, at).Some? ==> AfterDelimiter(d, at).value in {Closed(at + 2), HeadersAt(at + 2)}
  {
    var dashes: bytes, line: bytes := [45, 45], [13, 10];
    if Occurs(d, dashes, at) {
      assert d[at + 0] == dashes[0] && d[at + 1] == dashes[1];
    }
    if Occurs(d, line, at) {
      assert d[at + 0] == line[0] && d[at + 1] == line[1];
    }
  }

  lemma TerminatorExactly(d: bytes, delimiter: bytes, at: nat)
    ensures TerminatorAt(d, delimiter, at)
       <==> Occurs(d, [13, 10] + delimiter + [13, 10], at) || Occurs(d, [13, 10] + delimiter + [45, 45], at)
  {
    hide AfterDelimiter;
    OccursSplit(d, [13, 10] + delimiter, [13, 10], at);
    OccursSplit(d, [13, 10] + delimiter, [45, 45], at);
    OccursSplit(d, [13, 10], delimiter, at);
    SuffixExactly(d, at + 2 + |delimiter|);
    LineBreakAt(d, at);
  }

  lemma LineBreakAt(d: bytes, at: nat)
    ensures Occurs(d, [13, 10], at) <==> at + 2 <= |d| && d[at] == 13 && d[at + 1] == 10
  {
    var line: bytes := [13, 10];
    if Occurs(d, line, at) {
      assert d[at + 0] == line[0] && d[at + 1] == line[1];
    }
  }

  lemma KeptIsSafe(delimiter: bytes, data: bytes, suffix: bytes)
    ensures DataKept(delimiter, data, suffix) <==> SafeData(delimiter, data, suffix)
  {
    hide TerminatorAt, Occurs;
    var window := data + [13, 10] + delimiter + suffix;
    assert window == data + CRLF + delimiter + suffix;
    forall i: nat | i < |data|
      ensures TerminatorAt(window, delimiter, i)
         <==> Occurs(window, [13, 10] + delimiter + [13, 10], i) || Occurs(window, [13, 10] + delimiter + [45, 45], i)
    {
      TerminatorExactly(window, delimiter, i);
    }
  }

  // ----- one part -----

  /** A part at `at` spells its block, its data and the delimiter line that closes it. */
  ghost predicate SectionText(d: bytes, delimiter: bytes, read: HeaderReader, at: nat, block: bytes, section: Section) {
    var data, suffix := section.part.data, if section.next.Closed? then [45, 45] else [13, 10];
    && BlockReads(read, block, section.part.headers) && DataKept(delimiter, data, suffix)
    && Occurs(d, block + [13, 10, 13, 10], at)
    && Occurs(d, data + [13, 10] + delimiter + suffix, at + |block| + 4)
    && section.next.at == at + |block| + 4 + |data| + 2 + |delimiter| + 2
  }

  lemma SectionRead(d: bytes, delimiter: bytes, read: HeaderReader, at: nat, block: bytes, section: Section)
    requires SectionText(d, delimiter, read, at, block, section)
    ensures SectionAt(d, delimiter, read, at) == Some(section)
  {
    var data, suffix: bytes := section.part.data, if section.next.Closed? then [45, 45] else [13, 10];
    KeptIsSafe(delimiter, data, suffix);
    BlockReadBack(d, read, block, section.part.headers, at);
    DataReadBack(d, delimiter, data, suffix, at + |block| + 4);
    SectionFields(d, delimiter, read, at);
  }

  lemma SectionSpelled(d: bytes, delimiter: bytes, read: HeaderReader, at: nat) returns (block: bytes)
    requires SectionAt(d, delimiter, read, at).Some?
    ensures SectionText(d, delimiter, read, at, block, SectionAt(d, delimiter, read, at).value)
  {
    SectionFields(d, delimiter, read, at);
    var section := SectionAt(d, delimiter, read, at).value;
    hide SectionAt;
    var found := HeaderBlock(d, read, at).value;
    block := d[at..found.end];
    BlockSpelled(d, read, at);
    DataSpelled(d, delimiter, found.end + 4);
  }

  lemma BlockSpelled(d: bytes, read: HeaderReader, at: nat)
    requires HeaderBlock(d, read, at).Some?
    ensures var found := HeaderBlock(d, read, at).value; var block := d[at..found.end];
            BlockReads(read, block, found.headers) && Occurs(d, block + [13, 10, 13, 10], at)
  {
    var found := HeaderBlock(d, read, at).value;
    var block := d[at..found.end];
    OccursIsSlice(d, block, at);
    OccursSplit(d, block, BLANK_LINE, at);
    forall i: nat | i < |block| ensures !Occurs(block + [13, 10, 13, 10], [13, 10, 13, 10], i) {
      OccursInWindow(d, block + [13, 10, 13, 10], at, [13, 10, 13, 10], i);
      assert !Occurs(d, BLANK_LINE, at + i);
    }
  }

  lemma DataSpelled(d: bytes, delimiter: bytes, start: nat)
    requires FirstTerminator(d, delimiter, start).Some?
    ensures var end := FirstTerminator(d, delimiter, start).value;
            var data, next := d[start..end], AfterDelimiter(d, end + 2 + |delimiter|);
            && next.Some? && next.value.at == end + 2 + |delimiter| + 2
            && var suffix := if next.value.Closed? then [45, 45] else [13, 10];
               DataKept(delimiter, data, suffix) && Occurs(d, data + [13, 10] + delimiter + suffix, start)
  {
    hide Occurs, DataKept;
    var end := FirstTerminator(d, delimiter, start).value;
    TerminatorAnnounces(d, delimiter, start);
    var data, next := d[start..end], AfterDelimiter(d, end + 2 + |delimiter|).value;
    var suffix: bytes := if next.Closed? then [45, 45] else [13, 10];
    SuffixExactly(d, end + 2 + |delimiter|);
    LineBreakAt(d, end);
    OccursIsSlice(d, data, start);
    OccursSplit(d, data, [13, 10], start);
    OccursSplit(d, data + [13, 10], delimiter, start);
    OccursSplit(d, data + [13, 10] + delimiter, suffix, start);
    DataReadBack(d, delimiter, data, suffix, start);
    KeptIsSafe(delimiter, data, suffix);
  }

  // ----- all parts -----

  lemma SectionThenRest(d: bytes, delimiter: bytes, read: HeaderReader, at: nat, room: nat)
    requires Occurs(d, [13, 10], at) && room > 0
    ensures var section := SectionAt(d, delimiter, read, at + 2);
            if section.None? then Rest(d, delimiter, read, at, room).None?
            else
              && section.value.next.at >= 2
              && AfterDelimiter(d, section.value.next.at - 2) == Some(section.value.next)
              && Rest(d, delimiter, read, at, room)
                 == Resume([section.value.part], Rest(d, delimiter, read, section.value.next.at - 2, room - 1))
  {
    SuffixExactly(d, at);
    var section := SectionAt(d, delimiter, read, at + 2);
    SectionFields(d, delimiter, read, at + 2);
    hide SectionAt, HeaderBlock, FirstTerminator, Occurs;
    if section.Some? {
      var block := HeaderBlock(d, read, at + 2).value;
      TerminatorAnnounces(d, delimiter, block.end + 4);
      assert [section.value.part] + [] == [section.value.part];
    }
  }

  lemma TextFront(delimiter: bytes, blocks: seq<bytes>, parts: seq<Part>)
    requires |blocks| == |parts| > 0
    ensures var rest := Text(delimiter, blocks[1..], parts[1..]);
            && |rest| >= 2
            && Text(delimiter, blocks, parts)
               == [13, 10] + ((blocks[0] + [13, 10, 13, 10]) + ((parts[0].data + [13, 10] + delimiter) + rest))
            && rest == Closing(0, |parts|) + rest[2..]
  {
    var rest := Text(delimiter, blocks[1..], parts[1..]);
    assert rest[..2] == Closing(0, |parts|);
  }

  /** The first part of a spelled document, and the rest of it. */
  lemma TextLayout(d: bytes, delimiter: bytes, blocks: seq<bytes>, parts: seq<Part>, at: nat)
    requires |blocks| == |parts| > 0
    ensures var line := at + 2 + |blocks[0]| + 4; var next := line + |parts[0].data| + 2 + |delimiter|;
            && |Text(delimiter, blocks, parts)| == next - at + |Text(delimiter, blocks[1..], parts[1..])|
            && (Occurs(d, Text(delimiter, blocks, parts), at) <==>
                  && Occurs(d, [13, 10], at) && Occurs(d, blocks[0] + [13, 10, 13, 10], at + 2)
                  && Occurs(d, parts[0].data + [13, 10] + delimiter + Closing(0, |parts|), line)
                  && Occurs(d, Text(delimiter, blocks[1..], parts[1..]), next))
  {
    TextFront(delimiter, blocks, parts);
    hide Occurs, Text, Closing;
    var rest := Text(delimiter, blocks[1..], parts[1..]);
    var block, line: bytes := blocks[0] + [13, 10, 13, 10], parts[0].data + [13, 10] + delimiter;
    OccursSplit(d, [13, 10], block + (line + rest), at);
    OccursSplit(d, block, line + rest, at + 2);
    OccursSplit(d, line, rest, at + 2 + |block|);
    OccursSplit(d, line, Closing(0, |parts|), at + 2 + |block|);
    OccursSplit(d, Closing(0, |parts|), rest[2..], at + 2 + |block| + |line|);
  }

  lemma SpellsFront(delimiter: bytes, read: HeaderReader, blocks: seq<bytes>, parts: seq<Part>)
    requires |blocks| == |parts| > 0
    ensures Spells(delimiter, read, blocks, parts)
       <==> && BlockReads(read, blocks[0], parts[0].headers)
            && DataKept(delimiter, parts[0].data, Closing(0, |parts|))
            && Spells(delimiter, read, blocks[1..], parts[1..])
  {
    hide BlockReads, DataKept;
    if Spells(delimiter, read, blocks[1..], parts[1..]) {
      assert forall i | 1 <= i < |parts| :: blocks[i] == blocks[1..][i - 1] && parts[i] == parts[1..][i - 1];
    }
  }

  /** What is spelled is read. */
  lemma {:induction false} RestRead(
    d: bytes, delimiter: bytes, read: HeaderReader, blocks: seq<bytes>, parts: seq<Part>, at: nat, room: nat)
    requires |blocks| == |parts| <= room && Spells(delimiter, read, blocks, parts)
    requires Occurs(d, Text(delimiter, blocks, parts), at)
    ensures Rest(d, delimiter, read, at, room) == Some(Document(parts, at + |Text(delimiter, blocks, parts)|))
    decreases |parts|
  {
    hide *;
    if parts == [] {
      NothingLeft(d, delimiter, read, blocks, parts, at, room);
    } else {
      FrontRead(d, delimiter, read, blocks, parts, at, room);
      var next := at + 2 + |blocks[0]| + 4 + |parts[0].data| + 2 + |delimiter|;
      RestRead(d, delimiter, read, blocks[1..], parts[1..], next, room - 1);
      ResumeFirst(parts, next + |Text(delimiter, blocks[1..], parts[1..])|);
    }
  }

  lemma NothingLeft(
    d: bytes, delimiter: bytes, read: HeaderReader, blocks: seq<bytes>, parts: seq<Part>, at: nat, room: nat)
    requires |blocks| == |parts| == 0
    ensures Spells(delimiter, read, blocks, parts) && |Text(delimiter, blocks, parts)| == 2
    ensures Occurs(d, Text(delimiter, blocks, parts), at)
       <==> Rest(d, delimiter, read, at, room) == Some(Document(parts, at + 2))
  {
    hide Parts;
    SuffixExactly(d, at);
  }

  lemma ResumeFirst(parts: seq<Part>, end: nat)
    requires parts != []
    ensures Resume([parts[0]], Some(Document(parts[1..], end))) == Some(Document(parts, end))
  {
    assert [parts[0]] + parts[1..] == parts;
  }

  /** Reading the first part of what is spelled. */
  lemma FrontRead(
    d: bytes, delimiter: bytes, read: HeaderReader, blocks: seq<bytes>, parts: seq<Part>, at: nat, room: nat)
    requires parts != [] && |blocks| == |parts| <= room
    requires Spells(delimiter, read, blocks, parts) && Occurs(d, Text(delimiter, blocks, parts), at)
    ensures Spells(delimiter, read, blocks[1..], parts[1..])
    ensures var next := at + 2 + |blocks[0]| + 4 + |parts[0].data| + 2 + |delimiter|;
            && Occurs(d, Text(delimiter, blocks[1..], parts[1..]), next)
            && |Text(delimiter, blocks, parts)| == next - at + |Text(delimiter, blocks[1..], parts[1..])|
            && Rest(d, delimiter, read, at, room)
               == Resume([parts[0]], Rest(d, delimiter, read, next, room - 1))
  {
    hide Occurs, Text, Spells, BlockReads, DataKept, Rest, SectionAt, Resume;
    TextLayout(d, delimiter, blocks, parts, at);
    SpellsFront(delimiter, read, blocks, parts);
    var next := at + 2 + |blocks[0]| + 4 + |parts[0].data| + 2 + |delimiter|;
    var section := Section(parts[0], if |parts| == 1 then Closed(next + 2) else HeadersAt(next + 2));
    SectionRead(d, delimiter, read, at + 2, blocks[0], section);
    SectionThenRest(d, delimiter, read, at, room);
  }

  /** What is read is spelled. */
  lemma {:induction false} RestSpelled(d: bytes, delimiter: bytes, read: HeaderReader, at: nat, room: nat)
    returns (blocks: seq<bytes>)
    requires Rest(d, delimiter, read, at, room).Some?
    ensures var document := Rest(d, delimiter, read, at, room).value;
            && |blocks| == |document.parts| <= room && Spells(delimiter, read, blocks, document.parts)
            && Occurs(d, Text(delimiter, blocks, document.parts), at)
            && document.end == at + |Text(delimiter, blocks, document.parts)|
    decreases room
  {
    hide *;
    RestCloses(d, delimiter, read, at, room);
    var document := Rest(d, delimiter, read, at, room).value;
    if document.parts == [] {
      NothingLeft(d, delimiter, read, [], document.parts, at, room);
      return [];
    }
    SectionThenRest(d, delimiter, read, at, room);
    var block := SectionSpelled(d, delimiter, read, at + 2);
    var section := SectionAt(d, delimiter, read, at + 2).value;
    var found := Rest(d, delimiter, read, section.next.at - 2, room - 1);
    ResumedParts(section.part, found);
    var rest := RestSpelled(d, delimiter, read, section.next.at - 2, room - 1);
    blocks := [block] + rest;
    RestCloses(d, delimiter, read, section.next.at - 2, room - 1);
    FrontSpelled(d, delimiter, read, at, block, section, rest, found.value);
  }

  lemma ResumedParts(part: Part, found: Option<Document>)
    ensures var resumed := Resume([part], found);
            && (resumed.Some? <==> found.Some?)
            && (found.Some? ==> resumed.value == Document([part] + found.value.parts, found.value.end))
  {
  }

  /** A part and the rest of the document, spelled together. */
  lemma FrontSpelled(
    d: bytes, delimiter: bytes, read: HeaderReader, at: nat, block: bytes, section: Section, rest: seq<bytes>, found: Document)
    requires Occurs(d, [13, 10], at) && SectionText(d, delimiter, read, at + 2, block, section)
    requires section.next.Closed? <==> found.parts == []
    requires section.next.at >= 2 && Spells(delimiter, read, rest, found.parts) && |rest| == |found.parts|
    requires Occurs(d, Text(delimiter, rest, found.parts), section.next.at - 2)
    ensures Spells(delimiter, read, [block] + rest, [section.part] + found.parts)
    ensures var text := Text(delimiter, [block] + rest, [section.part] + found.parts);
            Occurs(d, text, at) && |text| == section.next.at - 2 - at + |Text(delimiter, rest, found.parts)|
  {
    hide Occurs, Text, Spells, BlockReads, DataKept;
    var blocks, parts := [block] + rest, [section.part] + found.parts;
    assert blocks[1..] == rest && parts[1..] == found.parts;
    SpellsFront(delimiter, read, blocks, parts);
    TextLayout(d, delimiter, blocks, parts, at);
  }

  /** Without a part only the closing dashes are left; otherwise a line break follows the delimiter. */
  lemma RestCloses(d: bytes, delimiter: bytes, read: HeaderReader, at: nat, room: nat)
    requires Rest(d, delimiter, read, at, room).Some?
    ensures AfterDelimiter(d, at).Some?
    ensures var document := Rest(d, delimiter, read, at, room).value;
            if document.parts == [] then
              AfterDelimiter(d, at).value.Closed? && Occurs(d, [45, 45], at) && document.end == at + 2
            else
              AfterDelimiter(d, at).value.HeadersAt? && Occurs(d, [13, 10], at) && room > 0
  {
    SuffixExactly(d, at);
  }

  /**
   A body is a document with these parts, ending at `end`, exactly when it starts with the delimiter,
   at most 256 parts as spelled out above, and two dashes.
   */
  lemma ParseExactly(d: bytes, delimiter: bytes, read: HeaderReader, document: Document)
    ensures Parse(d, delimiter, read) == Some(document)
       <==> && |document.parts| <= 256
            && exists blocks: seq<bytes> ::
                 && Spells(delimiter, read, blocks, document.parts)
                 && delimiter + Text(delimiter, blocks, document.parts) <= d
                 && document.end == |delimiter| + |Text(delimiter, blocks, document.parts)|
  {
    hide Occurs, Text, BlockReads, DataKept, Parts, Rest, Parse;
    ParseIsRest(d, delimiter, read);
    if Parse(d, delimiter, read) == Some(document) {
      var blocks := RestSpelled(d, delimiter, read, |delimiter|, 256);
      StartsText(d, delimiter, Text(delimiter, blocks, document.parts));
    }
    forall blocks: seq<bytes> |
      && |document.parts| <= 256 && Spells(delimiter, read, blocks, document.parts)
      && delimiter + Text(delimiter, blocks, document.parts) <= d
      && document.end == |delimiter| + |Text(delimiter, blocks, document.parts)|
      ensures Parse(d, delimiter, read) == Some(document)
    {
      StartsText(d, delimiter, Text(delimiter, blocks, document.parts));
      RestRead(d, delimiter, read, blocks, document.parts, |delimiter|, 256);
    }
  }

  lemma ParseIsRest(d: bytes, delimiter: bytes, read: HeaderReader)
    ensures Parse(d, delimiter, read)
            == if Occurs(d, delimiter, 0) then Rest(d, delimiter, read, |delimiter|, 256) else None
  {
  }

  lemma StartsText(d: bytes, a: bytes, b: bytes)
    ensures a + b <= d <==> Occurs(d, a, 0) && Occurs(d, b, |a|)
  {
    OccursSplit(d, a, b, 0);
    if |a + b| <= |d| {
      OccursIsSlice(d, a + b, 0);
    }
    hide Occurs;
  }
}
