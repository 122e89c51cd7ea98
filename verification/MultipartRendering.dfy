/**
 Writing a `multipart/form-data` document with quoted and escaped parameters, and reading it
 back under any chunking.
 */
module MultipartRendering {
  import opened Wrappers
  import opened Bytes
  import opened HeaderSyntax
  import opened MultipartGrammar
  import opened MultipartScan
  import opened Transport
  import opened MultipartReader
  import opened MultipartAgreement
  import Utf8

  // ----- header text -----

  /** The header values a document can carry: no carriage return, a name, a trimmed media type. */
  predicate Renderable(headers: PartHeaders) {
    && headers.name != [] && '\r' !in headers.name
    && (headers.fileName.Some? ==> '\r' !in headers.fileName.value)
    && (headers.contentType.Some? ==>
          '\r' !in headers.contentType.value && Trim(headers.contentType.value) == headers.contentType.value)
  }

  /** The value of `Content-Disposition`, as `header_parameters` sees it. */
  function Disposition(headers: PartHeaders): string {
    " form-data; name=" + Quote(headers.name)
    + (if headers.fileName.Some? then "; filename=" + Quote(headers.fileName.value) else "")
  }

  function DispositionLine(headers: PartHeaders): string {
    "Content-Disposition:" + Disposition(headers)
  }

  function TypeLine(contentType: string): string {
    "Content-Type: " + contentType
  }

  function HeaderText(headers: PartHeaders): string {
    DispositionLine(headers)
    + (if headers.contentType.Some? then "\r\n" + TypeLine(headers.contentType.value) else "")
  }

  lemma {:induction false} SplitOnceAt(left: string, separator: char, right: string)
    requires separator !in left
    ensures SplitOnce(left + [separator] + right, separator) == Some((left, right))
  {
    var s := left + [separator] + right;
    if left == [] {
      assert s[1..] == right;
    } else {
      assert s[1..] == left[1..] + [separator] + right;
      SplitOnceAt(left[1..], separator, right);
      assert [left[0]] + left[1..] == left;
    }
  }

  /** Text without quotes or semicolons is one piece with what follows. */
  lemma {:induction false} PlainRun(plain: string, rest: string)
    requires '"' !in plain && ';' !in plain
    ensures SplitUnquoted(plain + rest, false, false) == Prepend(plain, SplitUnquoted(rest, false, false))
  {
    if plain == [] {
      assert plain + rest == rest;
      PrependAppends([], [], SplitUnquoted(rest, false, false));
    } else {
      assert (plain + rest)[1..] == plain[1..] + rest;
      PlainRun(plain[1..], rest);
      PrependAppends([plain[0]], plain[1..], SplitUnquoted(rest, false, false));
      assert [plain[0]] + plain[1..] == plain;
    }
  }

  /** One character, escaped if it has to be. */
  function EscapeChar(c: char): string {
    if c == '\\' || c == '"' then ['\\', c] else [c]
  }

  lemma EscapedStep(c: char, after: string)
    ensures SplitUnquoted(EscapeChar(c) + after, true, false) == Prepend(EscapeChar(c), SplitUnquoted(after, true, false))
  {
    var tail := SplitUnquoted(after, true, false);
    if c == '\\' || c == '"' {
      assert EscapeChar(c) + after == ['\\'] + ([c] + after);
      assert (['\\'] + ([c] + after))[1..] == [c] + after;
      assert ([c] + after)[1..] == after;
      PrependAppends(['\\'], [c], tail);
      assert ['\\'] + [c] == EscapeChar(c);
    } else {
      assert ([c] + after)[1..] == after;
    }
  }

  /** Inside quotes, escaped text runs to its closing quote. */
  lemma {:induction false} QuotedRun(s: string, rest: string)
    ensures SplitUnquoted(Escape(s) + "\"" + rest, true, false)
         == Prepend(Escape(s) + "\"", SplitUnquoted(rest, false, false))
  {
    hide Prepend;
    var tail := SplitUnquoted(rest, false, false);
    if s == [] {
      assert Escape(s) + "\"" + rest == ['"'] + rest;
      assert (['"'] + rest)[1..] == rest;
      assert Escape(s) + "\"" == ['"'];
    } else {
      hide SplitUnquoted;
      var after := Escape(s[1..]) + "\"" + rest;
      assert Escape(s) == EscapeChar(s[0]) + Escape(s[1..]);
      assert Escape(s) + "\"" + rest == EscapeChar(s[0]) + after;
      EscapedStep(s[0], after);
      QuotedRun(s[1..], rest);
      PrependAppends(EscapeChar(s[0]), Escape(s[1..]) + "\"", tail);
      assert EscapeChar(s[0]) + (Escape(s[1..]) + "\"") == Escape(s) + "\"";
    }
  }

  lemma QuotedPiece(s: string, rest: string)
    ensures SplitUnquoted(Quote(s) + rest, false, false) == Prepend(Quote(s), SplitUnquoted(rest, false, false))
  {
    var inner := Escape(s) + "\"";
    assert Quote(s) + rest == ['"'] + (inner + rest);
    assert (['"'] + (inner + rest))[1..] == inner + rest;
    QuotedRun(s, rest);
    PrependAppends(['"'], inner, SplitUnquoted(rest, false, false));
    assert ['"'] + inner == Quote(s);
  }

  /** `;` outside quotes ends a piece. */
  lemma Semicolon(rest: string)
    ensures SplitUnquoted([';'] + rest, false, false) == [[]] + SplitUnquoted(rest, false, false)
  {
    assert ([';'] + rest)[1..] == rest;
  }

  /** A parameter `key="value"` followed by the rest of the header value. */
  lemma ParameterPiece(key: string, value: string, rest: string)
    requires '"' !in key && ';' !in key
    ensures SplitUnquoted(key + Quote(value) + rest, false, false)
         == Prepend(key + Quote(value), SplitUnquoted(rest, false, false))
  {
    assert key + Quote(value) + rest == key + (Quote(value) + rest);
    PlainRun(key, Quote(value) + rest);
    QuotedPiece(value, rest);
    PrependAppends(key, Quote(value), SplitUnquoted(rest, false, false));
  }

  /** `header_parameters` of a rendered disposition. */
  function Pieces(headers: PartHeaders): seq<string> {
    [" form-data", " name=" + Quote(headers.name)]
    + (if headers.fileName.Some? then [" filename=" + Quote(headers.fileName.value)] else [])
  }

  lemma DispositionPieces(headers: PartHeaders)
    ensures Parameters(Disposition(headers)) == Pieces(headers)
  {
    hide SplitUnquoted, Quote;
    var tail := if headers.fileName.Some? then "; filename=" + Quote(headers.fileName.value) else "";
    var name := " name=" + Quote(headers.name);
    assert Disposition(headers) == " form-data" + ([';'] + (name + tail));
    PlainRun(" form-data", [';'] + (name + tail));
    Semicolon(name + tail);
    ParameterPiece(" name=", headers.name, tail);
    if headers.fileName.Some? {
      TailPieces(headers.fileName.value);
    } else {
      EmptyPiece();
    }
    PrependLast(" form-data", SplitUnquoted(name + tail, false, false));
    PrependLast(name, SplitUnquoted(tail, false, false)[1..]);
  }

  lemma TailPieces(fileName: string)
    ensures SplitUnquoted("; filename=" + Quote(fileName), false, false) == [[], " filename=" + Quote(fileName)]
  {
    hide SplitUnquoted, Quote;
    var file := " filename=" + Quote(fileName);
    assert "; filename=" + Quote(fileName) == [';'] + file;
    assert file == file + "";
    Semicolon(file);
    ParameterPiece(" filename=", fileName, "");
    EmptyPiece();
    PrependLast(file, []);
  }

  lemma PrependLast(s: string, rest: seq<string>)
    ensures Prepend(s, [[]] + rest) == [s] + rest
  {
    assert s + [] == s;
  }

  lemma EmptyPiece()
    ensures SplitUnquoted([], false, false) == [[]]
  {
  }

  // ----- reading the text back -----

  /** Text that neither starts nor ends with white space is its own trimming. */
  lemma TrimNothing(s: string)
    requires s != [] && !IsWhitespace(s[0]) && !IsWhitespace(s[|s| - 1])
    ensures Trim(s) == s && Trim([' '] + s) == s
  {
    assert ([' '] + s)[1..] == s;
    assert TrimStart(s) == s;
    assert TrimStart([' '] + s) == s;
  }

  /** Reading one rendered parameter sets its field. */
  lemma ReadParameter(draft: Draft, key: string, value: string)
    requires key == "name" || key == "filename"
    ensures ApplyParameter(draft, [' '] + key + ['='] + Quote(value))
         == if key == "name" then draft.(name := Some(value)) else draft.(fileName := Some(value))
  {
    hide Escape, TrimStart, TrimEnd, Unquote, SplitOnce, Trim, Quote;
    SplitOnceAt([' '] + key, '=', Quote(value));
    TrimNothing(key);
    QuoteEnds(value);
    TrimNothing(Quote(value));
    UnquoteQuoted(value);
    assert Lower("filename")[0] != Lower("name")[0];
  }

  lemma QuoteEnds(s: string)
    ensures Quote(s) != [] && Quote(s)[0] == '"' && Quote(s)[|Quote(s)| - 1] == '"'
  {
  }

  lemma ReadPieces(headers: PartHeaders)
    ensures ApplyParameters(EMPTY_DRAFT, Pieces(headers)[1..])
         == Draft(Some(headers.name), headers.fileName, None)
  {
    hide Escape, ApplyParameter, Quote;
    var name := " name=" + Quote(headers.name);
    assert name == [' '] + "name" + ['='] + Quote(headers.name);
    ReadParameter(EMPTY_DRAFT, "name", headers.name);
    var draft := EMPTY_DRAFT.(name := Some(headers.name));
    if headers.fileName.Some? {
      var file := " filename=" + Quote(headers.fileName.value);
      assert file == [' '] + "filename" + ['='] + Quote(headers.fileName.value);
      ReadParameter(draft, "filename", headers.fileName.value);
      assert Pieces(headers)[1..] == [name, file];
      assert [name, file][1..] == [file];
      assert ApplyParameters(EMPTY_DRAFT, [name, file]) == ApplyParameters(draft, [file]);
      assert [file][1..] == [];
    } else {
      assert Pieces(headers)[1..] == [name];
      assert [name][1..] == [];
      assert ApplyParameters(EMPTY_DRAFT, [name]) == ApplyParameters(draft, []);
    }
  }

  lemma LowerDisposition()
    ensures EqIgnoreCase("Content-Disposition", "content-disposition")
  {
    assert Lower("Content-Disposition") == "content-disposition" == Lower("content-disposition");
  }

  lemma ReadDisposition(headers: PartHeaders)
    ensures ApplyLine(EMPTY_DRAFT, DispositionLine(headers))
         == Ok(Draft(Some(headers.name), headers.fileName, None))
  {
    hide Parameters, ApplyParameters, Trim, Disposition, Pieces, SplitOnce, EqIgnoreCase;
    var name := "Content-Disposition";
    assert DispositionLine(headers) == name + [':'] + Disposition(headers);
    SplitOnceAt(name, ':', Disposition(headers));
    LowerDisposition();
    DispositionPieces(headers);
    FormData(headers);
    ReadPieces(headers);
  }

  lemma FormData(headers: PartHeaders)
    ensures Pieces(headers)[0] == " form-data" && EqIgnoreCase(Trim(" form-data"), "form-data")
  {
    hide Quote, Trim;
    assert " form-data" == [' '] + "form-data";
    TrimNothing("form-data");
  }

  lemma ReadType(draft: Draft, contentType: string)
    requires Trim(contentType) == contentType
    ensures ApplyLine(draft, TypeLine(contentType)) == Ok(draft.(contentType := Some(contentType)))
  {
    hide Parameters, ApplyParameters, Trim, SplitOnce;
    var name := "Content-Type";
    assert TypeLine(contentType) == name + [':'] + ([' '] + contentType);
    SplitOnceAt(name, ':', [' '] + contentType);
    assert |Lower(name)| != |Lower("content-disposition")|;
    assert Lower(name) == "content-type" == Lower("content-type");
    TrimLeading(contentType);
  }

  lemma TrimLeading(s: string)
    ensures Trim([' '] + s) == Trim(s)
  {
    assert ([' '] + s)[1..] == s;
  }

  lemma {:induction false} OneLine(s: string)
    requires '\r' !in s
    ensures Lines(s) == [s]
  {
    if s != [] {
      OneLine(s[1..]);
      assert [s[0]] + s[1..] == s;
    }
  }

  lemma {:induction false} TwoLines(s: string, t: string)
    requires '\r' !in s
    ensures Lines(s + "\r\n" + t) == [s] + Lines(t)
  {
    var all := s + "\r\n" + t;
    if s == [] {
      assert all[2..] == t;
    } else {
      assert all[1..] == s[1..] + "\r\n" + t;
      TwoLines(s[1..], t);
      assert [s[0]] + s[1..] == s;
      assert Prepend([s[0]], [s[1..]] + Lines(t)) == [s] + Lines(t);
    }
  }

  lemma {:induction false} EscapeKeeps(s: string, c: char)
    requires c !in s && c != '\\'
    ensures c !in Escape(s)
  {
    if s != [] {
      EscapeKeeps(s[1..], c);
    }
  }

  lemma NoReturns(headers: PartHeaders)
    requires Renderable(headers)
    ensures '\r' !in DispositionLine(headers)
    ensures headers.contentType.Some? ==> '\r' !in TypeLine(headers.contentType.value)
  {
    hide Escape;
    QuoteKeeps(headers.name, '\r');
    Absent("Content-Disposition:", '\r');
    Absent(" form-data; name=", '\r');
    Absent("; filename=", '\r');
    Absent("Content-Type: ", '\r');
    if headers.fileName.Some? {
      QuoteKeeps(headers.fileName.value, '\r');
    }
  }

  lemma QuoteKeeps(s: string, c: char)
    requires c !in s && c != '\\' && c != '"'
    ensures c !in Quote(s)
  {
    EscapeKeeps(s, c);
  }

  lemma Absent(s: string, c: char)
    requires forall i | 0 <= i < |s| :: s[i] != c
    ensures c !in s
  {
  }

  /** `multipart_part_headers` reads back what was written. */
  lemma HeadersRoundTrip(headers: PartHeaders)
    requires Renderable(headers)
    ensures HeadersOf(HeaderText(headers)) == Ok(headers)
  {
    hide Lines, ApplyLine, DispositionLine, TypeLine, Trim, Quote;
    NoReturns(headers);
    ReadDisposition(headers);
    var first := DispositionLine(headers);
    if headers.contentType.Some? {
      var second := TypeLine(headers.contentType.value);
      assert HeaderText(headers) == first + "\r\n" + second;
      TwoLines(first, second);
      OneLine(second);
      ReadType(Draft(Some(headers.name), headers.fileName, None), headers.contentType.value);
      var draft := Draft(Some(headers.name), headers.fileName, None);
      assert ([first] + [second])[1..] == [second];
      assert ApplyLines(EMPTY_DRAFT, [first] + [second]) == ApplyLines(draft, [second]);
      assert [second][1..] == [];
    } else {
      assert HeaderText(headers) == first;
      OneLine(first);
      assert [first][1..] == [];
      assert ApplyLines(EMPTY_DRAFT, [first])
          == ApplyLines(Draft(Some(headers.name), headers.fileName, None), []);
    }
  }

  // ----- a content type and its boundary -----

  const FORM_DATA := "multipart/form-data"
  const BOUNDARY_IS := " boundary="

  /** A content type with `text` as its boundary parameter. */
  function ContentType(text: string): string {
    FORM_DATA + ";" + BOUNDARY_IS + text
  }

  lemma ContentTypePieces(text: string)
    ensures Parameters(ContentType(text)) == [FORM_DATA] + Prepend(BOUNDARY_IS, Parameters(text))
  {
    hide SplitUnquoted;
    assert ContentType(text) == FORM_DATA + ([';'] + (BOUNDARY_IS + text));
    Absent(FORM_DATA, '"');
    Absent(FORM_DATA, ';');
    Absent(BOUNDARY_IS, '"');
    Absent(BOUNDARY_IS, ';');
    PlainRun(FORM_DATA, [';'] + (BOUNDARY_IS + text));
    Semicolon(BOUNDARY_IS + text);
    PlainRun(BOUNDARY_IS, text);
    PrependLast(FORM_DATA, Prepend(BOUNDARY_IS, Parameters(text)));
  }

  /** The boundary is read from the parameter up to the first unquoted semicolon. */
  lemma BoundaryRead(text: string)
    ensures var value := Unquote(Trim(Parameters(text)[0]));
            BoundaryOf(ContentType(text)) == if value.Some? && ValidBoundary(value.value) then value else None
  {
    hide Trim, Unquote, SplitOnce, Parameters, ContentType, Lower;
    ContentTypePieces(text);
    var first := Parameters(text)[0];
    var pieces := Parameters(ContentType(text));
    assert Trim(FORM_DATA) == FORM_DATA by {
      TrimNothing(FORM_DATA);
    }
    assert Trim([' '] + "boundary") == "boundary" by {
      TrimNothing("boundary");
    }
    assert pieces[0] == FORM_DATA && EqIgnoreCase(FORM_DATA, "multipart/form-data");
    assert pieces[1..][0] == ([' '] + "boundary") + ['='] + first;
    SplitOnceAt([' '] + "boundary", '=', first);
  }

  /** A quoted boundary is read back, whatever characters it has. */
  lemma QuotedBoundary(boundary: string)
    requires ValidBoundary(boundary)
    ensures BoundaryOf(ContentType(Quote(boundary))) == Some(boundary)
  {
    hide BoundaryOf, ContentType, Trim, Unquote, Quote;
    BoundaryRead(Quote(boundary));
    QuotedPiece(boundary, "");
    EmptyPiece();
    assert Quote(boundary) + "" == Quote(boundary);
    PrependLast(Quote(boundary), []);
    QuoteEnds(boundary);
    TrimNothing(Quote(boundary));
    UnquoteQuoted(boundary);
  }

  lemma {:induction false} UnescapeShortens(s: string)
    ensures Unescape(s).Some? ==> |Unescape(s).value| <= |s|
    decreases |s|
  {
    if |s| >= 2 && s[0] == '\\' {
      UnescapeShortens(s[2..]);
    } else if s != [] {
      UnescapeShortens(s[1..]);
    }
  }

  lemma FirstPiece(text: string)
    ensures Parameters(text)[0] == text <==> Parameters(text) == [text]
    ensures |Parameters(text)[0]| <= |text| && forall c | c in Parameters(text)[0] :: c in text
  {
    ParametersJoin(text, false, false);
    hide SplitUnquoted;
    var pieces := Parameters(text);
    assert Join(pieces) == text;
    assert forall i | 0 <= i < |pieces[0]| :: text[i] == pieces[0][i];
  }

  /** A boundary written plainly is read back exactly when it is not quoted and has no unquoted semicolon. */
  lemma PlainBoundary(boundary: string)
    requires ValidBoundary(boundary)
    ensures BoundaryOf(ContentType(boundary)) == Some(boundary)
       <==> boundary[0] != '"' && Parameters(boundary) == [boundary]
  {
    BoundaryRead(boundary);
    FirstPiece(boundary);
    var first := Parameters(boundary)[0];
    hide BoundaryOf, ContentType, Trim, Unescape, Parameters;
    if first == [] {
      TrimEmpty();
    } else {
      assert first[0] in first && first[|first| - 1] in first;
      TrimNothing(first);
      if first[0] == '"' && |first| >= 2 {
        UnescapeShortens(first[1..|first| - 1]);
      }
    }
  }

  lemma TrimEmpty()
    ensures Trim([]) == []
  {
  }

  // ----- the document -----

  function HeaderBytes(headers: PartHeaders): bytes {
    Utf8.Encode(HeaderText(headers))
  }

  /** The two bytes after a delimiter that precedes `parts`. */
  function Suffix(parts: seq<Part>): bytes {
    if parts == [] then DASHES else CRLF
  }

  /** What follows a delimiter: the parts still to come, each closed by the next delimiter. */
  function Tail(delimiter: bytes, parts: seq<Part>): bytes {
    if parts == [] then DASHES + CRLF
    else
      CRLF + HeaderBytes(parts[0].headers) + BLANK_LINE + parts[0].data
      + CRLF + delimiter + Tail(delimiter, parts[1..])
  }

  /** The document with these parts. */
  function Render(delimiter: bytes, parts: seq<Part>): bytes {
    delimiter + Tail(delimiter, parts)
  }

  /** Data that stays data: no terminator starts inside it when its closing delimiter line follows. */
  ghost predicate SafeData(delimiter: bytes, data: bytes, suffix: bytes) {
    forall i: nat | i < |data| :: !TerminatorAt(data + CRLF + delimiter + suffix, delimiter, i)
  }

  ghost predicate AllSafe(delimiter: bytes, parts: seq<Part>) {
    parts != [] ==> SafeData(delimiter, parts[0].data, Suffix(parts[1..])) && AllSafe(delimiter, parts[1..])
  }

  /** What a header block must satisfy to be read as these headers: small, free of blank lines, understood. */
  ghost predicate BlockFor(read: HeaderReader, block: bytes, headers: PartHeaders) {
    && |block| <= MAX_HEADER_BYTES
    && (forall i: nat | i < |block| :: !Occurs(block + BLANK_LINE, BLANK_LINE, i))
    && read(block) == Ok(headers)
  }

  ghost predicate Readable(read: HeaderReader, headers: PartHeaders) {
    BlockFor(read, HeaderBytes(headers), headers)
  }

  ghost predicate AllReadable(read: HeaderReader, parts: seq<Part>) {
    forall i | 0 <= i < |parts| :: Readable(read, parts[i].headers)
  }

  lemma OccursSplit(d: bytes, a: bytes, b: bytes, at: nat)
    ensures Occurs(d, a + b, at) <==> Occurs(d, a, at) && Occurs(d, b, at + |a|)
  {
    var ab := a + b;
    if Occurs(d, ab, at) {
      assert forall k | 0 <= k < |a| :: a[k] == ab[k];
      forall k | 0 <= k < |b| ensures b[k] == d[at + |a| + k] {
        assert b[k] == ab[|a| + k];
        assert ab[|a| + k] == d[at + (|a| + k)];
      }
    }
    if Occurs(d, a, at) && Occurs(d, b, at + |a|) {
      forall k | 0 <= k < |ab| ensures ab[k] == d[at + k] {
        if k >= |a| {
          assert ab[k] == b[k - |a|];
          assert b[k - |a|] == d[at + |a| + (k - |a|)];
        }
      }
    }
  }

  lemma TailUnfold(delimiter: bytes, parts: seq<Part>)
    requires parts != []
    ensures Tail(delimiter, parts)
         == CRLF + HeaderBytes(parts[0].headers) + BLANK_LINE + parts[0].data
            + CRLF + delimiter + Tail(delimiter, parts[1..])
    ensures var rest := Tail(delimiter, parts[1..]);
            |rest| >= 2 && rest == Suffix(parts[1..]) + rest[2..]
  {
    hide HeaderBytes;
    var rest := Tail(delimiter, parts[1..]);
    assert rest[..2] == Suffix(parts[1..]);
  }

  /** The pieces of the tail, each where it belongs. */
  lemma TailLayout(d: bytes, delimiter: bytes, parts: seq<Part>, at: nat)
    requires parts != [] && Occurs(d, Tail(delimiter, parts), at)
    ensures var block, data := HeaderBytes(parts[0].headers), parts[0].data;
            var start := at + 2 + |block| + 4;
            && Occurs(d, CRLF, at)
            && Occurs(d, block + BLANK_LINE, at + 2)
            && Occurs(d, data + CRLF + delimiter + Suffix(parts[1..]), start)
            && Occurs(d, Tail(delimiter, parts[1..]), start + |data| + 2 + |delimiter|)
  {
    hide Occurs, HeaderBytes, Tail;
    TailUnfold(delimiter, parts);
    var block, data, rest := HeaderBytes(parts[0].headers), parts[0].data, Tail(delimiter, parts[1..]);
    var start := at + 2 + |block| + 4;
    var suffix := Suffix(parts[1..]);
    var line := data + CRLF + delimiter;
    var after := rest[2..];
    assert Tail(delimiter, parts) == CRLF + ((block + BLANK_LINE) + (line + rest));
    OccursSplit(d, CRLF, (block + BLANK_LINE) + (line + rest), at);
    OccursSplit(d, block + BLANK_LINE, line + rest, at + 2);
    assert at + 2 + |block + BLANK_LINE| == start;
    OccursSplit(d, line, rest, start);
    assert start + |line| == start + |data| + 2 + |delimiter|;
    OccursSplit(d, suffix, after, start + |line|);
    OccursSplit(d, line, suffix, start);
  }

  lemma BlockReadBack(d: bytes, read: HeaderReader, block: bytes, headers: PartHeaders, at: nat)
    requires BlockFor(read, block, headers) && Occurs(d, block + BLANK_LINE, at)
    ensures HeaderBlock(d, read, at) == Some(Block(headers, at + |block|))
  {
    hide Find;
    var window := block + BLANK_LINE;
    OccursSplit(d, block, BLANK_LINE, at);
    forall i: nat | at <= i < at + |block| ensures !Occurs(d, BLANK_LINE, i) {
      OccursInWindow(d, window, at, BLANK_LINE, i - at);
    }
    FindFrom(d, BLANK_LINE, at, at + |block|);
    FindHere(d, BLANK_LINE, at + |block|);
    OccursIsSlice(d, block, at);
  }

  lemma FindHere(d: bytes, needle: bytes, at: nat)
    requires needle != [] && Occurs(d, needle, at)
    ensures Find(d, needle, at) == Some(at)
  {
  }

  /** The data ends where it was meant to exactly when it is safe; otherwise it ends earlier. */
  lemma DataReadBack(d: bytes, delimiter: bytes, data: bytes, suffix: bytes, start: nat)
    requires suffix == CRLF || suffix == DASHES
    requires Occurs(d, data + CRLF + delimiter + suffix, start)
    ensures start <= |d|
    ensures FirstTerminator(d, delimiter, start).Some?
    ensures FirstTerminator(d, delimiter, start).value <= start + |data|
    ensures FirstTerminator(d, delimiter, start).value == start + |data| <==> SafeData(delimiter, data, suffix)
    ensures AfterDelimiter(d, start + |data| + 2 + |delimiter|)
         == Some(if suffix == DASHES then Closed(start + |data| + |delimiter| + 4)
                 else HeadersAt(start + |data| + |delimiter| + 4))
    ensures start + |data| <= |d| && d[start..start + |data|] == data
  {
    var window := data + CRLF + delimiter + suffix;
    EndsInTerminator(d, delimiter, data, suffix, start);
    forall i: nat | i <= |data|
      ensures TerminatorAt(d, delimiter, start + i) == TerminatorAt(window, delimiter, i)
    {
      TerminatorInWindow(d, window, start, delimiter, i);
    }
    hide TerminatorAt, Occurs, AfterDelimiter;
    var found := FirstTerminator(d, delimiter, start).value;
    if found < start + |data| {
      assert TerminatorAt(window, delimiter, found - start);
    } else {
      forall i: nat | i < |data| ensures !TerminatorAt(window, delimiter, i) {
        assert !TerminatorAt(d, delimiter, start + i);
      }
    }
  }

  lemma EndsInTerminator(d: bytes, delimiter: bytes, data: bytes, suffix: bytes, start: nat)
    requires suffix == CRLF || suffix == DASHES
    requires Occurs(d, data + CRLF + delimiter + suffix, start)
    ensures TerminatorAt(d, delimiter, start + |data|)
    ensures AfterDelimiter(d, start + |data| + 2 + |delimiter|)
         == Some(if suffix == DASHES then Closed(start + |data| + |delimiter| + 4)
                 else HeadersAt(start + |data| + |delimiter| + 4))
    ensures start + |data| <= |d| && d[start..start + |data|] == data
  {
    OccursSplit(d, data + CRLF + delimiter, suffix, start);
    OccursSplit(d, data + CRLF, delimiter, start);
    OccursSplit(d, data, CRLF, start);
    OccursIsSlice(d, data, start);
    var end := start + |data| + 2 + |delimiter|;
    assert suffix[0] == d[end + 0] && suffix[1] == d[end + 1];
    assert CRLF[0] == d[start + |data| + 0] && CRLF[1] == d[start + |data| + 1];
  }

  /** The section at a rendered part is that part exactly when its data is safe, and the rest follows. */
  lemma SectionReadBack(d: bytes, delimiter: bytes, read: HeaderReader, parts: seq<Part>, at: nat)
    requires parts != [] && Readable(read, parts[0].headers) && Occurs(d, Tail(delimiter, parts), at)
    ensures var first, rest := parts[0], parts[1..];
            var block, section := HeaderBytes(first.headers), SectionAt(d, delimiter, read, at + 2);
            var end := at + 2 + |block| + 4 + |first.data| + |delimiter| + 4;
            && HeaderBlock(d, read, at + 2) == Some(Block(first.headers, at + 2 + |block|))
            && Occurs(d, Tail(delimiter, rest), end - 2)
            && section.Some?
            && (section.value.part == first <==> SafeData(delimiter, first.data, Suffix(rest)))
            && (SafeData(delimiter, first.data, Suffix(rest)) ==>
                  section.value.next == if rest == [] then Closed(end) else HeadersAt(end))
  {
    hide HeaderBytes, Tail, Occurs, SafeData, FirstTerminator, AfterDelimiter, HeaderBlock, SectionAt, BlockFor;
    var first, rest := parts[0], parts[1..];
    var start := at + 2 + |HeaderBytes(first.headers)| + 4;
    TailLayout(d, delimiter, parts, at);
    BlockReadBack(d, read, HeaderBytes(first.headers), first.headers, at + 2);
    DataReadBack(d, delimiter, first.data, Suffix(rest), start);
    SectionFields(d, delimiter, read, at + 2);
    var terminator := FirstTerminator(d, delimiter, start).value;
    assert |d[start..terminator]| == terminator - start;
  }

  /** Reading a rendered tail gives the parts back exactly when all their data is safe. */
  lemma {:induction false} TailReadBack(d: bytes, delimiter: bytes, read: HeaderReader, parts: seq<Part>, at: nat, room: nat)
    requires parts != [] && |parts| <= room && AllReadable(read, parts)
    requires Occurs(d, Tail(delimiter, parts), at)
    ensures var found := Parts(d, delimiter, read, at + 2, room);
            (found.Some? && found.value.parts == parts) <==> AllSafe(delimiter, parts)
    decreases |parts|
  {
    hide HeaderBytes, Tail, Occurs, SafeData, HeaderBlock, SectionAt, Parts, Readable;
    var first, rest := parts[0], parts[1..];
    assert Readable(read, parts[0].headers);
    SectionReadBack(d, delimiter, read, parts, at);
    PartsUnfold(d, delimiter, read, at + 2, room, []);
    ResumeAppends([], [], Parts(d, delimiter, read, at + 2, room));
    var section := SectionAt(d, delimiter, read, at + 2).value;
    assert parts == [first] + rest;
    if section.part != first {
      StartsWith(d, delimiter, read, at + 2, room);
    } else if rest != [] {
      assert forall i | 0 <= i < |rest| :: rest[i] == parts[i + 1];
      TailReadBack(d, delimiter, read, rest, section.next.at - 2, room - 1);
      ResumedParts([first], rest, Parts(d, delimiter, read, section.next.at, room - 1));
    }
  }

  lemma ResumedParts(done: seq<Part>, rest: seq<Part>, found: Option<Document>)
    ensures (Resume([] + done, found).Some? && Resume([] + done, found).value.parts == done + rest)
       <==> (found.Some? && found.value.parts == rest)
  {
    if found.Some? {
      assert [] + done == done;
      if done + found.value.parts == done + rest {
        assert found.value.parts == (done + found.value.parts)[|done|..] == (done + rest)[|done|..] == rest;
      }
    }
  }

  /** Whatever is read starts with the first section's part. */
  lemma StartsWith(d: bytes, delimiter: bytes, read: HeaderReader, at: nat, room: nat)
    ensures var found, section := Parts(d, delimiter, read, at, room), SectionAt(d, delimiter, read, at);
            found.Some? ==> section.Some? && found.value.parts[0] == section.value.part
  {
    hide SectionAt;
  }

  // ----- rendered header blocks are readable -----

  lemma {:induction false} EncodeNoReturn(s: string)
    requires '\r' !in s
    ensures CR !in Utf8.Encode(s)
  {
    if s != [] {
      assert s[0] in s;
      assert CR !in Utf8.EncodeChar(s[0]);
      EncodeNoReturn(s[1..]);
    }
  }

  /** One line, or two of which the second is not empty, contain no blank line. */
  lemma NoBlankLine(block: bytes, first: bytes, second: Option<bytes>)
    requires CR !in first
    requires second.Some? ==> CR !in second.value && second.value != []
    requires block == if second.Some? then first + CRLF + second.value else first
    ensures forall i: nat | i < |block| :: !Occurs(block + BLANK_LINE, BLANK_LINE, i)
  {
    var all := block + BLANK_LINE;
    assert BLANK_LINE[0] == CR && BLANK_LINE[2] == CR;
    forall i: nat | i < |block| ensures !Occurs(all, BLANK_LINE, i) {
      assert i < |first| ==> all[i + 0] == first[i];
      assert i == |first| ==> all[i + 2] == second.value[0];
      assert i == |first| + 1 ==> all[i + 0] == LF;
      assert i > |first| + 1 ==> all[i + 0] == second.value[i - |first| - 2];
      assert all[i + 0] != CR || all[i + 2] != CR;
    }
  }

  lemma HeadersHaveNoBlankLine(headers: PartHeaders)
    requires Renderable(headers)
    ensures forall i: nat | i < |HeaderBytes(headers)| ::
              !Occurs(HeaderBytes(headers) + BLANK_LINE, BLANK_LINE, i)
  {
    hide DispositionLine, TypeLine, Utf8.Encode, Occurs;
    NoReturns(headers);
    var first := DispositionLine(headers);
    EncodeNoReturn(first);
    if headers.contentType.Some? {
      var second := TypeLine(headers.contentType.value);
      EncodeNoReturn(second);
      NonEmpty(headers.contentType.value);
      Utf8.EncodeConcat(first, "\r\n" + second);
      Utf8.EncodeConcat("\r\n", second);
      EncodeLineBreak();
      assert HeaderText(headers) == first + ("\r\n" + second);
      assert HeaderBytes(headers) == Utf8.Encode(first) + CRLF + Utf8.Encode(second);
      NoBlankLine(HeaderBytes(headers), Utf8.Encode(first), Some(Utf8.Encode(second)));
    } else {
      assert HeaderText(headers) == first;
      NoBlankLine(HeaderBytes(headers), Utf8.Encode(first), None);
    }
  }

  lemma RenderedReadable(headers: PartHeaders)
    requires Renderable(headers) && |HeaderBytes(headers)| <= MAX_HEADER_BYTES
    ensures Readable(HeadersOfBytes, headers)
  {
    hide HeadersOf, HeaderText, Utf8.Encode, Utf8.Decode, Occurs;
    HeadersRoundTrip(headers);
    Utf8.DecodeInvertsEncode(HeaderBytes(headers), HeaderText(headers));
    HeadersHaveNoBlankLine(headers);
  }

  lemma EncodeLineBreak()
    ensures Utf8.Encode("\r\n") == CRLF
  {
    assert Utf8.Encode("\n") == [10] + Utf8.Encode([]);
    assert "\r\n"[1..] == "\n" && "\n"[1..] == [];
  }

  lemma NonEmpty(contentType: string)
    ensures Utf8.Encode(TypeLine(contentType)) != []
  {
    assert TypeLine(contentType) != [];
  }

  // ----- the round trip -----

  ghost predicate AllRenderable(parts: seq<Part>, limit: nat) {
    forall i | 0 <= i < |parts| :: Renderable(parts[i].headers) && |HeaderBytes(parts[i].headers)| <= limit
  }

  /**
   A rendered document is read back as the same parts exactly when no terminator starts inside
   any part's data followed by its closing delimiter line.
   */
  lemma RoundTripBuffered(delimiter: bytes, parts: seq<Part>)
    requires |parts| <= MAX_PARTS && AllRenderable(parts, MAX_HEADER_BYTES)
    ensures var found := Parse(Render(delimiter, parts), delimiter, HeadersOfBytes);
            (found.Some? && found.value.parts == parts) <==> AllSafe(delimiter, parts)
  {
    hide HeaderBytes, Tail, Parts, HeadersOfBytes, Readable;
    var d := Render(delimiter, parts);
    forall i | 0 <= i < |parts| ensures Readable(HeadersOfBytes, parts[i].headers) {
      RenderedReadable(parts[i].headers);
    }
    assert Occurs(d, d, 0);
    OccursSplit(d, delimiter, Tail(delimiter, parts), 0);
    TailStart(d, delimiter, parts);
    if parts != [] {
      TailReadBack(d, delimiter, HeadersOfBytes, parts, |delimiter|, MAX_PARTS);
    }
  }

  lemma TailStart(d: bytes, delimiter: bytes, parts: seq<Part>)
    requires Occurs(d, Tail(delimiter, parts), |delimiter|)
    ensures AfterDelimiter(d, |delimiter|)
         == Some(if parts == [] then Closed(|delimiter| + 2) else HeadersAt(|delimiter| + 2))
  {
    hide HeaderBytes;
    var tail := Tail(delimiter, parts);
    assert tail[0] == d[|delimiter| + 0] && tail[1] == d[|delimiter| + 1];
  }

  /** The same round trip through the streaming reader, under every chunking of the document. */
  lemma RoundTripStreaming(delimiter: bytes, parts: seq<Part>, items: seq<Item>)
    requires |parts| <= MAX_PARTS && AllRenderable(parts, MAX_HEADER_BYTES - 3)
    requires AllSafe(delimiter, parts) && Delivered(items) == Render(delimiter, parts)
    ensures var found := FittingParse(items, delimiter, HeadersOfBytes);
            found.Some? && found.value.parts == parts
  {
    hide HeadersOfBytes, FittingParse, Parse, HeaderBytes, Render, Delivered, ShortHeaders;
    RoundTripBuffered(delimiter, parts);
    RenderedShort(delimiter, parts);
    AgreementUnderEveryChunking(Delivered(items), delimiter, HeadersOfBytes);
  }

  lemma {:induction false} TailShort(d: bytes, delimiter: bytes, read: HeaderReader, parts: seq<Part>, at: nat, room: nat)
    requires parts != [] && AllReadable(read, parts) && AllSafe(delimiter, parts)
    requires forall i | 0 <= i < |parts| :: |HeaderBytes(parts[i].headers)| <= MAX_HEADER_BYTES - 3
    requires Occurs(d, Tail(delimiter, parts), at)
    ensures BlocksShort(d, delimiter, read, at + 2, room)
    decreases |parts|
  {
    hide HeaderBytes, Tail, Occurs, SafeData, HeaderBlock, SectionAt, Readable;
    var rest := parts[1..];
    assert Readable(read, parts[0].headers);
    SectionReadBack(d, delimiter, read, parts, at);
    if rest != [] && room > 0 {
      assert forall i | 0 <= i < |rest| :: rest[i] == parts[i + 1];
      TailShort(d, delimiter, read, rest, SectionAt(d, delimiter, read, at + 2).value.next.at - 2, room - 1);
    }
  }

  lemma RenderedShort(delimiter: bytes, parts: seq<Part>)
    requires AllRenderable(parts, MAX_HEADER_BYTES - 3) && AllSafe(delimiter, parts)
    ensures ShortHeaders(Render(delimiter, parts), delimiter, HeadersOfBytes)
  {
    hide HeaderBytes, Tail, HeadersOfBytes, Readable, BlocksShort;
    var d := Render(delimiter, parts);
    forall i | 0 <= i < |parts| ensures Readable(HeadersOfBytes, parts[i].headers) {
      RenderedReadable(parts[i].headers);
    }
    assert Occurs(d, d, 0);
    OccursSplit(d, delimiter, Tail(delimiter, parts), 0);
    TailStart(d, delimiter, parts);
    if parts != [] {
      TailShort(d, delimiter, HeadersOfBytes, parts, |delimiter|, MAX_PARTS);
    }
  }

  // ----- the readers really differ near the limit -----

  lemma {:induction false} AsciiEncoding(s: string)
    requires forall c | c in s :: c < 128 as char
    ensures |Utf8.Encode(s)| == |s|
  {
    if s != [] {
      assert s[0] in s && forall c | c in s[1..] :: c in s;
      AsciiEncoding(s[1..]);
    }
  }

  lemma {:induction false} EscapeNothing(s: string)
    requires '\\' !in s && '"' !in s
    ensures Escape(s) == s
  {
    if s != [] {
      EscapeNothing(s[1..]);
      assert s == [s[0]] + s[1..];
    }
  }

  /** Headers whose block is exactly as long as the limit. */
  lemma LongestHeaders() returns (headers: PartHeaders)
    ensures Renderable(headers) && |HeaderBytes(headers)| == MAX_HEADER_BYTES
  {
    hide Utf8.Encode, Escape;
    var name := seq(MAX_HEADER_BYTES - 39, _ => 'a');
    headers := PartHeaders(name, None, None);
    EscapeNothing(name);
    var text := HeaderText(headers);
    assert text == "Content-Disposition:" + " form-data; name=" + ['"'] + name + ['"'];
    AsciiEncoding(text);
  }

  /**
   A document the buffered reader accepts and the streaming reader refuses: one empty part whose
   header block is exactly as long as the limit, cut one byte past the limit.
   */
  lemma ReadersDisagree() returns (delimiter: bytes, part: Part, items: seq<Item>)
    ensures ValidDelimiter(delimiter) && Delivered(items) == Render(delimiter, [part])
    ensures |HeaderBytes(part.headers)| == MAX_HEADER_BYTES
    ensures Parse(Delivered(items), delimiter, HeadersOfBytes).Some?
    ensures FittingParse(items, delimiter, HeadersOfBytes).None?
  {
    hide HeaderBytes, Tail, HeadersOfBytes, Parse, FittingParse, Renderable, BlockFor, Occurs, HeaderBlock, SectionAt;
    hide Delivered, Cut, AfterDelimiter;
    delimiter := DASHES + [98];
    var headers := LongestHeaders();
    part := Part(headers, []);
    var d := Render(delimiter, [part]);
    assert [part][1..] == [];
    RoundTripBuffered(delimiter, [part]);
    Whole(d);
    OccursSplit(d, delimiter, Tail(delimiter, [part]), 0);
    TailStart(d, delimiter, [part]);
    TailLayout(d, delimiter, [part], |delimiter|);
    var at := |delimiter| + 2;
    RenderedReadable(headers);
    BlockReadBack(d, HeadersOfBytes, HeaderBytes(headers), headers, at);
    Whole(d);
    OccursWithin(d, HeaderBytes(headers) + BLANK_LINE, at);
    items := TwoChunks(d, at + MAX_HEADER_BYTES + 1);
    assert !BlockFits(items, at, at + MAX_HEADER_BYTES);
    ParseFromFirst(d, delimiter, HeadersOfBytes);
    StreamingExact(items, delimiter, HeadersOfBytes);
  }

  lemma Whole(d: bytes)
    ensures Occurs(d, d, 0)
  {
  }

  lemma OccursWithin(d: bytes, needle: bytes, at: nat)
    requires Occurs(d, needle, at)
    ensures at + |needle| <= |d|
  {
  }
}
