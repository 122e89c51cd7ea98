/**
 The header syntax both multipart readers share: `header_parameters`,
 `unquote_header_value`, `multipart_boundary` and `multipart_part_headers`.
 Text is a sequence of Unicode scalar values, as a Rust `str` is.
 */
module HeaderSyntax {
  import opened Wrappers
  import opened Bytes
  import Utf8

  datatype PartHeaders = PartHeaders(name: string, fileName: Option<string>, contentType: Option<string>)

  // ----- the `str` methods the source calls -----

  function LowerChar(c: char): char {
    if 'A' <= c <= 'Z' then (c as int + 32) as char else c
  }

  function Lower(s: string): string {
    seq(|s|, i requires 0 <= i < |s| => LowerChar(s[i]))
  }

  /** `str::eq_ignore_ascii_case`. */
  predicate EqIgnoreCase(a: string, b: string) {
    Lower(a) == Lower(b)
  }

  /** The Unicode `White_Space` property, which `str::trim` strips. */
  predicate IsWhitespace(c: char) {
    var v := c as int;
    9 <= v <= 13 || v == 0x20 || v == 0x85 || v == 0xA0 || v == 0x1680 || 0x2000 <= v <= 0x200A
    || v == 0x2028 || v == 0x2029 || v == 0x202F || v == 0x205F || v == 0x3000
  }

  function TrimStart(s: string): string {
    if s != [] && IsWhitespace(s[0]) then TrimStart(s[1..]) else s
  }

  function TrimEnd(s: string): string {
    if s != [] && IsWhitespace(s[|s| - 1]) then TrimEnd(s[..|s| - 1]) else s
  }

  function Trim(s: string): string {
    TrimEnd(TrimStart(s))
  }

  /** `str::split_once` with a single character. */
  function SplitOnce(s: string, separator: char): Option<(string, string)> {
    if s == [] then None
    else if s[0] == separator then Some(([], s[1..]))
    else
      match SplitOnce(s[1..], separator)
      case None => None
      case Some((left, right)) => Some(([s[0]] + left, right))
  }

  /** The text is cut at its first separator, if it has one. */
  lemma {:induction false} SplitOnceExactly(s: string, separator: char)
    ensures match SplitOnce(s, separator)
            case None => separator !in s
            case Some((left, right)) => separator in s && s == left + [separator] + right && separator !in left
  {
    if s != [] && s[0] != separator {
      SplitOnceExactly(s[1..], separator);
      assert s == [s[0]] + s[1..];
      var rest := SplitOnce(s[1..], separator);
      if rest.Some? {
        assert [s[0]] + (rest.value.0 + [separator] + rest.value.1) == ([s[0]] + rest.value.0) + [separator] + rest.value.1;
      }
    } else if s != [] {
      assert s == [] + [separator] + s[1..];
    }
  }

  /** Puts `prefix` in front of the first of `pieces`. */
  function Prepend(prefix: string, pieces: seq<string>): (r: seq<string>)
    requires pieces != []
    ensures |r| == |pieces|
  {
    [prefix + pieces[0]] + pieces[1..]
  }

  lemma PrependAppends(a: string, b: string, pieces: seq<string>)
    requires pieces != []
    ensures Prepend(a, Prepend(b, pieces)) == Prepend(a + b, pieces)
    ensures Prepend([], pieces) == pieces
  {
    assert a + (b + pieces[0]) == (a + b) + pieces[0];
    assert [] + pieces[0] == pieces[0];
  }

  /** `str::split("\r\n")`. */
  function Lines(s: string): (r: seq<string>)
    ensures r != []
  {
    if s == [] then [[]]
    else if |s| >= 2 && s[0] == '\r' && s[1] == '\n' then [[]] + Lines(s[2..])
    else Prepend([s[0]], Lines(s[1..]))
  }

  // ----- parameters -----

  /**
   The pieces of `s` between semicolons that are not quoted, when the text before `s` leaves
   the scanner inside quotes (`quoted`) or after a backslash (`escaped`).
   */
  function SplitUnquoted(s: string, quoted: bool, escaped: bool): (r: seq<string>)
    ensures r != []
  {
    if s == [] then [[]]
    else if escaped then Prepend([s[0]], SplitUnquoted(s[1..], quoted, false))
    else if s[0] == '\\' && quoted then Prepend([s[0]], SplitUnquoted(s[1..], quoted, true))
    else if s[0] == '"' then Prepend([s[0]], SplitUnquoted(s[1..], !quoted, false))
    else if s[0] == ';' && !quoted then [[]] + SplitUnquoted(s[1..], false, false)
    else Prepend([s[0]], SplitUnquoted(s[1..], quoted, false))
  }

  function Parameters(value: string): (r: seq<string>)
    ensures r != []
  {
    SplitUnquoted(value, false, false)
  }

  /** What is still to come when the range from `start` is open and the scanner is at `index`. */
  ghost function Open(value: string, start: nat, index: nat, quoted: bool, escaped: bool): seq<string>
    requires start <= index <= |value|
  {
    Prepend(value[start..index], SplitUnquoted(value[index..], quoted, escaped))
  }

  lemma OpenStep(value: string, start: nat, index: nat, quoted: bool, escaped: bool)
    requires start <= index < |value|
    ensures Open(value, start, index, quoted, escaped)
         == if escaped then Open(value, start, index + 1, quoted, false)
            else if value[index] == '\\' && quoted then Open(value, start, index + 1, quoted, true)
            else if value[index] == '"' then Open(value, start, index + 1, !quoted, false)
            else if value[index] == ';' && !quoted then
              [value[start..index]] + Open(value, index + 1, index + 1, false, false)
            else Open(value, start, index + 1, quoted, false)
  {
    assert value[index..][1..] == value[index + 1..];
    assert value[start..index + 1] == value[start..index] + [value[index]];
    if !escaped && value[index] == ';' && !quoted {
      var tail := SplitUnquoted(value[index + 1..], false, false);
      assert value[start..index] + [] == value[start..index];
      assert value[index + 1..index + 1] == [];
      PrependAppends([], [], tail);
    } else {
      var (q, e) := if escaped then (quoted, false)
                    else if value[index] == '\\' && quoted then (quoted, true)
                    else if value[index] == '"' then (!quoted, false)
                    else (quoted, false);
      PrependAppends(value[start..index], [value[index]], SplitUnquoted(value[index + 1..], q, e));
    }
  }

  lemma OpenEnds(value: string, start: nat, quoted: bool, escaped: bool)
    requires start <= |value|
    ensures Open(value, start, |value|, quoted, escaped) == [value[start..]]
    ensures Open(value, 0, 0, false, false) == Parameters(value)
  {
    assert value[start..|value|] + [] == value[start..];
    assert value[0..] == value;
    PrependAppends([], [], Parameters(value));
  }

  /** `header_parameters`: one pass that records the ranges between unquoted semicolons. */
  method HeaderParameters(value: string) returns (parameters: seq<string>)
    ensures parameters == Parameters(value)
  {
    hide Open, Parameters;
    var start, quoted, escaped := 0, false, false;
    parameters := [];
    OpenEnds(value, 0, false, false);
    for index := 0 to |value|
      invariant start <= index
      invariant Parameters(value) == parameters + Open(value, start, index, quoted, escaped)
    {
      OpenStep(value, start, index, quoted, escaped);
      if escaped {
        escaped := false;
      } else if value[index] == '\\' && quoted {
        escaped := true;
      } else if value[index] == '"' {
        quoted := !quoted;
      } else if value[index] == ';' && !quoted {
        parameters := parameters + [value[start..index]];
        start := index + 1;
      }
    }
    OpenEnds(value, start, quoted, escaped);
    parameters := parameters + [value[start..]];
  }

  function Join(pieces: seq<string>): string
    requires pieces != []
  {
    if |pieces| == 1 then pieces[0] else pieces[0] + ";" + Join(pieces[1..])
  }

  lemma JoinPrepend(prefix: string, pieces: seq<string>)
    requires pieces != []
    ensures Join(Prepend(prefix, pieces)) == prefix + Join(pieces)
  {
    assert Prepend(prefix, pieces)[1..] == pieces[1..];
  }

  /** Splitting loses nothing: the parameters joined by semicolons are the value. */
  lemma {:induction false} ParametersJoin(s: string, quoted: bool, escaped: bool)
    ensures Join(SplitUnquoted(s, quoted, escaped)) == s
  {
    if s != [] {
      assert s == [s[0]] + s[1..];
      if !escaped && s[0] == ';' && !quoted {
        ParametersJoin(s[1..], false, false);
      } else {
        var (q, e) := if escaped then (quoted, false)
                      else if s[0] == '\\' && quoted then (quoted, true)
                      else if s[0] == '"' then (!quoted, false)
                      else (quoted, false);
        ParametersJoin(s[1..], q, e);
        JoinPrepend([s[0]], SplitUnquoted(s[1..], q, e));
      }
    }
  }

  // ----- the `str` methods, in literal terms -----

  /** The same character, or the two cases of one ASCII letter. */
  predicate SameLetter(a: char, b: char) {
    || a == b
    || ('a' <= a <= 'z' && 'A' <= b <= 'Z' && a - b == 'a' - 'A')
    || ('A' <= a <= 'Z' && 'a' <= b <= 'z' && b - a == 'a' - 'A')
  }

  lemma EqIgnoreCaseExactly(a: string, b: string)
    ensures EqIgnoreCase(a, b) <==> |a| == |b| && forall i | 0 <= i < |a| :: SameLetter(a[i], b[i])
  {
    if EqIgnoreCase(a, b) {
      assert |a| == |Lower(a)| == |b|;
      forall i | 0 <= i < |a| ensures SameLetter(a[i], b[i]) {
        assert Lower(a)[i] == Lower(b)[i];
      }
    }
  }

  predicate AllWhite(s: string) {
    forall i | 0 <= i < |s| :: IsWhitespace(s[i])
  }

  lemma {:induction false} TrimsStart(s: string) returns (front: string)
    ensures s == front + TrimStart(s) && AllWhite(front)
    ensures TrimStart(s) != [] ==> !IsWhitespace(TrimStart(s)[0])
  {
    if s != [] && IsWhitespace(s[0]) {
      front := TrimsStart(s[1..]);
      assert s == [s[0]] + s[1..];
      front := [s[0]] + front;
    } else {
      front := [];
    }
  }

  lemma {:induction false} TrimsEnd(s: string) returns (end: string)
    ensures s == TrimEnd(s) + end && AllWhite(end)
    ensures TrimEnd(s) != [] ==> !IsWhitespace(TrimEnd(s)[|TrimEnd(s)| - 1])
    decreases |s|
  {
    if s != [] && IsWhitespace(s[|s| - 1]) {
      var last := s[|s| - 1];
      end := TrimsEnd(s[..|s| - 1]);
      assert s == s[..|s| - 1] + [last];
      end := end + [last];
    } else {
      end := [];
    }
  }

  /** Trimming takes white space off both ends, and all of it. */
  lemma TrimsEnds(s: string) returns (front: string, end: string)
    ensures s == front + Trim(s) + end && AllWhite(front) && AllWhite(end)
    ensures Trim(s) != [] ==> !IsWhitespace(Trim(s)[0]) && !IsWhitespace(Trim(s)[|Trim(s)| - 1])
  {
    front := TrimsStart(s);
    end := TrimsEnd(TrimStart(s));
    hide TrimStart, TrimEnd;
    assert s == front + (Trim(s) + end);
    assert Trim(s) != [] ==> TrimStart(s)[0] == Trim(s)[0];
  }

  /** The code points of the Unicode property `White_Space`. */
  const WHITE_SPACE: seq<int> := [
    0x0009, 0x000A, 0x000B, 0x000C, 0x000D, 0x0020, 0x0085, 0x00A0, 0x1680, 0x2000, 0x2001, 0x2002, 0x2003,
    0x2004, 0x2005, 0x2006, 0x2007, 0x2008, 0x2009, 0x200A, 0x2028, 0x2029, 0x202F, 0x205F, 0x3000]

  lemma IsWhitespaceExactly(c: char)
    ensures IsWhitespace(c) <==> c as int in WHITE_SPACE
  {
    var v := c as int;
    if 9 <= v <= 13 {
      assert WHITE_SPACE[v - 9] == v;
    } else if 0x2000 <= v <= 0x200A {
      assert WHITE_SPACE[9 + (v - 0x2000)] == v;
    } else if IsWhitespace(c) {
      assert v == WHITE_SPACE[5] || v == WHITE_SPACE[6] || v == WHITE_SPACE[7] || v == WHITE_SPACE[8]
          || v == WHITE_SPACE[20] || v == WHITE_SPACE[21] || v == WHITE_SPACE[22] || v == WHITE_SPACE[23]
          || v == WHITE_SPACE[24];
    }
  }

  // ----- quoted strings -----

  function Following(prefix: string, rest: Option<string>): Option<string> {
    match rest
    case None => None
    case Some(t) => Some(prefix + t)
  }

  lemma FollowingAppends(a: string, b: string, rest: Option<string>)
    ensures Following(a, Following(b, rest)) == Following(a + b, rest)
    ensures Following([], rest) == rest
  {
    if rest.Some? {
      assert a + (b + rest.value) == (a + b) + rest.value;
      assert [] + rest.value == rest.value;
    }
  }

  /** Drops the backslash of every escape; a trailing lone backslash is an error. */
  function Unescape(s: string): Option<string> {
    if s == [] then Some([])
    else if s[0] == '\\' then
      if |s| == 1 then None else Following([s[1]], Unescape(s[2..]))
    else
      Following([s[0]], Unescape(s[1..]))
  }

  function Unquote(value: string): Option<string> {
    if value != [] && value[0] == '"' then
      if |value| >= 2 && value[|value| - 1] == '"' then Unescape(value[1..|value| - 1]) else None
    else Some(value)
  }

  /** `unquote_header_value`. */
  method UnquoteHeaderValue(value: string) returns (r: Option<string>)
    ensures r == Unquote(value)
  {
    if value == [] || value[0] != '"' {
      return Some(value);
    }
    if |value| < 2 || value[|value| - 1] != '"' {
      return None;
    }
    var inner := value[1..|value| - 1];
    var output, escaped := [], false;
    assert inner[0..] == inner;
    FollowingAppends([], [], Unescape(inner));
    for index := 0 to |inner|
      invariant escaped ==> 0 < index && inner[index - 1] == '\\'
      invariant Unescape(inner) == Following(output, Unescape(inner[if escaped then index - 1 else index..]))
    {
      var character := inner[index];
      FollowingAppends(output, [character], Unescape(inner[index + 1..]));
      if escaped {
        assert inner[index - 1..][2..] == inner[index + 1..];
        output := output + [character];
        escaped := false;
      } else if character == '\\' {
        escaped := true;
      } else {
        assert inner[index..][1..] == inner[index + 1..];
        output := output + [character];
      }
    }
    if escaped {
      assert inner[|inner| - 1..] == ['\\'];
      return None;
    }
    assert inner[|inner|..] == [];
    assert output + [] == output;
    r := Some(output);
  }

  /** `inner` stands for `text`: every character for itself or behind a backslash, a backslash always behind one. */
  ghost predicate StandsInQuotes(inner: string, text: string)
    decreases |text|
  {
    if text == "" then inner == ""
    else
      || (|inner| >= 1 && inner[0] != '\\' && inner[0] == text[0] && StandsInQuotes(inner[1..], text[1..]))
      || (|inner| >= 2 && inner[0] == '\\' && inner[1] == text[0] && StandsInQuotes(inner[2..], text[1..]))
  }

  lemma {:induction false} UnescapeExactly(inner: string, text: string)
    ensures Unescape(inner) == Some(text) <==> StandsInQuotes(inner, text)
    decreases |inner|
  {
    if inner != [] && text != [] {
      assert text == [text[0]] + text[1..];
      if inner[0] != '\\' {
        UnescapeExactly(inner[1..], text[1..]);
      } else if |inner| >= 2 {
        UnescapeExactly(inner[2..], text[1..]);
      }
    }
  }

  /** A value is a token, which starts with no quote and stands for itself, or stands between two quotes. */
  lemma UnquoteExactly(value: string, text: string)
    ensures Unquote(value) == Some(text) <==>
              if value == "" || value[0] != '"' then value == text
              else |value| >= 2 && value[|value| - 1] == '"' && StandsInQuotes(value[1..|value| - 1], text)
  {
    if |value| >= 2 {
      UnescapeExactly(value[1..|value| - 1], text);
    }
    hide Unescape, StandsInQuotes;
  }

  function Escape(s: string): string {
    if s == [] then []
    else (if s[0] == '\\' || s[0] == '"' then ['\\', s[0]] else [s[0]]) + Escape(s[1..])
  }

  /** The quoted-string form of `s`. */
  function Quote(s: string): string {
    "\"" + Escape(s) + "\""
  }

  lemma {:induction false} UnescapeEscaped(s: string)
    ensures Unescape(Escape(s)) == Some(s)
  {
    if s != [] {
      UnescapeEscaped(s[1..]);
      if s[0] == '\\' || s[0] == '"' {
        assert Escape(s)[2..] == Escape(s[1..]);
        assert Unescape(Escape(s)) == Following([s[0]], Some(s[1..]));
      } else {
        assert Escape(s)[1..] == Escape(s[1..]);
      }
      assert s == [s[0]] + s[1..];
    }
  }

  /** Quoting is undone by `unquote_header_value`. */
  lemma UnquoteQuoted(s: string)
    ensures Unquote(Quote(s)) == Some(s)
  {
    UnescapeEscaped(s);
    assert Quote(s)[1..|Quote(s)| - 1] == Escape(s);
  }

  // ----- one part's headers -----

  /** What the lines read so far have set; a later line overwrites an earlier one. */
  datatype Draft = Draft(name: Option<string>, fileName: Option<string>, contentType: Option<string>)

  const EMPTY_DRAFT := Draft(None, None, None)

  function ApplyParameter(draft: Draft, parameter: string): Draft {
    match SplitOnce(parameter, '=')
    case None => draft
    case Some((name, value)) =>
      if EqIgnoreCase(Trim(name), "name") then draft.(name := Unquote(Trim(value)))
      else if EqIgnoreCase(Trim(name), "filename") then draft.(fileName := Unquote(Trim(value)))
      else draft
  }

  function ApplyParameters(draft: Draft, parameters: seq<string>): Draft
    decreases |parameters|
  {
    if parameters == [] then draft
    else ApplyParameters(ApplyParameter(draft, parameters[0]), parameters[1..])
  }

  function ApplyLine(draft: Draft, line: string): Result<Draft, string> {
    match SplitOnce(line, ':')
    case None => Err("multipart part header is malformed")
    case Some((name, value)) =>
      if EqIgnoreCase(name, "content-disposition") then
        var parameters := Parameters(value);
        if !EqIgnoreCase(Trim(parameters[0]), "form-data") then
          Err("multipart Content-Disposition must be form-data")
        else Ok(ApplyParameters(draft, parameters[1..]))
      else if EqIgnoreCase(name, "content-type") then Ok(draft.(contentType := Some(Trim(value))))
      else Ok(draft)
  }

  function ApplyLines(draft: Draft, lines: seq<string>): Result<Draft, string>
    decreases |lines|
  {
    if lines == [] then Ok(draft)
    else
      match ApplyLine(draft, lines[0])
      case Err(error) => Err(error)
      case Ok(next) => ApplyLines(next, lines[1..])
  }

  function HeadersOf(text: string): Result<PartHeaders, string> {
    match ApplyLines(EMPTY_DRAFT, Lines(text))
    case Err(error) => Err(error)
    case Ok(draft) =>
      if draft.name.None? || draft.name.value == [] then Err("multipart part has no field name")
      else Ok(PartHeaders(draft.name.value, draft.fileName, draft.contentType))
  }

  /** A header block as bytes: decoded, then parsed. */
  function HeadersOfBytes(block: bytes): Result<PartHeaders, string> {
    match Utf8.Decode(block)
    case None => Err("multipart part headers are not valid UTF-8")
    case Some(text) => HeadersOf(text)
  }

  /** A block that is the UTF-8 form of a text is read as that text; any other block is refused. */
  lemma BlockExactly(block: bytes, text: string)
    ensures block == Utf8.Encode(text) ==> HeadersOfBytes(block) == HeadersOf(text)
    ensures (forall other :: Utf8.Encode(other) != block) ==>
              HeadersOfBytes(block) == Err("multipart part headers are not valid UTF-8")
  {
    Utf8.DecodeInvertsEncode(block, text);
    if Utf8.Decode(block).Some? {
      Utf8.DecodeInvertsEncode(block, Utf8.Decode(block).value);
    }
    hide HeadersOf, Utf8.Encode, Utf8.Decode;
  }

  // ----- what a block of headers means, by its lines -----

  /** The text before the first colon, and after it. */
  function FieldName(line: string): string
    requires ':' in line
  {
    SplitOnceExactly(line, ':');
    SplitOnce(line, ':').value.0
  }

  function FieldValue(line: string): string
    requires ':' in line
  {
    SplitOnceExactly(line, ':');
    SplitOnce(line, ':').value.1
  }

  predicate IsField(line: string, name: string) {
    ':' in line && EqIgnoreCase(FieldName(line), name)
  }

  /** A line without a colon, or a disposition that is not `form-data`. */
  predicate Wrong(line: string) {
    || ':' !in line
    || (IsField(line, "content-disposition") && !EqIgnoreCase(Trim(Parameters(FieldValue(line))[0]), "form-data"))
  }

  /** What the parameters named `key` are set to, in order; a value whose quotes are broken sets nothing. */
  function AssignedBy(parameters: seq<string>, key: string): seq<Option<string>> {
    if parameters == [] then []
    else
      var pair := SplitOnce(parameters[0], '=');
      (if pair.Some? && EqIgnoreCase(Trim(pair.value.0), key) then [Unquote(Trim(pair.value.1))] else [])
      + AssignedBy(parameters[1..], key)
  }

  /** The same over the dispositions of all lines; the disposition's own first part is no parameter. */
  function Assigned(lines: seq<string>, key: string): seq<Option<string>> {
    if lines == [] then []
    else
      (if IsField(lines[0], "content-disposition") then AssignedBy(Parameters(FieldValue(lines[0]))[1..], key) else [])
      + Assigned(lines[1..], key)
  }

  function Types(lines: seq<string>): seq<Option<string>> {
    if lines == [] then []
    else
      (if IsField(lines[0], "content-type") then [Some(Trim(FieldValue(lines[0])))] else []) + Types(lines[1..])
  }

  /** The last of what was set, or else what there was. */
  function Latest(sets: seq<Option<string>>, before: Option<string>): Option<string> {
    if sets == [] then before else sets[|sets| - 1]
  }

  lemma LatestAppends(first: seq<Option<string>>, second: seq<Option<string>>, before: Option<string>)
    ensures Latest(first + second, before) == Latest(second, Latest(first, before))
  {
  }

  /**
   The first wrong line decides; without one, the last name set, if it is not empty, makes a part, with
   the last file name and media type set; all other lines and parameters are ignored.
   */
  ghost predicate HeadersMean(lines: seq<string>, r: Result<PartHeaders, string>) {
    if exists i | 0 <= i < |lines| :: Wrong(lines[i]) then
      exists i | 0 <= i < |lines| ::
        && Wrong(lines[i]) && (forall j | 0 <= j < i :: !Wrong(lines[j]))
        && r == Err(if ':' in lines[i] then "multipart Content-Disposition must be form-data"
                    else "multipart part header is malformed")
    else
      var name := Latest(Assigned(lines, "name"), None);
      if name.None? || name.value == [] then r == Err("multipart part has no field name")
      else r == Ok(PartHeaders(name.value, Latest(Assigned(lines, "filename"), None), Latest(Types(lines), None)))
  }

  lemma KeysDiffer(s: string)
    ensures !(EqIgnoreCase(s, "name") && EqIgnoreCase(s, "filename"))
    ensures !(EqIgnoreCase(s, "content-disposition") && EqIgnoreCase(s, "content-type"))
  {
    assert |Lower("name")| != |Lower("filename")|;
    assert |Lower("content-disposition")| != |Lower("content-type")|;
  }

  lemma {:induction false} ParametersMean(draft: Draft, parameters: seq<string>)
    ensures ApplyParameters(draft, parameters)
            == Draft(Latest(AssignedBy(parameters, "name"), draft.name),
                     Latest(AssignedBy(parameters, "filename"), draft.fileName), draft.contentType)
    decreases |parameters|
  {
    hide Trim, Unquote, SplitOnce, EqIgnoreCase;
    if parameters != [] {
      ParametersMean(ApplyParameter(draft, parameters[0]), parameters[1..]);
      var pair := SplitOnce(parameters[0], '=');
      if pair.Some? {
        KeysDiffer(Trim(pair.value.0));
        LatestAppends([Unquote(Trim(pair.value.1))], AssignedBy(parameters[1..], "name"), draft.name);
        LatestAppends([Unquote(Trim(pair.value.1))], AssignedBy(parameters[1..], "filename"), draft.fileName);
      }
    }
  }

  lemma LineMeans(draft: Draft, line: string)
    ensures match ApplyLine(draft, line)
            case Err(error) =>
              && Wrong(line)
              && error == if ':' in line then "multipart Content-Disposition must be form-data"
                          else "multipart part header is malformed"
            case Ok(next) =>
              && !Wrong(line)
              && next == Draft(Latest(Assigned([line], "name"), draft.name),
                               Latest(Assigned([line], "filename"), draft.fileName), Latest(Types([line]), draft.contentType))
  {
    hide Trim, EqIgnoreCase, AssignedBy, Parameters;
    SplitOnceExactly(line, ':');
    assert Assigned([], "name") == [] && Assigned([], "filename") == [] && Types([]) == [];
    if ':' in line {
      KeysDiffer(FieldName(line));
      var parameters := Parameters(FieldValue(line));
      ParametersMean(draft, parameters[1..]);
      assert AssignedBy(parameters[1..], "name") + [] == AssignedBy(parameters[1..], "name");
      assert AssignedBy(parameters[1..], "filename") + [] == AssignedBy(parameters[1..], "filename");
    }
  }

  lemma AssignedFront(lines: seq<string>, key: string)
    requires lines != []
    ensures Assigned(lines, key) == Assigned([lines[0]], key) + Assigned(lines[1..], key)
    ensures Types(lines) == Types([lines[0]]) + Types(lines[1..])
  {
    hide IsField, FieldValue, AssignedBy;
    assert Assigned([], key) == [] && Types([]) == [];
  }

  ghost predicate LinesMean(draft: Draft, lines: seq<string>, r: Result<Draft, string>) {
    if exists i | 0 <= i < |lines| :: Wrong(lines[i]) then
      exists i | 0 <= i < |lines| ::
        && Wrong(lines[i]) && (forall j | 0 <= j < i :: !Wrong(lines[j]))
        && r == Err(if ':' in lines[i] then "multipart Content-Disposition must be form-data"
                    else "multipart part header is malformed")
    else
      r == Ok(Draft(Latest(Assigned(lines, "name"), draft.name),
                    Latest(Assigned(lines, "filename"), draft.fileName), Latest(Types(lines), draft.contentType)))
  }

  lemma {:induction false} AllLinesMean(draft: Draft, lines: seq<string>)
    ensures LinesMean(draft, lines, ApplyLines(draft, lines))
    decreases |lines|
  {
    hide Wrong, ApplyLine, Assigned, Types;
    if lines == [] {
      assert Assigned([], "name") == [] && Assigned([], "filename") == [] && Types([]) == [] by {
        NothingAssigned();
      }
    } else {
      LineMeans(draft, lines[0]);
      var first := ApplyLine(draft, lines[0]);
      if first.Ok? {
        AllLinesMean(first.value, lines[1..]);
        AssignedFront(lines, "name");
        AssignedFront(lines, "filename");
        LatestAppends(Assigned([lines[0]], "name"), Assigned(lines[1..], "name"), draft.name);
        LatestAppends(Assigned([lines[0]], "filename"), Assigned(lines[1..], "filename"), draft.fileName);
        LatestAppends(Types([lines[0]]), Types(lines[1..]), draft.contentType);
        assert forall i | 1 <= i < |lines| :: lines[i] == lines[1..][i - 1];
        assert forall i | 0 <= i < |lines| - 1 :: lines[1..][i] == lines[i + 1];
      }
    }
  }

  lemma NothingAssigned()
    ensures Assigned([], "name") == [] && Assigned([], "filename") == [] && Types([]) == []
  {
  }

  lemma HeadersByLines(text: string)
    ensures HeadersMean(Lines(text), HeadersOf(text))
  {
    AllLinesMean(EMPTY_DRAFT, Lines(text));
    hide Wrong, ApplyLines, Assigned, Types;
  }

  /** Lines are what line breaks separate. */
  lemma {:induction false} LinesConcat(before: string, after: string)
    ensures Lines(before + "\r\n" + after) == Lines(before) + Lines(after)
    decreases |before|
  {
    var all := before + "\r\n" + after;
    if before == [] {
      assert all[2..] == after;
    } else if |before| >= 2 && before[0] == '\r' && before[1] == '\n' {
      assert all[2..] == before[2..] + "\r\n" + after;
      LinesConcat(before[2..], after);
    } else {
      assert all[1..] == before[1..] + "\r\n" + after;
      LinesConcat(before[1..], after);
    }
  }

  lemma {:induction false} LinesOfOne(line: string)
    requires forall i | 0 <= i < |line| - 1 :: !(line[i] == '\r' && line[i + 1] == '\n')
    ensures Lines(line) == [line]
    decreases |line|
  {
    if line != [] {
      LinesOfOne(line[1..]);
      assert [line[0]] + line[1..] == line;
    }
  }

  /** A header of any other name never makes a difference. */
  lemma OtherHeaderIgnored(before: seq<string>, line: string, after: seq<string>, draft: Draft)
    requires ':' in line && !IsField(line, "content-disposition") && !IsField(line, "content-type")
    ensures ApplyLines(draft, before + [line] + after) == ApplyLines(draft, before + after)
    decreases |before|
  {
    hide EqIgnoreCase, Trim, Parameters, ApplyParameters;
    if before == [] {
      assert [] + after == after && ([] + [line] + after)[1..] == after;
      SplitOnceExactly(line, ':');
    } else {
      assert (before + [line] + after)[1..] == before[1..] + [line] + after;
      assert (before + after)[1..] == before[1..] + after;
      var first := ApplyLine(draft, before[0]);
      hide ApplyLine;
      if first.Ok? {
        OtherHeaderIgnored(before[1..], line, after, first.value);
      }
    }
  }

  lemma SameHeaders(text: string, other: string)
    requires ApplyLines(EMPTY_DRAFT, Lines(text)) == ApplyLines(EMPTY_DRAFT, Lines(other))
    ensures HeadersOf(text) == HeadersOf(other)
  {
    hide Lines, ApplyLines;
  }

  /** In a block of headers: in front, in the middle and at the end. */
  lemma OtherHeader(before: string, line: string, after: string)
    requires ':' in line && !IsField(line, "content-disposition") && !IsField(line, "content-type")
    requires forall i | 0 <= i < |line| - 1 :: !(line[i] == '\r' && line[i + 1] == '\n')
    ensures HeadersOf(before + "\r\n" + line + "\r\n" + after) == HeadersOf(before + "\r\n" + after)
    ensures HeadersOf(line + "\r\n" + after) == HeadersOf(after)
    ensures HeadersOf(before + "\r\n" + line) == HeadersOf(before)
  {
    LinesOfOne(line);
    hide *;
    assert HeadersOf(before + "\r\n" + line + "\r\n" + after) == HeadersOf(before + "\r\n" + after) by {
      assert before + "\r\n" + line + "\r\n" + after == before + "\r\n" + (line + "\r\n" + after);
      LinesConcat(before, line + "\r\n" + after);
      LinesConcat(line, after);
      LinesConcat(before, after);
      OtherHeaderIgnored(Lines(before), line, Lines(after), EMPTY_DRAFT);
      assert Lines(before) + ([line] + Lines(after)) == Lines(before) + [line] + Lines(after);
      SameHeaders(before + "\r\n" + line + "\r\n" + after, before + "\r\n" + after);
    }
    assert HeadersOf(line + "\r\n" + after) == HeadersOf(after) by {
      LinesConcat(line, after);
      OtherHeaderIgnored([], line, Lines(after), EMPTY_DRAFT);
      assert [] + [line] + Lines(after) == [line] + Lines(after) && [] + Lines(after) == Lines(after);
      SameHeaders(line + "\r\n" + after, after);
    }
    assert HeadersOf(before + "\r\n" + line) == HeadersOf(before) by {
      LinesConcat(before, line);
      OtherHeaderIgnored(Lines(before), line, [], EMPTY_DRAFT);
      assert Lines(before) + [line] + [] == Lines(before) + [line] && Lines(before) + [] == Lines(before);
      SameHeaders(before + "\r\n" + line, before);
    }
  }

  /** `multipart_part_headers`. */
  method MultipartPartHeaders(headers: string) returns (r: Result<PartHeaders, string>)
    ensures r == HeadersOf(headers) && HeadersMean(Lines(headers), r)
  {
    HeadersByLines(headers);
    hide HeadersMean;
    var lines := Lines(headers);
    var draft := EMPTY_DRAFT;
    for index := 0 to |lines|
      invariant ApplyLines(EMPTY_DRAFT, lines) == ApplyLines(draft, lines[index..])
    {
      assert lines[index..][1..] == lines[index + 1..];
      var split := SplitOnce(lines[index], ':');
      if split.None? {
        return Err("multipart part header is malformed");
      }
      var (name, value) := split.value;
      if EqIgnoreCase(name, "content-disposition") {
        var parameters := HeaderParameters(value);
        if !EqIgnoreCase(Trim(parameters[0]), "form-data") {
          return Err("multipart Content-Disposition must be form-data");
        }
        var before := draft;
        for at := 1 to |parameters|
          invariant ApplyParameters(before, parameters[1..]) == ApplyParameters(draft, parameters[at..])
        {
          assert parameters[at..][1..] == parameters[at + 1..];
          var pair := SplitOnce(parameters[at], '=');
          if pair.Some? {
            var (parameterName, parameterValue) := pair.value;
            if EqIgnoreCase(Trim(parameterName), "name") {
              var unquoted := UnquoteHeaderValue(Trim(parameterValue));
              draft := draft.(name := unquoted);
            } else if EqIgnoreCase(Trim(parameterName), "filename") {
              var unquoted := UnquoteHeaderValue(Trim(parameterValue));
              draft := draft.(fileName := unquoted);
            }
          }
        }
      } else if EqIgnoreCase(name, "content-type") {
        draft := draft.(contentType := Some(Trim(value)));
      }
    }
    if draft.name.None? || draft.name.value == [] {
      return Err("multipart part has no field name");
    }
    r := Ok(PartHeaders(draft.name.value, draft.fileName, draft.contentType));
  }

  // ----- the boundary parameter -----

  /** The 1 to 70 printable non-space characters a boundary may have. */
  predicate ValidBoundary(boundary: string) {
    1 <= |boundary| <= 70 && forall c | c in boundary :: ' ' < c && c as int < 127
  }

  function BoundaryAmong(parameters: seq<string>): (r: Option<string>)
    ensures r.Some? ==> ValidBoundary(r.value)
  {
    if parameters == [] then None
    else
      match SplitOnce(parameters[0], '=')
      case None => None
      case Some((name, value)) =>
        if !EqIgnoreCase(Trim(name), "boundary") then BoundaryAmong(parameters[1..])
        else if Unquote(Trim(value)).Some? && ValidBoundary(Unquote(Trim(value)).value) then Unquote(Trim(value))
        else None
  }

  function BoundaryOf(contentType: string): (r: Option<string>)
    ensures r.Some? ==> ValidBoundary(r.value)
  {
    var parameters := Parameters(contentType);
    if EqIgnoreCase(Trim(parameters[0]), "multipart/form-data") then BoundaryAmong(parameters[1..]) else None
  }

  /** Parameter `k` is the first named `boundary`, all before it are parameters, and it is a boundary. */
  ghost predicate BoundaryAt(parameters: seq<string>, k: nat, boundary: string) {
    && k < |parameters|
    && (forall j | 0 <= j < k :: HasKey(parameters[j]) && !KeyIs(parameters[j], "boundary"))
    && HasKey(parameters[k]) && KeyIs(parameters[k], "boundary")
    && Unquote(Trim(SplitOnce(parameters[k], '=').value.1)) == Some(boundary)
    && 1 <= |boundary| <= 70 && forall i | 0 <= i < |boundary| :: '!' <= boundary[i] <= '~'
  }

  predicate HasKey(parameter: string) {
    SplitOnce(parameter, '=').Some?
  }

  predicate KeyIs(parameter: string, key: string)
    requires HasKey(parameter)
  {
    EqIgnoreCase(Trim(SplitOnce(parameter, '=').value.0), key)
  }

  lemma {:induction false} BoundaryThere(parameters: seq<string>, k: nat, boundary: string)
    requires BoundaryAt(parameters, k, boundary)
    ensures BoundaryAmong(parameters) == Some(boundary)
    decreases k
  {
    hide EqIgnoreCase, Trim, Unquote, SplitOnce;
    if k > 0 {
      assert HasKey(parameters[0]) && !KeyIs(parameters[0], "boundary");
      assert forall j | 0 <= j < k - 1 :: parameters[1..][j] == parameters[j + 1];
      BoundaryThere(parameters[1..], k - 1, boundary);
    }
  }

  lemma {:induction false} BoundaryFound(parameters: seq<string>) returns (k: nat)
    requires BoundaryAmong(parameters).Some?
    ensures BoundaryAt(parameters, k, BoundaryAmong(parameters).value)
  {
    hide EqIgnoreCase, Trim, Unquote, SplitOnce;
    assert forall i | 0 <= i < |BoundaryAmong(parameters).value| ::
        BoundaryAmong(parameters).value[i] in BoundaryAmong(parameters).value;
    if KeyIs(parameters[0], "boundary") {
      k := 0;
    } else {
      k := BoundaryFound(parameters[1..]);
      k := k + 1;
      assert forall j | 1 <= j < k :: parameters[j] == parameters[1..][j - 1];
    }
  }

  /** The boundary is that of the first parameter named so; the media type must be the form's. */
  lemma BoundaryExactly(contentType: string, boundary: string)
    ensures BoundaryOf(contentType) == Some(boundary) <==>
              && EqIgnoreCase(Trim(Parameters(contentType)[0]), "multipart/form-data")
              && exists k: nat :: BoundaryAt(Parameters(contentType)[1..], k, boundary)
  {
    hide Parameters, EqIgnoreCase, Trim, BoundaryAt, BoundaryAmong;
    var parameters := Parameters(contentType)[1..];
    if BoundaryAmong(parameters) == Some(boundary) {
      var k := BoundaryFound(parameters);
    }
    if k: nat :| BoundaryAt(parameters, k, boundary) {
      BoundaryThere(parameters, k, boundary);
    }
  }

  /** `multipart_boundary`. */
  method MultipartBoundary(contentType: string) returns (r: Option<string>)
    ensures r == BoundaryOf(contentType)
  {
    var parameters := HeaderParameters(contentType);
    if !EqIgnoreCase(Trim(parameters[0]), "multipart/form-data") {
      return None;
    }
    for index := 1 to |parameters|
      invariant BoundaryAmong(parameters[1..]) == BoundaryAmong(parameters[index..])
    {
      assert parameters[index..][1..] == parameters[index + 1..];
      var split := SplitOnce(parameters[index], '=');
      if split.None? {
        return None;
      }
      var (name, value) := split.value;
      if EqIgnoreCase(Trim(name), "boundary") {
        var boundary := UnquoteHeaderValue(Trim(value));
        if boundary.None? || boundary.value == [] || |boundary.value| > 70
           || exists c | c in boundary.value :: c <= ' ' || c as int >= 127 {
          return None;
        }
        return boundary;
      }
    }
    r := None;
  }
}
