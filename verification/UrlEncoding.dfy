/**
 Percent-encoding of request targets: what dispatch validates once, and what path parameters and
 query values rely on afterwards. Section 2.1 of RFC 3986; section 4 of RFC 3629 for the decoded
 bytes.
 */
module UrlEncoding {
  import opened Wrappers
  import opened Bytes
  import opened Utf8
  import opened RouteShapes

  const PERCENT: byte := 37
  const PLUS: byte := 43
  const SPACE: byte := 32
  const QUESTION: byte := 63
  const AMPERSAND: byte := 38
  const EQUALS: byte := 61

  function HexValue(b: byte): (digit: Option<int>)
    ensures digit.Some? ==> 0 <= digit.value < 16
  {
    if 48 <= b <= 57 then Some(b as int - 48)
    else if 97 <= b <= 102 then Some(b as int - 87)
    else if 65 <= b <= 70 then Some(b as int - 55)
    else None
  }

  /** The byte an escape at the front of `value` stands for. */
  function Escape(value: bytes): Option<byte> {
    if |value| < 3 || HexValue(value[1]).None? || HexValue(value[2]).None? then None
    else Some(16 * HexValue(value[1]).value + HexValue(value[2]).value)
  }

  function PercentDecode(value: bytes, plusAsSpace: bool): Option<bytes> {
    if value == [] then Some([])
    else if value[0] == PERCENT then
      match Escape(value)
      case None => None
      case Some(b) => Prepend(b, PercentDecode(value[3..], plusAsSpace))
    else Prepend(if value[0] == PLUS && plusAsSpace then SPACE else value[0], PercentDecode(value[1..], plusAsSpace))
  }

  function Prepend(b: byte, rest: Option<bytes>): Option<bytes> {
    match rest
    case None => None
    case Some(tail) => Some([b] + tail)
  }

  /** The text a component stands for. */
  function Decoded(value: bytes, plusAsSpace: bool): Option<string> {
    match PercentDecode(value, plusAsSpace)
    case None => None
    case Some(plain) => Decode(plain)
  }

  /** The uppercase hexadecimal digit that section 2.1 of RFC 3986 asks producers to use. */
  function HexDigit(digit: int): (b: byte)
    requires 0 <= digit < 16
    ensures HexValue(b) == Some(digit)
  {
    if digit < 10 then 48 + digit else 55 + digit
  }

  /** Every byte as an escape. */
  function PercentEncode(plain: bytes): bytes {
    if plain == [] then []
    else [PERCENT, HexDigit(plain[0] as int / 16), HexDigit(plain[0] as int % 16)] + PercentEncode(plain[1..])
  }

  /** Decoding inverts encoding, for any bytes. */
  lemma {:induction false} DecodeInvertsPercentEncode(plain: bytes, plusAsSpace: bool)
    ensures PercentDecode(PercentEncode(plain), plusAsSpace) == Some(plain)
  {
    if plain != [] {
      var encoded := PercentEncode(plain);
      assert encoded[3..] == PercentEncode(plain[1..]);
      DecodeInvertsPercentEncode(plain[1..], plusAsSpace);
      assert Escape(encoded) == Some(plain[0]);
      assert plain == [plain[0]] + plain[1..];
    }
  }

  // ----- what decoding accepts, in literal characters -----

  predicate IsChar(b: byte, c: char) {
    b as int == c as int
  }

  predicate HexOf(b: byte, digit: int)
    requires 0 <= digit < 16
  {
    IsChar(b, "0123456789abcdef"[digit]) || IsChar(b, "0123456789ABCDEF"[digit])
  }

  lemma HexValueExactly(b: byte, digit: int)
    requires 0 <= digit < 16
    ensures HexValue(b) == Some(digit) <==> HexOf(b, digit)
  {
  }

  /** A single byte stands for itself, or a plus for a space in a form. */
  predicate StandsFor(b: byte, plain: byte, form: bool) {
    || (b == plain && !IsChar(b, '%') && (form ==> !IsChar(b, '+')))
    || (form && IsChar(b, '+') && IsChar(plain, ' '))
  }

  /** A percent sign and two digits stand for the byte of that value. */
  ghost predicate EscapeFor(piece: bytes, plain: byte) {
    && |piece| == 3 && IsChar(piece[0], '%')
    && exists high, low | 0 <= high < 16 && 0 <= low < 16 ::
         HexOf(piece[1], high) && HexOf(piece[2], low) && plain as int == 16 * high + low
  }

  /** `value` is `plain`, byte by byte, each written one way or another. */
  ghost predicate Spells(value: bytes, plain: bytes, form: bool)
    decreases |plain|
  {
    if plain == [] then value == []
    else
      || (|value| >= 1 && StandsFor(value[0], plain[0], form) && Spells(value[1..], plain[1..], form))
      || (|value| >= 3 && EscapeFor(value[..3], plain[0]) && Spells(value[3..], plain[1..], form))
  }

  lemma EscapeExactly(value: bytes, b: byte)
    requires |value| >= 3
    ensures value[0] == PERCENT && Escape(value) == Some(b) <==> EscapeFor(value[..3], b)
  {
    forall digit | 0 <= digit < 16
      ensures HexValue(value[1]) == Some(digit) <==> HexOf(value[1], digit)
      ensures HexValue(value[2]) == Some(digit) <==> HexOf(value[2], digit)
    {
      HexValueExactly(value[1], digit);
      HexValueExactly(value[2], digit);
    }
    hide HexValue, HexOf;
    if value[0] == PERCENT && Escape(value) == Some(b) {
      var high, low := HexValue(value[1]).value, HexValue(value[2]).value;
      assert HexOf(value[..3][1], high) && HexOf(value[..3][2], low);
    }
  }

  lemma StandsExactly(b: byte, plain: byte, form: bool)
    ensures b != PERCENT && plain == (if b == PLUS && form then SPACE else b) <==> StandsFor(b, plain, form)
  {
  }

  /** Decoding yields exactly what the text spells; a text that spells nothing is refused. */
  lemma {:induction false} DecodesSpelling(value: bytes, plain: bytes, form: bool)
    ensures PercentDecode(value, form) == Some(plain) <==> Spells(value, plain, form)
    decreases |value|
  {
    hide Escape, StandsFor, EscapeFor;
    if value != [] && plain != [] {
      assert plain == [plain[0]] + plain[1..];
      StandsExactly(value[0], plain[0], form);
      DecodesSpelling(value[1..], plain[1..], form);
      if |value| >= 3 {
        EscapeExactly(value, plain[0]);
        DecodesSpelling(value[3..], plain[1..], form);
      } else {
        ShortEscape(value);
      }
    }
  }

  lemma ShortEscape(value: bytes)
    requires |value| < 3
    ensures Escape(value).None?
  {
  }

  lemma {:induction false} Untouched(value: bytes, plusAsSpace: bool)
    requires PERCENT !in value && (plusAsSpace ==> PLUS !in value)
    ensures PercentDecode(value, plusAsSpace) == Some(value)
  {
    if value != [] {
      assert value[0] in value;
      Untouched(value[1..], plusAsSpace);
      assert value == [value[0]] + value[1..];
    }
  }

  /** `decode_url_component`, with its shortcut for components that need no decoding. */
  method DecodeUrlComponent(value: bytes, plusAsSpace: bool) returns (text: Option<string>)
    requires Decode(value).Some?
    ensures text == Decoded(value, plusAsSpace)
  {
    hide Decode, PercentDecode, Before, Prepend;
    if PERCENT !in value && (!plusAsSpace || PLUS !in value) {
      Untouched(value, plusAsSpace);
      return Decode(value);
    }
    var decoded: bytes := [];
    var index := 0;
    assert value[0..] == value;
    PutBefore([], PercentDecode(value, plusAsSpace));
    while index < |value|
      invariant 0 <= index <= |value|
      invariant PercentDecode(value, plusAsSpace) == Before(decoded, PercentDecode(value[index..], plusAsSpace))
    {
      ghost var rest := value[index..];
      var b := value[index];
      DecodeStep(rest, plusAsSpace);
      if b == PERCENT {
        NothingBefore(decoded);
        if index + 1 >= |value| || HexValue(value[index + 1]).None? {
          return None;
        }
        if index + 2 >= |value| || HexValue(value[index + 2]).None? {
          return None;
        }
        var plain := 16 * HexValue(value[index + 1]).value + HexValue(value[index + 2]).value;
        assert rest[3..] == value[index + 3..];
        BeforePrepend(decoded, plain, PercentDecode(value[index + 3..], plusAsSpace));
        decoded := decoded + [plain];
        index := index + 3;
      } else {
        var plain := if b == PLUS && plusAsSpace then SPACE else b;
        assert rest[1..] == value[index + 1..];
        BeforePrepend(decoded, plain, PercentDecode(value[index + 1..], plusAsSpace));
        decoded := decoded + [plain];
        index := index + 1;
      }
    }
    assert value[index..] == [];
    NothingToDecode(plusAsSpace);
    PutBefore(decoded, Some([]));
    return Decode(decoded);
  }

  function Before(front: bytes, rest: Option<bytes>): Option<bytes> {
    match rest
    case None => None
    case Some(tail) => Some(front + tail)
  }

  lemma NothingToDecode(plusAsSpace: bool)
    ensures PercentDecode([], plusAsSpace) == Some([])
  {
  }

  lemma NothingBefore(front: bytes)
    ensures Before(front, None) == None
  {
  }

  lemma PutBefore(front: bytes, rest: Option<bytes>)
    ensures Before([], rest) == rest && Before(front, Some([])) == Some(front)
  {
    assert front + [] == front;
    assert rest.Some? ==> [] + rest.value == rest.value;
  }

  lemma BeforePrepend(front: bytes, b: byte, rest: Option<bytes>)
    ensures Before(front, Prepend(b, rest)) == Before(front + [b], rest)
  {
    assert rest.Some? ==> front + ([b] + rest.value) == front + [b] + rest.value;
  }

  lemma DecodeStep(value: bytes, plusAsSpace: bool)
    requires value != []
    ensures PercentDecode(value, plusAsSpace)
            == if value[0] == PERCENT then
                 match Escape(value)
                 case None => None
                 case Some(b) => Prepend(b, PercentDecode(value[3..], plusAsSpace))
               else
                 Prepend(if value[0] == PLUS && plusAsSpace then SPACE else value[0],
                         PercentDecode(value[1..], plusAsSpace))
  {
  }

  // ----- a slash splits no escape and no character -----

  /** A byte that no escape contains and that decodes to itself. */
  predicate Separator(mark: byte) {
    mark != PERCENT && mark != PLUS && HexValue(mark).None?
  }

  lemma {:induction false} EscapesApart(a: bytes, mark: byte, b: bytes, plusAsSpace: bool)
    requires Separator(mark)
    ensures var left, right := PercentDecode(a, plusAsSpace), PercentDecode(b, plusAsSpace);
            PercentDecode(a + [mark] + b, plusAsSpace)
            == if left.Some? && right.Some? then Some(left.value + [mark] + right.value) else None
    decreases |a|
  {
    var whole := a + [mark] + b;
    DecodeStep(whole, plusAsSpace);
    if a == [] {
      assert whole[1..] == b;
      var right := PercentDecode(b, plusAsSpace);
      assert PercentDecode(a, plusAsSpace) == Some([]);
      assert right.Some? ==> [] + [mark] + right.value == [mark] + right.value;
    } else {
      DecodeStep(a, plusAsSpace);
      hide PercentDecode;
      var step := if a[0] == PERCENT then 3 else 1;
      if step <= |a| {
        assert whole[step..] == a[step..] + [mark] + b;
        EscapesApart(a[step..], mark, b, plusAsSpace);
        JoinedApart(if step == 1 then (if a[0] == PLUS && plusAsSpace then SPACE else a[0]) else 0,
                    Escape(a), PercentDecode(a[step..], plusAsSpace), mark, PercentDecode(b, plusAsSpace));
      } else {
        assert whole[|a|] == mark && Escape(whole).None?;
      }
    }
  }

  lemma JoinedApart(plain: byte, escaped: Option<byte>, left: Option<bytes>, mark: byte, right: Option<bytes>)
    ensures left.Some? && right.Some? ==>
              && [plain] + (left.value + [mark] + right.value) == ([plain] + left.value) + [mark] + right.value
              && (escaped.Some? ==>
                    [escaped.value] + (left.value + [mark] + right.value)
                    == ([escaped.value] + left.value) + [mark] + right.value)
  {
  }

  /** A character's encoding has no ASCII byte after its first. */
  lemma EncodingTail(c: char, i: nat)
    requires 0 < i < |EncodeChar(c)|
    ensures EncodeChar(c)[i] >= 0x80
  {
  }

  lemma {:induction false} CharactersApart(a: bytes, mark: byte, b: bytes)
    requires mark < 0x80
    ensures Decode(a + [mark] + b).Some? <==> Decode(a).Some? && Decode(b).Some?
    decreases |a|
  {
    if Decode(a).Some? && Decode(b).Some? {
      EncodedApart(a, mark, b, Decode(a).value, Decode(b).value);
    } else if Decode(a + [mark] + b).Some? {
      DecodedApart(a, mark, b);
    }
  }

  lemma EncodedApart(a: bytes, mark: byte, b: bytes, s: string, t: string)
    requires mark < 0x80 && Decode(a) == Some(s) && Decode(b) == Some(t)
    ensures Decode(a + [mark] + b).Some?
  {
    var middle := [mark as int as char];
    DecodeInvertsEncode(a, s);
    DecodeInvertsEncode(b, t);
    EncodeConcat(s, middle);
    EncodeConcat(s + middle, t);
    assert Encode(middle) == [mark] by {
      assert middle[1..] == [] && EncodeChar(middle[0]) == [mark];
    }
    hide Decode, Encode;
    DecodeInvertsEncode(a + [mark] + b, s + middle + t);
  }

  lemma {:induction false} DecodedApart(a: bytes, mark: byte, b: bytes)
    requires mark < 0x80 && Decode(a + [mark] + b).Some?
    ensures Decode(a).Some? && Decode(b).Some?
    decreases |a|
  {
    var whole := a + [mark] + b;
    if a == [] {
      assert whole[1..] == b && DecodeChar(whole) == Some(mark as int as char);
    } else {
      var c := DecodeChar(whole).value;
      var n := |EncodeChar(c)|;
      DecodedChar(whole);
      hide DecodeChar;
      assert forall i | 0 <= i < n :: EncodeChar(c)[i] == whole[i];
      if n > |a| {
        EncodingTail(c, |a|);
      }
      assert whole[n..] == a[n..] + [mark] + b;
      DecodedApart(a[n..], mark, b);
      EncodedPrefix(c, a);
    }
  }

  predicate AllDecode(pieces: seq<bytes>, plusAsSpace: bool) {
    forall k | 0 <= k < |pieces| :: Decoded(pieces[k], plusAsSpace).Some?
  }

  lemma AllDecodeFront(first: bytes, rest: seq<bytes>, plusAsSpace: bool)
    ensures AllDecode([first] + rest, plusAsSpace) <==> Decoded(first, plusAsSpace).Some? && AllDecode(rest, plusAsSpace)
  {
    hide Decoded;
    var all := [first] + rest;
    assert all[0] == first && forall k | 0 <= k < |rest| :: all[k + 1] == rest[k];
  }

  lemma DecodedParts(first: bytes, rest: bytes, plusAsSpace: bool)
    ensures Decoded(first + [SLASH] + rest, plusAsSpace).Some?
            <==> Decoded(first, plusAsSpace).Some? && Decoded(rest, plusAsSpace).Some?
  {
    hide Decode, PercentDecode;
    EscapesApart(first, SLASH, rest, plusAsSpace);
    var left, right := PercentDecode(first, plusAsSpace), PercentDecode(rest, plusAsSpace);
    if left.Some? && right.Some? {
      CharactersApart(left.value, SLASH, right.value);
    }
  }

  /** A path decodes just when each of its segments does. */
  lemma {:induction false} SegmentsDecode(path: bytes, plusAsSpace: bool)
    ensures Decoded(path, plusAsSpace).Some? <==> AllDecode(SplitOn(path, SLASH), plusAsSpace)
    decreases |path|
  {
    hide Decoded, Position;
    var at := Position(path, SLASH);
    if at == |path| {
      assert SplitOn(path, SLASH) == [path] && [path] + [] == [path];
      AllDecodeFront(path, [], plusAsSpace);
    } else {
      var first, rest := path[..at], path[at + 1..];
      assert path == first + [SLASH] + rest;
      assert SplitOn(path, SLASH) == [first] + SplitOn(rest, SLASH);
      hide AllDecode, SplitOn;
      SegmentsDecode(rest, plusAsSpace);
      DecodedParts(first, rest, plusAsSpace);
      AllDecodeFront(first, SplitOn(rest, SLASH), plusAsSpace);
    }
  }

  // ----- validation -----

  /** `str::split_once`. */
  function SplitOnce(text: bytes, mark: byte): (bytes, Option<bytes>) {
    var at := Position(text, mark);
    if at == |text| then (text, None) else (text[..at], Some(text[at + 1..]))
  }

  /** A pair's raw name and value; a pair without `=` has an empty value. */
  function RawPair(pair: bytes): (bytes, bytes) {
    var (name, value) := SplitOnce(pair, EQUALS);
    (name, if value.Some? then value.value else [])
  }

  predicate PairDecodes(pair: bytes) {
    Decoded(RawPair(pair).0, true).Some? && Decoded(RawPair(pair).1, true).Some?
  }

  predicate AllPairsDecode(pairs: seq<bytes>) {
    forall k | 0 <= k < |pairs| :: PairDecodes(pairs[k])
  }

  /** What `validate_url_encoding` accepts. */
  predicate ValidEncoding(target: bytes) {
    var (path, query) := SplitOnce(target, QUESTION);
    && Decoded(path, false).Some?
    && (query.Some? ==> AllPairsDecode(SplitOn(query.value, AMPERSAND)))
  }

  lemma SplitOnceValid(text: bytes, mark: byte)
    requires mark < 0x80 && Decode(text).Some?
    ensures Decode(SplitOnce(text, mark).0).Some?
    ensures SplitOnce(text, mark).1.Some? ==> Decode(SplitOnce(text, mark).1.value).Some?
  {
    var at := Position(text, mark);
    if at < |text| {
      assert text == text[..at] + [mark] + text[at + 1..];
      CharactersApart(text[..at], mark, text[at + 1..]);
    }
  }

  lemma RawPairValid(pair: bytes)
    requires Decode(pair).Some?
    ensures Decode(RawPair(pair).0).Some? && Decode(RawPair(pair).1).Some?
  {
    SplitOnceValid(pair, EQUALS);
  }

  lemma {:induction false} PiecesValid(text: bytes, mark: byte)
    requires mark < 0x80 && Decode(text).Some?
    ensures forall piece | piece in SplitOn(text, mark) :: Decode(piece).Some?
    decreases |text|
  {
    var at := Position(text, mark);
    if at < |text| {
      assert text == text[..at] + [mark] + text[at + 1..];
      CharactersApart(text[..at], mark, text[at + 1..]);
      PiecesValid(text[at + 1..], mark);
    }
  }

  /** `validate_url_encoding`. */
  method ValidateUrlEncoding(target: bytes) returns (ok: bool)
    requires Decode(target).Some?
    ensures ok <==> ValidEncoding(target)
  {
    SplitOnceValid(target, QUESTION);
    hide Decode, Decoded, SplitOn, Position;
    var (path, query) := SplitOnce(target, QUESTION);
    var text := DecodeUrlComponent(path, false);
    if text.None? {
      return false;
    }
    if query.Some? {
      PiecesValid(query.value, AMPERSAND);
      var pairs := SplitOn(query.value, AMPERSAND);
      var at := 0;
      while at < |pairs|
        invariant 0 <= at <= |pairs|
        invariant forall k | 0 <= k < at :: PairDecodes(pairs[k])
      {
        RawPairValid(pairs[at]);
        var (name, value) := RawPair(pairs[at]);
        text := DecodeUrlComponent(name, true);
        if text.None? {
          assert !PairDecodes(pairs[at]);
          return false;
        }
        text := DecodeUrlComponent(value, true);
        if text.None? {
          assert !PairDecodes(pairs[at]);
          return false;
        }
        at := at + 1;
      }
    }
    return true;
  }

  // ----- what validation is for -----

  lemma {:induction false} FilledUses(shape: seq<Segment>, captures: seq<bytes>, segments: seq<bytes>)
    requires Filled(shape, captures) == Some(segments)
    ensures forall capture | capture in captures :: capture in segments
    decreases |shape|
  {
    if shape != [] {
      match shape[0]
      case Static(text) =>
        FilledUses(shape[1..], captures, segments[1..]);
      case Parameter =>
        FilledUses(shape[1..], captures[1..], segments[1..]);
        assert captures == [captures[0]] + captures[1..];
    }
  }

  /** Validating the whole path once means that every captured segment decodes. */
  lemma CapturesDecode(shape: seq<Segment>, path: bytes, captures: seq<bytes>)
    requires Filled(shape, captures) == Some(Segments(path)) && Decoded(path, false).Some?
    ensures forall capture | capture in captures :: Decoded(capture, false).Some?
  {
    FilledUses(shape, captures, Segments(path));
    SegmentsDecode(path, false);
    var pieces := SplitOn(path, SLASH);
    if path != [] && path[0] == SLASH {
      assert path[..0] == [] && pieces == [[]] + Segments(path);
    }
    hide Decoded, Filled, SplitOn;
    forall capture | capture in captures ensures Decoded(capture, false).Some? {
      assert capture in pieces;
    }
  }

  /** The value a pair contributes under a name, if any. */
  function ValueUnder(pair: bytes, name: string): seq<string>
    requires PairDecodes(pair)
  {
    if pair != [] && Decoded(RawPair(pair).0, true).value == name then [Decoded(RawPair(pair).1, true).value] else []
  }

  /** The values of the pairs with this name, decoded, in order. */
  function ValuesOf(pairs: seq<bytes>, name: string): (values: seq<string>)
    requires AllPairsDecode(pairs)
  {
    if pairs == [] then []
    else
      assert PairDecodes(pairs[0]);
      ValueUnder(pairs[0], name) + ValuesOf(pairs[1..], name)
  }

  function Nth(values: seq<string>, index: nat): Option<string> {
    if index < |values| then Some(values[index]) else None
  }

  /** A pair with this decoded name; the scan passes over empty pairs. */
  predicate Named(pair: bytes, name: string) {
    pair != [] && Decoded(RawPair(pair).0, true) == Some(name)
  }

  predicate NamesDecode(pairs: seq<bytes>) {
    forall k | 0 <= k < |pairs| && pairs[k] != [] :: Decoded(RawPair(pairs[k]).0, true).Some?
  }

  function Occurrences(pairs: seq<bytes>, name: string): nat {
    if pairs == [] then 0
    else Occurrences(pairs[..|pairs| - 1], name) + if Named(pairs[|pairs| - 1], name) then 1 else 0
  }

  /** Pair `at` is number `index` of that name, and no name before it is malformed. */
  predicate Hit(pairs: seq<bytes>, at: nat, name: string, index: nat) {
    at < |pairs| && NamesDecode(pairs[..at]) && Named(pairs[at], name) && Occurrences(pairs[..at], name) == index
  }

  /** The value of the pair that is hit, if it decodes; nothing when no pair is. */
  ghost predicate Answers(pairs: seq<bytes>, name: string, index: nat, value: Option<string>) {
    && (forall at: nat | Hit(pairs, at, name, index) :: value == Decoded(RawPair(pairs[at]).1, true))
    && ((forall at: nat :: !Hit(pairs, at, name, index)) ==> value.None?)
  }

  lemma {:induction false} OccurrencesGrow(pairs: seq<bytes>, name: string, m: nat, n: nat)
    requires m <= n <= |pairs|
    ensures Occurrences(pairs[..m], name) <= Occurrences(pairs[..n], name)
    decreases n
  {
    hide Named;
    if m < n {
      OccurrencesGrow(pairs, name, m, n - 1);
      assert pairs[..n][..n - 1] == pairs[..n - 1];
    }
  }

  lemma OccurrencesNext(pairs: seq<bytes>, name: string, at: nat)
    requires at < |pairs|
    ensures Occurrences(pairs[..at + 1], name)
            == Occurrences(pairs[..at], name) + if Named(pairs[at], name) then 1 else 0
  {
    assert pairs[..at + 1][..at] == pairs[..at];
  }

  lemma OneHit(pairs: seq<bytes>, name: string, index: nat, at: nat)
    requires Hit(pairs, at, name, index)
    ensures Answers(pairs, name, index, Decoded(RawPair(pairs[at]).1, true))
  {
    hide Decoded, RawPair, Named, NamesDecode;
    forall other: nat | Hit(pairs, other, name, index) ensures other == at {
      OccurrencesNext(pairs, name, at);
      OccurrencesNext(pairs, name, other);
      if at < other {
        OccurrencesGrow(pairs, name, at + 1, other);
      } else if other < at {
        OccurrencesGrow(pairs, name, other + 1, at);
      }
    }
  }

  /** The scan has passed the first `at` pairs and seen the name `found` times. */
  predicate Scanned(pairs: seq<bytes>, at: nat, name: string, index: nat, found: nat) {
    at <= |pairs| && NamesDecode(pairs[..at]) && Occurrences(pairs[..at], name) == found <= index
  }

  lemma ScanStart(pairs: seq<bytes>, name: string, index: nat)
    ensures Scanned(pairs, 0, name, index, 0)
  {
  }

  lemma ScanPast(pairs: seq<bytes>, at: nat, name: string, index: nat, found: nat)
    requires at < |pairs| && Scanned(pairs, at, name, index, found)
    requires pairs[at] == [] || Decoded(RawPair(pairs[at]).0, true).Some?
    requires Named(pairs[at], name) ==> found < index
    ensures Scanned(pairs, at + 1, name, index, if Named(pairs[at], name) then found + 1 else found)
  {
    hide Decoded, RawPair, Named;
    OccurrencesNext(pairs, name, at);
    assert pairs[..at + 1] == pairs[..at] + [pairs[at]];
  }

  lemma ScanHit(pairs: seq<bytes>, at: nat, name: string, index: nat)
    requires at < |pairs| && Scanned(pairs, at, name, index, index) && Named(pairs[at], name)
    ensures Answers(pairs, name, index, Decoded(RawPair(pairs[at]).1, true))
  {
    hide Decoded, RawPair, Occurrences;
    OneHit(pairs, name, index, at);
  }

  /** The scan ends without a value at a malformed name or after the last pair. */
  lemma ScanEnds(pairs: seq<bytes>, at: nat, name: string, index: nat, found: nat)
    requires Scanned(pairs, at, name, index, found)
    requires at < |pairs| ==> pairs[at] != [] && Decoded(RawPair(pairs[at]).0, true).None?
    ensures Answers(pairs, name, index, None)
  {
    hide Decoded, RawPair, Occurrences;
    forall k: nat ensures !Hit(pairs, k, name, index) {
      if k < at {
        OccurrencesNext(pairs, name, k);
        OccurrencesGrow(pairs, name, k + 1, at);
      } else if at < k < |pairs| {
        assert pairs[..k][at] == pairs[at];
      }
    }
  }

  /**
   `query_value`: the value of pair number `index` of that name, unless it or a name before it is
   malformed; on a target that validates, the `index`-th decoded value of that name.
   */
  method QueryValue(target: bytes, name: string, index: nat) returns (value: Option<string>)
    requires Decode(target).Some?
    ensures SplitOnce(target, QUESTION).1.None? ==> value.None?
    ensures SplitOnce(target, QUESTION).1.Some? ==>
              Answers(SplitOn(SplitOnce(target, QUESTION).1.value, AMPERSAND), name, index, value)
    ensures ValidEncoding(target) && SplitOnce(target, QUESTION).1.Some? ==>
              value == Nth(ValuesOf(SplitOn(SplitOnce(target, QUESTION).1.value, AMPERSAND), name), index)
  {
    SplitOnceValid(target, QUESTION);
    hide Decode, Decoded, SplitOn, Position, ValuesOf, AllPairsDecode, Answers;
    var (path, query) := SplitOnce(target, QUESTION);
    if query.None? {
      return None;
    }
    PiecesValid(query.value, AMPERSAND);
    value := FindValue(SplitOn(query.value, AMPERSAND), name, index);
  }

  /** The loop of `query_value`. */
  method FindValue(pairs: seq<bytes>, name: string, index: nat) returns (value: Option<string>)
    requires forall pair | pair in pairs :: Decode(pair).Some?
    ensures Answers(pairs, name, index, value)
    ensures AllPairsDecode(pairs) ==> value == Nth(ValuesOf(pairs, name), index)
  {
    hide Decode, Decoded, ValuesOf, AllPairsDecode, RawPair, Scanned, Answers;
    var found, at := 0, 0;
    assert pairs[0..] == pairs;
    ScanStart(pairs, name, index);
    while at < |pairs|
      invariant 0 <= at <= |pairs| && 0 <= found <= index && Scanned(pairs, at, name, index, found)
      invariant AllPairsDecode(pairs) ==>
                  && AllPairsDecode(pairs[at..])
                  && Nth(ValuesOf(pairs, name), index) == Nth(ValuesOf(pairs[at..], name), index - found)
    {
      assert pairs[at..][1..] == pairs[at + 1..];
      NthStep(pairs[at..], name, index - found);
      ghost var before := found;
      if pairs[at] != [] {
        RawPairValid(pairs[at]);
        var raw := RawPair(pairs[at]);
        var decodedName := DecodeUrlComponent(raw.0, true);
        if decodedName.None? {
          ScanEnds(pairs, at, name, index, found);
          return None;
        }
        if decodedName.value == name {
          if found == index {
            ScanHit(pairs, at, name, index);
            value := DecodeUrlComponent(raw.1, true);
            return;
          }
          found := found + 1;
        }
      }
      ScanPast(pairs, at, name, index, before);
      at := at + 1;
    }
    assert pairs[at..] == [];
    NthNothing(name, index - found);
    ScanEnds(pairs, at, name, index, found);
    return None;
  }

  lemma NthNothing(name: string, index: nat)
    ensures Nth(ValuesOf([], name), index) == None
  {
  }

  lemma ValuesFront(pairs: seq<bytes>, name: string)
    requires pairs != [] && AllPairsDecode(pairs)
    ensures PairDecodes(pairs[0]) && AllPairsDecode(pairs[1..])
    ensures ValuesOf(pairs, name) == ValueUnder(pairs[0], name) + ValuesOf(pairs[1..], name)
  {
    assert PairDecodes(pairs[0]);
    hide Decoded, RawPair, PairDecodes;
  }

  lemma NthStep(pairs: seq<bytes>, name: string, index: nat)
    requires pairs != []
    ensures AllPairsDecode(pairs) ==>
              && AllPairsDecode(pairs[1..])
              && Decoded(RawPair(pairs[0]).0, true).Some? && Decoded(RawPair(pairs[0]).1, true).Some?
              && Nth(ValuesOf(pairs, name), index)
                 == if pairs[0] != [] && Decoded(RawPair(pairs[0]).0, true) == Some(name) then
                      if index == 0 then Decoded(RawPair(pairs[0]).1, true)
                      else Nth(ValuesOf(pairs[1..], name), index - 1)
                    else Nth(ValuesOf(pairs[1..], name), index)
  {
    hide Decoded, RawPair, AllPairsDecode, ValuesOf;
    if AllPairsDecode(pairs) {
      ValuesFront(pairs, name);
    }
  }

  // ----- a query written and read back, in literal bytes -----

  /** The form of a text that is safe anywhere in a query: `+` for a space, an escape for all else. */
  function FormEncode(plain: bytes): bytes {
    if plain == [] then []
    else if plain[0] == 32 then [43] + FormEncode(plain[1..])
    else [37, HexDigit(plain[0] as int / 16), HexDigit(plain[0] as int % 16)] + FormEncode(plain[1..])
  }

  /** `name=value`. */
  function FormPair(pair: (string, string)): bytes {
    FormEncode(Encode(pair.0)) + [61] + FormEncode(Encode(pair.1))
  }

  /** `name=value&name=value`... */
  function FormQuery(pairs: seq<(string, string)>): bytes
    requires pairs != []
  {
    if |pairs| == 1 then FormPair(pairs[0]) else FormPair(pairs[0]) + [38] + FormQuery(pairs[1..])
  }

  function FormPieces(pairs: seq<(string, string)>): (pieces: seq<bytes>)
    ensures |pieces| == |pairs| && forall i | 0 <= i < |pairs| :: pieces[i] == FormPair(pairs[i])
  {
    seq(|pairs|, i requires 0 <= i < |pairs| => FormPair(pairs[i]))
  }

  function ValuesNamed(pairs: seq<(string, string)>, name: string): seq<string> {
    if pairs == [] then []
    else (if pairs[0].0 == name then [pairs[0].1] else []) + ValuesNamed(pairs[1..], name)
  }

  lemma DigitApart(digit: int)
    requires 0 <= digit < 16
    ensures HexDigit(digit) != 38 && HexDigit(digit) != 61 && HexDigit(digit) != 63
  {
  }

  lemma {:induction false} FormEncoded(plain: bytes)
    ensures PercentDecode(FormEncode(plain), true) == Some(plain)
    ensures 38 !in FormEncode(plain) && 61 !in FormEncode(plain) && 63 !in FormEncode(plain)
  {
    if plain != [] {
      var rest, encoded := FormEncode(plain[1..]), FormEncode(plain);
      FormEncoded(plain[1..]);
      assert plain == [plain[0]] + plain[1..];
      if plain[0] == 32 {
        assert encoded[1..] == rest;
      } else {
        var high, low := plain[0] as int / 16, plain[0] as int % 16;
        DigitApart(high);
        DigitApart(low);
        assert encoded[3..] == rest;
        assert encoded[1] == HexDigit(high) && encoded[2] == HexDigit(low);
      }
    }
  }

  /** A pair is sound when both sides of its first equals sign decode; without one, when it decodes. */
  lemma PairExactly(name: bytes, value: bytes)
    requires 61 !in name
    ensures PairDecodes(name + [61] + value) <==> Decoded(name, true).Some? && Decoded(value, true).Some?
    ensures PairDecodes(name) <==> Decoded(name, true).Some?
  {
    SplitOnceHere(name, 61, value);
    NothingToSplit(name, 61);
    NothingDecodes();
    hide Decoded, SplitOnce;
  }

  lemma NothingToSplit(text: bytes, mark: byte)
    requires mark !in text
    ensures SplitOnce(text, mark) == (text, None)
  {
  }

  lemma NothingDecodes()
    ensures Decoded([], true).Some?
  {
  }

  /** A target is sound when its path, up to the first question mark, decodes and so does every pair after it. */
  lemma TargetExactly(path: bytes, query: bytes)
    requires 63 !in path
    ensures ValidEncoding(path) <==> Decoded(path, false).Some?
    ensures ValidEncoding(path + [63] + query)
       <==> Decoded(path, false).Some? && forall pair | pair in SplitOn(query, 38) :: PairDecodes(pair)
  {
    SplitOnceHere(path, 63, query);
    NothingToSplit(path, 63);
    hide Decoded, SplitOnce, PairDecodes, SplitOn;
  }

  lemma SplitOnceHere(before: bytes, mark: byte, after: bytes)
    requires mark !in before
    ensures SplitOnce(before + [mark] + after, mark) == (before, Some(after))
    ensures SplitOn(before + [mark] + after, mark) == [before] + SplitOn(after, mark)
    ensures SplitOn(before, mark) == [before]
  {
    var text := before + [mark] + after;
    assert forall k | 0 <= k < |before| :: text[k] == before[k] && before[k] in before;
    assert text[|before|] == mark;
    hide Position;
    assert Position(text, mark) == |before| && Position(before, mark) == |before|;
    assert text[..|before|] == before && text[|before| + 1..] == after;
  }

  lemma PairReadBack(pair: (string, string), name: string)
    ensures 38 !in FormPair(pair) && FormPair(pair) != [] && PairDecodes(FormPair(pair))
    ensures ValueUnder(FormPair(pair), name) == if pair.0 == name then [pair.1] else []
  {
    var first, second := FormEncode(Encode(pair.0)), FormEncode(Encode(pair.1));
    FormEncoded(Encode(pair.0));
    FormEncoded(Encode(pair.1));
    SplitOnceHere(first, 61, second);
    DecodeInvertsEncode(Encode(pair.0), pair.0);
    DecodeInvertsEncode(Encode(pair.1), pair.1);
    hide FormEncode, PercentDecode, Encode, Decode, SplitOnce;
  }

  lemma {:induction false} PiecesReadBack(pairs: seq<(string, string)>, name: string)
    ensures AllPairsDecode(FormPieces(pairs)) && ValuesOf(FormPieces(pairs), name) == ValuesNamed(pairs, name)
    decreases |pairs|
  {
    hide FormPair, ValueUnder, PairDecodes;
    forall i | 0 <= i < |pairs| ensures PairDecodes(FormPieces(pairs)[i]) {
      PairReadBack(pairs[i], name);
    }
    if pairs != [] {
      PairReadBack(pairs[0], name);
      PiecesReadBack(pairs[1..], name);
      assert FormPieces(pairs)[1..] == FormPieces(pairs[1..]);
    }
  }

  lemma {:induction false} QueryPieces(pairs: seq<(string, string)>)
    requires pairs != []
    ensures SplitOn(FormQuery(pairs), 38) == FormPieces(pairs)
    decreases |pairs|
  {
    hide FormPair, SplitOn;
    PairReadBack(pairs[0], "");
    if |pairs| == 1 {
      SplitOnceHere(FormPair(pairs[0]), 38, []);
    } else {
      QueryPieces(pairs[1..]);
      SplitOnceHere(FormPair(pairs[0]), 38, FormQuery(pairs[1..]));
      assert FormPieces(pairs) == [FormPair(pairs[0])] + FormPieces(pairs[1..]);
    }
  }

  /** Names and values written as a form after `?` are found again: those of every name, in order. */
  lemma QueryRoundTrip(path: bytes, pairs: seq<(string, string)>, name: string)
    requires 63 !in path && pairs != []
    ensures var (before, query) := SplitOnce(path + [63] + FormQuery(pairs), QUESTION);
            && before == path && query.Some? && AllPairsDecode(SplitOn(query.value, AMPERSAND))
            && ValuesOf(SplitOn(query.value, AMPERSAND), name) == ValuesNamed(pairs, name)
  {
    SplitOnceHere(path, 63, FormQuery(pairs));
    QueryPieces(pairs);
    PiecesReadBack(pairs, name);
    hide FormQuery, FormPieces, SplitOn, ValuesOf, AllPairsDecode;
  }
}

/** Named path parameters of a recognized route. */
module PathParameters {
  import opened Wrappers
  import opened Bytes
  import opened Utf8
  import opened RouteShapes
  import opened CompiledRouter
  import opened UrlEncoding

  function CountParameters(shape: seq<Segment>): nat {
    if shape == [] then 0
    else CountParameters(shape[..|shape| - 1]) + if shape[|shape| - 1].Parameter? then 1 else 0
  }

  lemma {:induction false} CountFront(shape: seq<Segment>)
    requires shape != []
    ensures CountParameters(shape) == (if shape[0].Parameter? then 1 else 0) + CountParameters(shape[1..])
    decreases |shape|
  {
    var init := shape[..|shape| - 1];
    if init != [] {
      CountFront(init);
      assert shape[1..][..|shape| - 2] == init[1..];
    } else {
      assert shape[1..] == [];
    }
  }

  lemma {:induction false} FilledCount(shape: seq<Segment>, captures: seq<bytes>)
    requires Filled(shape, captures).Some?
    ensures |captures| == CountParameters(shape)
    decreases |shape|
  {
    if shape != [] {
      CountFront(shape);
      FilledCount(shape[1..], if shape[0].Parameter? then captures[1..] else captures);
    }
  }

  lemma {:induction false} NamesCount(segments: seq<bytes>)
    ensures |ParameterNames(segments)| == CountParameters(ShapeOf(segments))
    ensures forall name | name in ParameterNames(segments) :: name != []
  {
    if segments != [] {
      var last := |segments| - 1;
      NamesCount(segments[..last]);
      assert ShapeOf(segments)[..last] == ShapeOf(segments[..last]);
    }
  }

  /** `path_parameter`: the first parameter of that name, its capture decoded. */
  method PathParameter(names: seq<bytes>, captures: seq<bytes>, name: bytes) returns (value: Option<string>)
    requires forall capture | capture in captures :: Decode(capture).Some?
    ensures name !in names ==> value.None?
    ensures name in names ==>
              exists k :: && 0 <= k < |names| && names[k] == name && (forall j | 0 <= j < k :: names[j] != name)
                          && value == if k < |captures| then Decoded(captures[k], false) else None
  {
    hide Decoded, Decode;
    var at := 0;
    while at < |names|
      invariant 0 <= at <= |names| && forall j | 0 <= j < at :: names[j] != name
    {
      if names[at] == name {
        if at >= |captures| {
          return None;
        }
        value := DecodeUrlComponent(captures[at], false);
        return;
      }
      at := at + 1;
    }
    return None;
  }

  /**
   On a path that validated, every named parameter of the recognized route has a capture, and it
   decodes: a handler's path argument is never missing, and it is the path's segment that stands where
   the pattern first has the name.
   */
  method RecognizedParameter(route: Route, path: bytes, captures: seq<bytes>, name: bytes)
      returns (value: Option<string>)
    requires HasParameters(route.path) && CapturesFit(route, path, captures)
    requires Decode(path).Some? && Decoded(path, false).Some?
    ensures value.Some? <==> name in ParameterNames(Segments(route.path))
    ensures value.Some? ==> exists i: nat :: FirstNamed(Segments(route.path), name, i) && TakenFrom(path, i, value)
  {
    var segments := Segments(route.path);
    NamesCount(segments);
    FilledCount(Shape(route.path), captures);
    CapturesDecode(Shape(route.path), path, captures);
    CapturesValid(Shape(route.path), path, captures);
    hide Decoded, Decode, Filled, ShapeOf, CountParameters;
    var names := CollectNames(segments);
    value := PathParameter(names, captures, name);
    if name in names {
      NamedPlace(route, path, captures, name, value);
    }
  }

  lemma NamedPlace(route: Route, path: bytes, captures: seq<bytes>, name: bytes, value: Option<string>)
    requires Filled(Shape(route.path), captures) == Some(Segments(path))
    requires var names := ParameterNames(Segments(route.path));
             exists k :: && 0 <= k < |names| && names[k] == name && (forall j | 0 <= j < k :: names[j] != name)
                         && value == if k < |captures| then Decoded(captures[k], false) else None
    ensures exists i: nat :: FirstNamed(Segments(route.path), name, i) && TakenFrom(path, i, value)
  {
    var segments := Segments(route.path);
    var names := ParameterNames(segments);
    NamesCount(segments);
    hide Decoded, Filled, ParameterNames, Segments, ShapeOf, CountParameters, FirstNamed;
    var k :| && 0 <= k < |names| && names[k] == name && (forall j | 0 <= j < k :: names[j] != name)
             && value == if k < |captures| then Decoded(captures[k], false) else None;
    assert names[k] in names;
    var i := PlaceOf(segments, captures, Segments(path), k, name);
    assert TakenFrom(path, i, value);
  }

  /** The first segment of the pattern that is the name in braces. */
  predicate FirstNamed(segments: seq<bytes>, name: bytes, i: nat) {
    i < |segments| && segments[i] == [123] + name + [125] && forall j | 0 <= j < i :: segments[j] != [123] + name + [125]
  }

  predicate TakenFrom(path: bytes, i: nat, value: Option<string>) {
    i < |Segments(path)| && value == Decoded(Segments(path)[i], false)
  }

  lemma {:induction false} NamesFront(segments: seq<bytes>)
    requires segments != []
    ensures ParameterNames(segments)
            == (if IsParameter(segments[0]) then [segments[0][1..|segments[0]| - 1]] else []) + ParameterNames(segments[1..])
    decreases |segments|
  {
    hide IsParameter;
    var init := segments[..|segments| - 1];
    if init != [] {
      NamesFront(init);
      assert segments[1..][..|segments| - 2] == init[1..];
    } else {
      assert segments[1..] == [];
    }
  }

  lemma FilledFront(segments: seq<bytes>, captures: seq<bytes>, filled: seq<bytes>)
    requires Filled(ShapeOf(segments), captures) == Some(filled) && segments != []
    ensures filled != []
    ensures if IsParameter(segments[0])
            then captures != [] && captures[0] == filled[0]
                 && Filled(ShapeOf(segments[1..]), captures[1..]) == Some(filled[1..])
            else Filled(ShapeOf(segments[1..]), captures) == Some(filled[1..])
  {
    hide IsParameter;
    assert ShapeOf(segments)[1..] == ShapeOf(segments[1..]);
  }

  /** A segment is the name in braces exactly when it is a parameter of that name. */
  lemma InBraces(segment: bytes, name: bytes)
    requires name != []
    ensures segment == [123] + name + [125] <==> IsParameter(segment) && segment[1..|segment| - 1] == name
  {
    ParameterExactly(segment);
    if IsParameter(segment) {
      assert segment == [123] + segment[1..|segment| - 1] + [125];
    }
    assert ([123] + name + [125])[1..|name| + 1] == name;
  }

  /** The first parameter of a name stands at the segment that its capture was taken from. */
  lemma {:induction false} PlaceOf(segments: seq<bytes>, captures: seq<bytes>, filled: seq<bytes>, k: nat, name: bytes)
      returns (i: nat)
    requires Filled(ShapeOf(segments), captures) == Some(filled) && name != []
    requires FirstName(ParameterNames(segments), k, name)
    ensures FirstNamed(segments, name, i) && i < |filled| && k < |captures| && captures[k] == filled[i]
    decreases |segments|
  {
    hide *;
    NoNames(segments);
    FilledFront(segments, captures, filled);
    InBraces(segments[0], name);
    NameShifted(segments, k, name);
    if IsParameter(segments[0]) && k == 0 {
      i := 0;
      FirstIsNamed(segments, name);
      return;
    }
    var n;
    if IsParameter(segments[0]) {
      n := PlaceOf(segments[1..], captures[1..], filled[1..], k - 1, name);
    } else {
      n := PlaceOf(segments[1..], captures, filled[1..], k, name);
    }
    LaterIsNamed(segments, name, n);
    i := n + 1;
  }

  /** The first occurrence of a name, seen from behind the first segment. */
  predicate FirstName(names: seq<bytes>, k: nat, name: bytes) {
    k < |names| && names[k] == name && forall j | 0 <= j < k :: names[j] != name
  }

  lemma NameShifted(segments: seq<bytes>, k: nat, name: bytes)
    requires segments != [] && FirstName(ParameterNames(segments), k, name)
    ensures var first, rest := segments[0], ParameterNames(segments[1..]);
            if !IsParameter(first) then FirstName(rest, k, name)
            else if k == 0 then first[1..|first| - 1] == name
            else first[1..|first| - 1] != name && FirstName(rest, k - 1, name)
  {
    NamesFront(segments);
    var names, rest := ParameterNames(segments), ParameterNames(segments[1..]);
    hide ParameterNames;
    if IsParameter(segments[0]) {
      assert names[0] == segments[0][1..|segments[0]| - 1];
      assert forall j | 0 <= j < |rest| :: rest[j] == names[j + 1];
      hide IsParameter;
    } else {
      hide IsParameter;
      assert names == rest;
    }
  }

  lemma NoNames(segments: seq<bytes>)
    ensures segments == [] ==> ParameterNames(segments) == [] && forall k: nat, name :: !FirstName([], k, name)
  {
  }

  lemma FirstIsNamed(segments: seq<bytes>, name: bytes)
    requires segments != [] && segments[0] == [123] + name + [125]
    ensures FirstNamed(segments, name, 0)
  {
  }

  lemma LaterIsNamed(segments: seq<bytes>, name: bytes, n: nat)
    requires segments != [] && segments[0] != [123] + name + [125] && FirstNamed(segments[1..], name, n)
    ensures FirstNamed(segments, name, n + 1)
  {
    assert forall j | 1 <= j < |segments| :: segments[j] == segments[1..][j - 1];
  }

  lemma CapturesValid(shape: seq<Segment>, path: bytes, captures: seq<bytes>)
    requires Filled(shape, captures) == Some(Segments(path)) && Decode(path).Some?
    ensures forall capture | capture in captures :: Decode(capture).Some?
  {
    FilledUses(shape, captures, Segments(path));
    PiecesValid(path, SLASH);
    var pieces := SplitOn(path, SLASH);
    if path != [] && path[0] == SLASH {
      assert path[..0] == [] && pieces == [[]] + Segments(path);
    }
    hide Decode, Filled, SplitOn;
    forall capture | capture in captures ensures Decode(capture).Some? {
      assert capture in pieces;
    }
  }
}
