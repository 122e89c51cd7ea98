/**
 Byte strings and the substring search both multipart readers are built on
 (`find_bytes` in blazingly-core).
 */
module Bytes {
  import opened Wrappers

  type byte = b: int | 0 <= b < 256

  type bytes = seq<byte>

  const CR: byte := 13
  const LF: byte := 10
  const DASH: byte := 45

  const CRLF: bytes := [13, 10]
  const DASHES: bytes := [45, 45]
  const BLANK_LINE: bytes := [13, 10, 13, 10]
  const CRLF_DASHES: bytes := [13, 10, 45, 45]

  /**
   `needle` is the run of bytes of `haystack` that starts at `at`; the source writes it
   `haystack.get(at..at + needle.len()) == Some(needle)`.
   */
  predicate Occurs(haystack: bytes, needle: bytes, at: nat) {
    at + |needle| <= |haystack| && forall k | 0 <= k < |needle| :: needle[k] == haystack[at + k]
  }

  lemma OccursIsSlice(haystack: bytes, needle: bytes, at: nat)
    requires at + |needle| <= |haystack|
    ensures Occurs(haystack, needle, at) <==> haystack[at..at + |needle|] == needle
  {
    if haystack[at..at + |needle|] == needle {
      assert forall k | 0 <= k < |needle| :: needle[k] == haystack[at..at + |needle|][k];
    }
  }

  /** The least position at or after `from` where a nonempty `needle` occurs. */
  function Find(haystack: bytes, needle: bytes, from: nat): (r: Option<nat>)
    ensures r.Some? ==> from <= r.value && Occurs(haystack, needle, r.value)
    ensures r.Some? ==> forall j | from <= j < r.value :: !Occurs(haystack, needle, j)
    ensures r.None? && needle != [] ==> forall j | from <= j :: !Occurs(haystack, needle, j)
    decreases |haystack| - from
  {
    if needle == [] || from + |needle| > |haystack| then None
    else if Occurs(haystack, needle, from) then Some(from)
    else Find(haystack, needle, from + 1)
  }

  /** Inside a window, occurrences are those of the whole. */
  lemma OccursInWindow(whole: bytes, window: bytes, from: nat, needle: bytes, at: nat)
    requires Occurs(whole, window, from) && at + |needle| <= |window|
    ensures Occurs(window, needle, at) == Occurs(whole, needle, from + at)
  {
    forall i | at <= i < at + |needle| ensures window[i] == whole[from + i] {
    }
  }

  /** What a search of a window says about a search of the whole. */
  lemma FindInWindow(whole: bytes, window: bytes, from: nat, needle: bytes, at: nat)
    requires Occurs(whole, window, from) && needle != []
    ensures Find(window, needle, at).Some? ==>
              && Find(whole, needle, from + at) == Some(from + Find(window, needle, at).value)
              && Find(window, needle, at).value + |needle| <= |window|
    ensures Find(window, needle, at).None? && Find(whole, needle, from + at).Some? ==>
              Find(whole, needle, from + at).value + |needle| > from + |window|
  {
    forall i: nat | from <= i && i + |needle| <= from + |window|
      ensures Occurs(whole, needle, i) == Occurs(window, needle, i - from)
    {
      OccursInWindow(whole, window, from, needle, i - from);
    }
    var inner, outer := Find(window, needle, at), Find(whole, needle, from + at);
    if inner.Some? {
      var found := from + inner.value;
      assert Occurs(whole, needle, found);
      forall i: nat | from + at <= i < found ensures !Occurs(whole, needle, i) {
        assert !Occurs(window, needle, i - from);
      }
    }
  }

  /** The vectorised single-byte search of the `memchr` crate, as a scalar loop. */
  method Memchr(wanted: byte, haystack: bytes) returns (r: Option<nat>)
    ensures r.Some? ==> r.value < |haystack| && haystack[r.value] == wanted && wanted !in haystack[..r.value]
    ensures r.None? ==> wanted !in haystack
  {
    for i := 0 to |haystack|
      invariant wanted !in haystack[..i]
    {
      if haystack[i] == wanted {
        return Some(i);
      }
    }
    r := None;
  }

  /** `find_bytes`: look for the first byte, then compare the rest. */
  method FindBytes(haystack: bytes, needle: bytes, from: nat) returns (r: Option<nat>)
    ensures r == Find(haystack, needle, from)
  {
    hide Find, Occurs;
    FindStep(haystack, needle, from);
    if needle == [] || |haystack| < |needle| {
      return None;
    }
    var first := needle[0];
    var lastStart := |haystack| - |needle|;
    var position := from;
    while position <= lastStart
      invariant from <= position
      invariant Find(haystack, needle, from) == Find(haystack, needle, position)
    {
      var offset := Memchr(first, haystack[position..lastStart + 1]);
      if offset.None? {
        NoFirstByte(haystack, needle, position);
        return None;
      }
      var candidate := position + offset.value;
      assert forall j | position <= j < candidate ::
          haystack[j] == haystack[position..lastStart + 1][..offset.value][j - position];
      SkipTo(haystack, needle, position, candidate);
      FindStep(haystack, needle, candidate);
      OccursIsSlice(haystack, needle, candidate);
      assert haystack[candidate..candidate + |needle|]
          == [haystack[candidate]] + haystack[candidate + 1..candidate + |needle|];
      assert needle == [first] + needle[1..];
      if haystack[candidate + 1..candidate + |needle|] == needle[1..] {
        return Some(candidate);
      }
      position := candidate + 1;
    }
    FindStep(haystack, needle, position);
    r := None;
  }

  lemma FindStep(haystack: bytes, needle: bytes, from: nat)
    ensures needle == [] || from + |needle| > |haystack| ==> Find(haystack, needle, from) == None
    ensures needle != [] && from + |needle| <= |haystack| ==>
              Find(haystack, needle, from)
              == if Occurs(haystack, needle, from) then Some(from) else Find(haystack, needle, from + 1)
  {
    hide Occurs;
  }

  /** Without the first byte there is no occurrence. */
  lemma NoFirstByte(haystack: bytes, needle: bytes, from: nat)
    requires needle != [] && from + |needle| <= |haystack|
    requires needle[0] !in haystack[from..|haystack| - |needle| + 1]
    ensures Find(haystack, needle, from).None?
  {
    var window := haystack[from..|haystack| - |needle| + 1];
    forall j: nat | from <= j ensures !Occurs(haystack, needle, j) {
      assert j - from < |window| ==> haystack[j + 0] == window[j - from];
    }
  }

  /** Positions whose byte differs from the needle's first byte can be skipped. */
  lemma SkipTo(haystack: bytes, needle: bytes, from: nat, next: nat)
    requires needle != [] && from <= next && next + |needle| <= |haystack|
    requires forall j | from <= j < next :: haystack[j] != needle[0]
    ensures Find(haystack, needle, from) == Find(haystack, needle, next)
  {
    forall j: nat | from <= j < next ensures !Occurs(haystack, needle, j) {
      assert needle[0] != haystack[j + 0];
    }
    FindFrom(haystack, needle, from, next);
  }

  /** Positions where the needle does not occur can be skipped. */
  lemma FindFrom(haystack: bytes, needle: bytes, from: nat, next: nat)
    requires needle != [] && from <= next
    requires forall j | from <= j < next :: !Occurs(haystack, needle, j)
    ensures Find(haystack, needle, from) == Find(haystack, needle, next)
  {
    var early, late := Find(haystack, needle, from), Find(haystack, needle, next);
    if early.Some? && late.Some? {
      assert !(early.value < late.value) && !(late.value < early.value);
    }
  }

  /** The position of the first `mark`, or the length. */
  function Position(text: bytes, mark: byte): (at: nat)
    ensures at <= |text| && (at < |text| ==> text[at] == mark)
    ensures forall k | 0 <= k < at :: text[k] != mark
  {
    if text == [] || text[0] == mark then 0 else 1 + Position(text[1..], mark)
  }

  /** `str::split` on one ASCII character: never empty. */
  function SplitOn(text: bytes, mark: byte): (pieces: seq<bytes>)
    ensures pieces != []
    decreases |text|
  {
    var at := Position(text, mark);
    if at == |text| then [text] else [text[..at]] + SplitOn(text[at + 1..], mark)
  }
}
