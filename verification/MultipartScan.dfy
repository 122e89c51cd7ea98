/**
 The look-ahead of the streaming reader: `scan_multipart_terminator` in blazingly-core decides,
 from the part data available so far, what is certainly data and what must be withheld.
 */
module MultipartScan {
  import opened Wrappers
  import opened Bytes
  import opened MultipartGrammar
  import opened BufferedMultipart

  /** A terminator at this offset, or this many leading bytes that are certainly data. */
  datatype Scan = Terminator(at: nat) | Data(safe: nat)

  /** Whatever surrounds and follows `data`, its offset `at` is not the start of a terminator. */
  ghost predicate Refuted(data: bytes, delimiter: bytes, at: nat) {
    forall whole: bytes, from: nat | Occurs(whole, data, from) :: !TerminatorAt(whole, delimiter, from + at)
  }

  /** A terminator that lies inside a window is a terminator of the whole, and conversely. */
  lemma TerminatorInWindow(whole: bytes, data: bytes, from: nat, delimiter: bytes, at: nat)
    requires Occurs(whole, data, from) && at + |delimiter| + 4 <= |data|
    ensures TerminatorAt(whole, delimiter, from + at) == TerminatorAt(data, delimiter, at)
  {
    assert forall i | 0 <= i < |data| :: data[i] == whole[from + i];
    OccursInWindow(whole, data, from, delimiter, at + 2);
    assert from + at + 2 == from + (at + 2);
  }

  /** Without `\r\n--` there is no terminator. */
  lemma RefutedByCandidate(data: bytes, delimiter: bytes, at: nat)
    requires ValidDelimiter(delimiter)
    requires at + 4 <= |data| && !Occurs(data, CRLF_DASHES, at)
    ensures Refuted(data, delimiter, at)
  {
    forall whole: bytes, from: nat | Occurs(whole, data, from)
      ensures !TerminatorAt(whole, delimiter, from + at)
    {
      TerminatorIsCandidate(whole, delimiter, from + at);
      OccursInWindow(whole, data, from, CRLF_DASHES, at);
    }
  }

  /** A byte that already disagrees with the delimiter refutes a candidate. */
  lemma RefutedByDelimiter(data: bytes, delimiter: bytes, at: nat, k: nat)
    requires k < |delimiter| && at + 2 + k < |data| && data[at + 2 + k] != delimiter[k]
    ensures Refuted(data, delimiter, at)
  {
    forall whole: bytes, from: nat | Occurs(whole, data, from)
      ensures !TerminatorAt(whole, delimiter, from + at)
    {
      assert data[at + 2 + k] == whole[from + (at + 2 + k)];
    }
  }

  lemma RefutedByBytes(data: bytes, delimiter: bytes, at: nat)
    requires at + |delimiter| + 4 <= |data| && !TerminatorAt(data, delimiter, at)
    ensures Refuted(data, delimiter, at)
  {
    forall whole: bytes, from: nat | Occurs(whole, data, from)
      ensures !TerminatorAt(whole, delimiter, from + at)
    {
      TerminatorInWindow(whole, data, from, delimiter, at);
    }
  }

  lemma RefutedByFirstByte(data: bytes, delimiter: bytes, at: nat)
    requires at < |data| && data[at] != CR
    ensures Refuted(data, delimiter, at)
  {
    forall whole: bytes, from: nat | Occurs(whole, data, from)
      ensures !TerminatorAt(whole, delimiter, from + at)
    {
      assert data[at] == whole[from + at];
    }
  }

  lemma RefutedHere(data: bytes, delimiter: bytes, at: nat)
    requires Refuted(data, delimiter, at)
    ensures !TerminatorAt(data, delimiter, at)
  {
    assert Occurs(data, data, 0);
    assert !TerminatorAt(data, delimiter, 0 + at);
  }

  /** `seen[..compared] == delimiter[..compared]`, over what arrived from `start` on. */
  predicate AgreesSoFar(data: bytes, delimiter: bytes, start: nat)
    requires start <= |data|
  {
    var compared := if |data| - start < |delimiter| then |data| - start else |delimiter|;
    data[start..start + compared] == delimiter[..compared]
  }

  /** An incomplete candidate that does not agree with the delimiter's beginning is data. */
  lemma RefuteCandidate(data: bytes, delimiter: bytes, found: nat)
    requires found + 2 <= |data| && data[found + 1] == LF
    requires !AgreesSoFar(data, delimiter, found + 2)
    ensures Refuted(data, delimiter, found) && Refuted(data, delimiter, found + 1)
  {
    var compared := if |data| - (found + 2) < |delimiter| then |data| - (found + 2) else |delimiter|;
    var k :| 0 <= k < compared && data[found + 2 + k] != delimiter[k];
    RefutedByDelimiter(data, delimiter, found, k);
    RefutedByFirstByte(data, delimiter, found + 1);
  }

  lemma NoneYet(data: bytes, delimiter: bytes, safe: nat)
    requires |data| < safe + |delimiter| + 4
    requires forall i: nat | i < safe :: Refuted(data, delimiter, i)
    ensures FirstTerminator(data, delimiter, 0).None?
  {
    forall i: nat ensures !TerminatorAt(data, delimiter, i) {
      if i < safe {
        RefutedHere(data, delimiter, i);
      }
    }
  }

  lemma FirstHere(data: bytes, delimiter: bytes, at: nat)
    requires TerminatorAt(data, delimiter, at)
    requires forall i: nat | i < at :: Refuted(data, delimiter, i)
    ensures FirstTerminator(data, delimiter, 0) == Some(at)
  {
    forall i: nat | i < at ensures !TerminatorAt(data, delimiter, i) {
      RefutedHere(data, delimiter, i);
    }
  }

  /** Everything the search skipped is refuted. */
  lemma RefutedUpTo(data: bytes, delimiter: bytes, from: nat, found: Option<nat>)
    requires ValidDelimiter(delimiter)
    requires found == Find(data, CRLF_DASHES, from)
    ensures forall i: nat | from <= i && i + 4 <= |data| && (found.None? || i < found.value) ::
              Refuted(data, delimiter, i)
  {
    forall i: nat | from <= i && i + 4 <= |data| && (found.None? || i < found.value)
      ensures Refuted(data, delimiter, i)
    {
      RefutedByCandidate(data, delimiter, i);
    }
  }

  /** `scan_multipart_terminator`. */
  method ScanMultipartTerminator(data: bytes, delimiter: bytes) returns (r: Scan)
    requires ValidDelimiter(delimiter)
    ensures r.Terminator? ==> FirstTerminator(data, delimiter, 0) == Some(r.at)
    ensures r.Data? ==> FirstTerminator(data, delimiter, 0).None?
    ensures r.Data? ==> r.safe <= |data| < r.safe + |delimiter| + 4
    ensures r.Data? ==> forall i: nat | i < r.safe :: Refuted(data, delimiter, i)
  {
    hide Refuted, FirstTerminator, Find, AgreesSoFar;
    var from := 0;
    while true
      invariant from <= |data|
      invariant forall i: nat | i < from :: Refuted(data, delimiter, i)
      decreases |data| - from
    {
      var found := FindBytes(data, CRLF_DASHES, from);
      RefutedUpTo(data, delimiter, from, found);
      if found.None? {
        break;
      }
      assert CRLF_DASHES[0] == data[found.value + 0] && CRLF_DASHES[1] == data[found.value + 1];
      var start := found.value + 2;
      var end := start + |delimiter|;
      if end + 2 > |data| {
        if AgreesSoFar(data, delimiter, start) {
          NoneYet(data, delimiter, found.value);
          return Data(found.value);
        }
        RefuteCandidate(data, delimiter, found.value);
        from := found.value + 2;
        continue;
      }
      SuffixOccurs(data, end);
      if Occurs(data, delimiter, start) && (Occurs(data, CRLF, end) || Occurs(data, DASHES, end)) {
        assert data[found.value] == CR && data[found.value + 1] == LF;
        FirstHere(data, delimiter, found.value);
        return Terminator(found.value);
      }
      RefutedByBytes(data, delimiter, found.value);
      RefutedByFirstByte(data, delimiter, found.value + 1);
      from := found.value + 2;
    }
    r := Data(if |data| < 3 then 0 else |data| - 3);
    NoneYet(data, delimiter, r.safe);
  }

  /** What a scan of a window of `whole` says about `whole` itself. */
  lemma ScanOfWindow(whole: bytes, data: bytes, from: nat, delimiter: bytes, scan: Scan)
    requires Occurs(whole, data, from)
    requires scan.Terminator? ==> FirstTerminator(data, delimiter, 0) == Some(scan.at)
    requires scan.Data? ==> forall i: nat | i < scan.safe :: Refuted(data, delimiter, i)
    ensures scan.Terminator? ==> FirstTerminator(whole, delimiter, from) == Some(from + scan.at)
    ensures scan.Data? ==> forall i: nat | from <= i < from + scan.safe :: !TerminatorAt(whole, delimiter, i)
  {
    if scan.Terminator? {
      forall i: nat | from <= i <= from + scan.at
        ensures TerminatorAt(whole, delimiter, i) == TerminatorAt(data, delimiter, i - from)
      {
        TerminatorInWindow(whole, data, from, delimiter, i - from);
      }
      assert TerminatorAt(whole, delimiter, from + scan.at);
    } else {
      forall i: nat | from <= i < from + scan.safe ensures !TerminatorAt(whole, delimiter, i) {
        assert Refuted(data, delimiter, i - from);
        assert !TerminatorAt(whole, delimiter, from + (i - from));
      }
    }
  }
}
