/**
 * The hash-chained audit log: appending, verifying, fetching a range, and what
 * verification detects.
 */
module AuditChain {
  import opened Outcomes
  import opened AuditHash

  datatype Row = Row(eventSeq: int, fields: AuditFields, prevHash: Hash, eventHash: Hash)

  datatype Violation =
    | SequenceGap(eventSeq: int, expected: int)
    | PrevHashMismatch(eventSeq: int)
    | EventHashMismatch(eventSeq: int)

  // ----- Verification -----

  /** The violations found at one row. */
  function RowViolations(c: Hashing, row: Row, prevHash: Hash, expected: int): seq<Violation> {
    (if row.eventSeq != expected then [SequenceGap(row.eventSeq, expected)] else []) +
    (if row.prevHash != prevHash then [PrevHashMismatch(row.eventSeq)] else []) +
    (if row.eventHash != c.eventHash(row.fields, prevHash) then [EventHashMismatch(row.eventSeq)] else [])
  }

  /** `(expected_seq or event_seq) + 1`: an expected number of zero counts as none. */
  function NextExpected(expected: int, row: Row): int {
    (if expected != 0 then expected else row.eventSeq) + 1
  }

  function VerifyFrom(c: Hashing, rows: seq<Row>, prevHash: Hash, expected: int): seq<Violation> {
    if rows == [] then []
    else
      RowViolations(c, rows[0], prevHash, expected) +
      VerifyFrom(c, rows[1..], rows[0].eventHash, NextExpected(expected, rows[0]))
  }

  /** The violations verify_chain reports. */
  function Verify(c: Hashing, rows: seq<Row>, initial: Hash): seq<Violation> {
    if rows == [] then [] else VerifyFrom(c, rows, initial, rows[0].eventSeq)
  }

  datatype Report = Report(ok: bool, eventsChecked: nat, violations: seq<Violation>)

  lemma VerifyStep(c: Hashing, rows: seq<Row>, i: nat, prevHash: Hash, expected: int)
    requires i < |rows|
    ensures VerifyFrom(c, rows[i..], prevHash, expected) ==
            RowViolations(c, rows[i], prevHash, expected) +
            VerifyFrom(c, rows[i + 1..], rows[i].eventHash, NextExpected(expected, rows[i]))
  {
    assert rows[i..][0] == rows[i] && rows[i..][1..] == rows[i + 1..];
  }

  lemma Appended<T>(before: seq<T>, here: seq<T>, rest: seq<T>)
    ensures before + (here + rest) == (before + here) + rest
  {
  }

  /** The loop of verify_chain. */
  method VerifyChain(c: Hashing, rows: seq<Row>, initialPrevHash: Hash) returns (report: Report)
    ensures report.violations == Verify(c, rows, initialPrevHash)
    ensures report.ok <==> report.violations == []
    ensures report.eventsChecked == |rows|
  {
    var violations: seq<Violation> := [];
    var prevHash := initialPrevHash;
    var expectedSeq: Option<int> := None;
    ghost var all := Verify(c, rows, initialPrevHash);
    for i := 0 to |rows|
      invariant i == 0 ==> expectedSeq == None && violations == [] && prevHash == initialPrevHash
      invariant i > 0 ==> expectedSeq.Some? && violations + VerifyFrom(c, rows[i..], prevHash, expectedSeq.value) == all
    {
      var row := rows[i];
      if expectedSeq == None {
        expectedSeq := Some(row.eventSeq);
        assert rows[0..] == rows;
      }
      ghost var before, expected, last := violations, expectedSeq.value, prevHash;
      assert before + VerifyFrom(c, rows[i..], last, expected) == all;
      var found: seq<Violation> := [];
      if row.eventSeq != expectedSeq.value {
        found := found + [SequenceGap(row.eventSeq, expectedSeq.value)];
      }
      if row.prevHash != prevHash {
        found := found + [PrevHashMismatch(row.eventSeq)];
      }
      if row.eventHash != c.eventHash(row.fields, prevHash) {
        found := found + [EventHashMismatch(row.eventSeq)];
      }
      assert found == RowViolations(c, row, last, expected);
      violations := violations + found;
      prevHash := row.eventHash;
      expectedSeq := Some((if expectedSeq.value != 0 then expectedSeq.value else row.eventSeq) + 1);
      VerifyStep(c, rows, i, last, expected);
      Appended(before, found, VerifyFrom(c, rows[i + 1..], prevHash, expectedSeq.value));
    }
    assert rows[|rows|..] == [];
    report := Report(violations == [], |rows|, violations);
  }

  // ----- What an empty report means -----

  function PrevAt(rows: seq<Row>, initial: Hash, i: nat): Hash
    requires i <= |rows|
  {
    if i == 0 then initial else rows[i - 1].eventHash
  }

  /** Every row holds the hash of the row before and the hash of its own event. */
  ghost predicate Linked(c: Hashing, rows: seq<Row>, initial: Hash) {
    forall i :: 0 <= i < |rows| ==> LinkedAt(c, rows, initial, i)
  }

  ghost predicate LinkedAt(c: Hashing, rows: seq<Row>, initial: Hash, i: nat)
    requires i < |rows|
  {
    rows[i].prevHash == PrevAt(rows, initial, i) &&
    rows[i].eventHash == c.eventHash(rows[i].fields, PrevAt(rows, initial, i))
  }

  ghost predicate Consecutive(rows: seq<Row>) {
    forall i :: 0 <= i < |rows| ==> rows[i].eventSeq == rows[0].eventSeq + i
  }

  ghost predicate NumberedFrom(rows: seq<Row>, first: int) {
    forall i :: 0 <= i < |rows| ==> rows[i].eventSeq == first + i
  }

  lemma LinkedTail(c: Hashing, rows: seq<Row>, initial: Hash)
    requires rows != []
    ensures Linked(c, rows, initial) <==> LinkedAt(c, rows, initial, 0) && Linked(c, rows[1..], rows[0].eventHash)
  {
    assert forall i :: 0 < i < |rows| ==> rows[1..][i - 1] == rows[i];
    assert forall i :: 0 < i < |rows| ==> PrevAt(rows[1..], rows[0].eventHash, i - 1) == PrevAt(rows, initial, i);
    assert forall i :: 0 < i < |rows| ==>
        (LinkedAt(c, rows[1..], rows[0].eventHash, i - 1) <==> LinkedAt(c, rows, initial, i));
    if LinkedAt(c, rows, initial, 0) && Linked(c, rows[1..], rows[0].eventHash) {
      forall i | 0 <= i < |rows| ensures LinkedAt(c, rows, initial, i) {
        if i > 0 { assert LinkedAt(c, rows[1..], rows[0].eventHash, i - 1); }
      }
    }
    if Linked(c, rows, initial) {
      forall i | 0 <= i < |rows[1..]| ensures LinkedAt(c, rows[1..], rows[0].eventHash, i) {
        assert LinkedAt(c, rows, initial, i + 1);
      }
    }
  }

  lemma {:induction false} VerifyFromMeans(c: Hashing, rows: seq<Row>, prevHash: Hash, expected: int)
    ensures VerifyFrom(c, rows, prevHash, expected) == [] <==> Linked(c, rows, prevHash) && NumberedFrom(rows, expected)
  {
    if rows != [] {
      VerifyFromMeans(c, rows[1..], rows[0].eventHash, NextExpected(expected, rows[0]));
      LinkedTail(c, rows, prevHash);
      assert forall i :: 0 < i < |rows| ==> rows[1..][i - 1] == rows[i];
      assert NumberedFrom(rows, expected) <==>
          rows[0].eventSeq == expected && NumberedFrom(rows[1..], expected + 1) by {
        if rows[0].eventSeq == expected && NumberedFrom(rows[1..], expected + 1) {
          forall i | 0 <= i < |rows| ensures rows[i].eventSeq == expected + i {
            if i > 0 { assert rows[1..][i - 1].eventSeq == expected + 1 + (i - 1); }
          }
        }
      }
      if rows[0].eventSeq != expected {
        assert SequenceGap(rows[0].eventSeq, expected) in VerifyFrom(c, rows, prevHash, expected);
      }
    }
  }

  /** A log verifies exactly when its hashes are linked and its numbers leave no gap. */
  lemma VerifyMeans(c: Hashing, rows: seq<Row>, initial: Hash)
    ensures Verify(c, rows, initial) == [] <==> Linked(c, rows, initial) && Consecutive(rows)
  {
    if rows != [] {
      VerifyFromMeans(c, rows, initial, rows[0].eventSeq);
    }
  }

  // ----- Splitting a log -----

  /** Verifying a log in two parts is as good as verifying it whole, provided the numbers continue. */
  lemma SplitVerification(c: Hashing, a: seq<Row>, b: seq<Row>, initial: Hash)
    requires a != [] && b != []
    ensures Verify(c, a + b, initial) == [] <==>
            Verify(c, a, initial) == [] && Verify(c, b, a[|a| - 1].eventHash) == [] &&
            b[0].eventSeq == a[|a| - 1].eventSeq + 1
  {
    var last := a[|a| - 1];
    VerifyMeans(c, a + b, initial);
    VerifyMeans(c, a, initial);
    VerifyMeans(c, b, last.eventHash);
    forall i | 0 <= i < |a| ensures LinkedAt(c, a + b, initial, i) <==> LinkedAt(c, a, initial, i) {}
    forall i | 0 <= i < |b| ensures LinkedAt(c, a + b, initial, |a| + i) <==> LinkedAt(c, b, last.eventHash, i) {
      assert PrevAt(a + b, initial, |a| + i) == PrevAt(b, last.eventHash, i);
    }
    if Linked(c, a + b, initial) && Consecutive(a + b) {
      assert forall i :: 0 <= i < |a| ==> LinkedAt(c, a + b, initial, i);
      forall i | 0 <= i < |b| ensures LinkedAt(c, b, last.eventHash, i) { assert LinkedAt(c, a + b, initial, |a| + i); }
      assert (a + b)[0] == a[0] && (a + b)[|a| - 1] == last;
      forall i | 0 <= i < |a| ensures a[i].eventSeq == a[0].eventSeq + i { assert (a + b)[i] == a[i]; }
      forall i | 0 <= i < |b| ensures b[i].eventSeq == a[0].eventSeq + |a| + i { assert (a + b)[|a| + i] == b[i]; }
    }
    if Linked(c, a, initial) && Consecutive(a) && Linked(c, b, last.eventHash) && Consecutive(b) &&
        b[0].eventSeq == last.eventSeq + 1 {
      forall i | 0 <= i < |a + b| ensures LinkedAt(c, a + b, initial, i) {
        if i >= |a| { assert LinkedAt(c, b, last.eventHash, i - |a|); }
      }
      forall i | 0 <= i < |a + b| ensures (a + b)[i].eventSeq == (a + b)[0].eventSeq + i {}
    }
  }

  // ----- Tampering -----

  lemma HashIdentifies(c: Hashing, f: AuditFields, p: Hash, g: AuditFields, q: Hash)
    requires Commits(c) && ValidFields(f) && ValidFields(g)
    ensures c.eventHash(f, p) == c.eventHash(g, q) <==> SameEvent(f, g) && p == q
    ensures c.eventHash(f, p) != c.genesis
  {
    assert Identifies(c, f, p, g, q);
  }

  ghost predicate ValidLog(rows: seq<Row>) {
    forall i :: 0 <= i < |rows| ==> ValidFields(rows[i].fields)
  }

  /**
   * Rewriting the event of one row of a verified log, its hashes left in place,
   * is reported as one hash mismatch at that row, unless only key order changed.
   */
  lemma EditDetected(c: Hashing, rows: seq<Row>, initial: Hash, k: nat, edited: AuditFields)
    requires Commits(c) && ValidLog(rows) && ValidFields(edited)
    requires Verify(c, rows, initial) == [] && k < |rows|
    ensures Verify(c, rows[k := rows[k].(fields := edited)], initial) ==
            if SameEvent(rows[k].fields, edited) then [] else [EventHashMismatch(rows[k].eventSeq)]
  {
    VerifyMeans(c, rows, initial);
    EditFrom(c, rows, initial, rows[0].eventSeq, k, edited);
  }

  lemma {:induction false} EditFrom(c: Hashing, rows: seq<Row>, prevHash: Hash, expected: int, k: nat,
          edited: AuditFields)
    requires Commits(c) && ValidLog(rows) && ValidFields(edited)
    requires Linked(c, rows, prevHash) && NumberedFrom(rows, expected) && k < |rows|
    ensures VerifyFrom(c, rows[k := rows[k].(fields := edited)], prevHash, expected) ==
            if SameEvent(rows[k].fields, edited) then [] else [EventHashMismatch(rows[k].eventSeq)]
  {
    var changed := rows[k := rows[k].(fields := edited)];
    LinkedTail(c, rows, prevHash);
    assert forall i :: 0 < i < |rows| ==> rows[1..][i - 1] == rows[i];
    assert NumberedFrom(rows[1..], expected + 1);
    if k == 0 {
      assert changed[1..] == rows[1..];
      VerifyFromMeans(c, rows[1..], rows[0].eventHash, expected + 1);
      HashIdentifies(c, rows[0].fields, prevHash, edited, prevHash);
      assert RowViolations(c, changed[0], prevHash, expected) ==
             if SameEvent(rows[0].fields, edited) then [] else [EventHashMismatch(rows[0].eventSeq)];
    } else {
      assert changed[0] == rows[0];
      assert changed[1..] == rows[1..][k - 1 := rows[1..][k - 1].(fields := edited)];
      EditFrom(c, rows[1..], rows[0].eventHash, expected + 1, k - 1, edited);
    }
  }

  /** The gaps reported from row j on, when every number is one more than expected. */
  function Gaps(rows: seq<Row>): seq<Violation> {
    if rows == [] then [] else [SequenceGap(rows[0].eventSeq, rows[0].eventSeq - 1)] + Gaps(rows[1..])
  }

  lemma LinkedHash(c: Hashing, rows: seq<Row>, i: nat)
    requires Commits(c) && ValidLog(rows) && Linked(c, rows, c.genesis) && 0 < i <= |rows|
    ensures ValidFields(rows[i - 1].fields)
    ensures PrevAt(rows, c.genesis, i) == c.eventHash(rows[i - 1].fields, PrevAt(rows, c.genesis, i - 1)) != c.genesis
  {
    assert LinkedAt(c, rows, c.genesis, i - 1);
    HashIdentifies(c, rows[i - 1].fields, rows[i - 1].prevHash, rows[i - 1].fields, rows[i - 1].prevHash);
  }

  /** Equal hashes in two linked logs come from the same event behind equal hashes. */
  lemma SameHash(c: Hashing, a: seq<Row>, m: nat, b: seq<Row>, n: nat)
    requires Commits(c) && ValidLog(a) && ValidLog(b) && Linked(c, a, c.genesis) && Linked(c, b, c.genesis)
    requires 0 < m <= |a| && 0 < n <= |b| && PrevAt(a, c.genesis, m) == PrevAt(b, c.genesis, n)
    ensures PrevAt(a, c.genesis, m - 1) == PrevAt(b, c.genesis, n - 1)
    ensures SameEvent(a[m - 1].fields, b[n - 1].fields)
  {
    LinkedHash(c, a, m);
    LinkedHash(c, b, n);
    HashIdentifies(c, a[m - 1].fields, PrevAt(a, c.genesis, m - 1), b[n - 1].fields, PrevAt(b, c.genesis, n - 1));
  }

  /** No event hash of a log from genesis occurs twice, and none is the genesis value. */
  lemma {:induction false} HashesDistinct(c: Hashing, rows: seq<Row>, i: nat, j: nat)
    requires Commits(c) && ValidLog(rows) && Linked(c, rows, c.genesis)
    requires i < j <= |rows|
    ensures PrevAt(rows, c.genesis, i) != PrevAt(rows, c.genesis, j)
  {
    LinkedHash(c, rows, j);
    if i > 0 {
      HashesDistinct(c, rows, i - 1, j - 1);
      if PrevAt(rows, c.genesis, i) == PrevAt(rows, c.genesis, j) { SameHash(c, rows, i, rows, j); }
    }
  }

  /** What verification reports about a log from genesis after row k was deleted. */
  function DeletionReport(rows: seq<Row>, k: nat): seq<Violation>
    requires k < |rows|
  {
    if k == |rows| - 1 then []
    else
      var next := rows[k + 1];
      (if k == 0 then [] else [SequenceGap(next.eventSeq, next.eventSeq - 1)]) +
      [PrevHashMismatch(next.eventSeq), EventHashMismatch(next.eventSeq)] +
      (if k == 0 then [] else Gaps(rows[k + 2..]))
  }

  /**
   * Deleting one row: an interior row leaves both mismatches at exactly the next
   * row and a gap at every later row; the first row leaves only the mismatches;
   * the last row leaves no trace in the log itself.
   */
  lemma DeletionDetected(c: Hashing, rows: seq<Row>, k: nat)
    requires Commits(c) && ValidLog(rows) && Verify(c, rows, c.genesis) == []
    requires k < |rows| && rows[0].eventSeq >= 1
    ensures Verify(c, rows[..k] + rows[k + 1..], c.genesis) == DeletionReport(rows, k)
  {
    VerifyMeans(c, rows, c.genesis);
    if k == |rows| - 1 {
      LastDeleted(c, rows);
      assert rows[..k] + rows[k + 1..] == rows[..k];
    } else if k == 0 {
      FirstDeleted(c, rows);
      assert rows[..0] + rows[1..] == rows[1..];
    } else {
      InteriorDeleted(c, rows, k);
    }
  }

  lemma LastDeleted(c: Hashing, rows: seq<Row>)
    requires Linked(c, rows, c.genesis) && Consecutive(rows) && rows != []
    ensures Verify(c, rows[..|rows| - 1], c.genesis) == []
  {
    LinkedPrefix(c, rows, |rows| - 1);
    VerifyMeans(c, rows[..|rows| - 1], c.genesis);
  }

  lemma InteriorDeleted(c: Hashing, rows: seq<Row>, k: nat)
    requires Commits(c) && ValidLog(rows) && Linked(c, rows, c.genesis) && Consecutive(rows)
    requires 0 < k < |rows| - 1 && rows[0].eventSeq >= 1
    ensures Verify(c, rows[..k] + rows[k + 1..], c.genesis) == DeletionReport(rows, k)
  {
    LinkedPrefix(c, rows, k);
    assert (rows[..k] + rows[k + 1..])[0] == rows[0];
    GoodPrefix(c, rows[..k], rows[k + 1..], c.genesis, rows[0].eventSeq);
    DeletedAt(c, rows, k);
  }

  lemma LinkedPrefix(c: Hashing, rows: seq<Row>, k: nat)
    requires Linked(c, rows, c.genesis) && Consecutive(rows) && k < |rows|
    ensures Linked(c, rows[..k], c.genesis) && NumberedFrom(rows[..k], rows[0].eventSeq) && Consecutive(rows[..k])
  {
    forall i | 0 <= i < k ensures LinkedAt(c, rows[..k], c.genesis, i) { assert LinkedAt(c, rows, c.genesis, i); }
  }

  lemma FirstDeleted(c: Hashing, rows: seq<Row>)
    requires Commits(c) && ValidLog(rows) && Linked(c, rows, c.genesis) && Consecutive(rows) && |rows| >= 2
    ensures Verify(c, rows[1..], c.genesis) == [PrevHashMismatch(rows[1].eventSeq), EventHashMismatch(rows[1].eventSeq)]
  {
    var s := rows[1].eventSeq;
    VerifyStep(c, rows, 1, c.genesis, s);
    DeletedHere(c, rows, 0, s);
    TailVerifies(c, rows, 2, rows[2..]);
    VerifyFromMeans(c, rows[2..], rows[1].eventHash, s + 1);
  }

  /** The suffix of a linked log is linked from the hash before it, and numbered in order. */
  lemma TailVerifies(c: Hashing, rows: seq<Row>, i: nat, tail: seq<Row>)
    requires Linked(c, rows, c.genesis) && Consecutive(rows) && 0 < i <= |rows| && tail == rows[i..]
    ensures Linked(c, tail, rows[i - 1].eventHash) && NumberedFrom(tail, rows[i - 1].eventSeq + 1)
  {
    var before := rows[i - 1].eventHash;
    forall j | 0 <= j < |tail| ensures LinkedAt(c, tail, before, j) {
      assert LinkedAt(c, rows, c.genesis, i + j);
    }
    forall j | 0 <= j < |tail| ensures tail[j].eventSeq == rows[i - 1].eventSeq + 1 + j {
      assert rows[i + j].eventSeq == rows[0].eventSeq + (i + j);
    }
  }

  /** Row k + 1 read as the successor of row k - 1. */
  lemma DeletedHere(c: Hashing, rows: seq<Row>, k: nat, expected: int)
    requires Commits(c) && ValidLog(rows) && Linked(c, rows, c.genesis) && k + 1 < |rows|
    ensures RowViolations(c, rows[k + 1], PrevAt(rows, c.genesis, k), expected) ==
            (if rows[k + 1].eventSeq != expected then [SequenceGap(rows[k + 1].eventSeq, expected)] else []) +
            [PrevHashMismatch(rows[k + 1].eventSeq), EventHashMismatch(rows[k + 1].eventSeq)]
  {
    assert LinkedAt(c, rows, c.genesis, k + 1);
    HashesDistinct(c, rows, k, k + 1);
    HashIdentifies(c, rows[k + 1].fields, PrevAt(rows, c.genesis, k), rows[k + 1].fields,
        PrevAt(rows, c.genesis, k + 1));
  }

  lemma {:induction false} GapsFrom(c: Hashing, rows: seq<Row>, prevHash: Hash, expected: int)
    requires Linked(c, rows, prevHash) && NumberedFrom(rows, expected + 1) && expected >= 1
    ensures VerifyFrom(c, rows, prevHash, expected) == Gaps(rows)
  {
    if rows != [] {
      LinkedTail(c, rows, prevHash);
      assert forall i :: 0 < i < |rows| ==> rows[1..][i - 1] == rows[i];
      GapsFrom(c, rows[1..], rows[0].eventHash, expected + 1);
    }
  }

  /** The report from row k + 1 on, read after row k - 1. */
  lemma DeletedAt(c: Hashing, rows: seq<Row>, k: nat)
    requires Commits(c) && ValidLog(rows) && Linked(c, rows, c.genesis) && Consecutive(rows)
    requires 0 < k < |rows| - 1 && rows[0].eventSeq >= 1
    ensures VerifyFrom(c, rows[k + 1..], PrevAt(rows, c.genesis, k), rows[0].eventSeq + k) == DeletionReport(rows, k)
  {
    var next := rows[k + 1];
    var expected := rows[0].eventSeq + k;
    assert next.eventSeq == rows[0].eventSeq + (k + 1);
    assert NextExpected(expected, next) == next.eventSeq;
    VerifyStep(c, rows, k + 1, PrevAt(rows, c.genesis, k), expected);
    DeletedHere(c, rows, k, expected);
    TailVerifies(c, rows, k + 2, rows[k + 2..]);
    GapsFrom(c, rows[k + 2..], next.eventHash, next.eventSeq);
    var found := RowViolations(c, next, PrevAt(rows, c.genesis, k), expected);
    assert found == [SequenceGap(next.eventSeq, expected)] +
        [PrevHashMismatch(next.eventSeq), EventHashMismatch(next.eventSeq)];
    assert DeletionReport(rows, k) == found + Gaps(rows[k + 2..]);
  }

  /** A prefix without violations adds nothing to the report. */
  lemma {:induction false} GoodPrefix(c: Hashing, a: seq<Row>, b: seq<Row>, prevHash: Hash, expected: int)
    requires Linked(c, a, prevHash) && NumberedFrom(a, expected)
    ensures VerifyFrom(c, a + b, prevHash, expected) == VerifyFrom(c, b, PrevAt(a, prevHash, |a|), expected + |a|)
  {
    if a == [] {
      assert a + b == b;
    } else {
      LinkedTail(c, a, prevHash);
      assert forall i :: 0 < i < |a| ==> a[1..][i - 1] == a[i];
      assert NumberedFrom(a[1..], expected + 1);
      assert a[0].eventSeq == expected && LinkedAt(c, a, prevHash, 0);
      assert (a + b)[0] == a[0] && (a + b)[1..] == a[1..] + b;
      GoodPrefix(c, a[1..], b, a[0].eventHash, expected + 1);
      assert PrevAt(a[1..], a[0].eventHash, |a| - 1) == PrevAt(a, prevHash, |a|);
    }
  }

  // ----- The last hash commits to the log -----

  /** Two verified logs from genesis with the same last hash hold the same events, in the same order. */
  lemma {:induction false} LastHashCommits(c: Hashing, a: seq<Row>, b: seq<Row>)
    requires Commits(c) && ValidLog(a) && ValidLog(b)
    requires Verify(c, a, c.genesis) == [] && Verify(c, b, c.genesis) == []
    requires PrevAt(a, c.genesis, |a|) == PrevAt(b, c.genesis, |b|)
    ensures |a| == |b|
    ensures forall i :: 0 <= i < |a| ==> SameEvent(a[i].fields, b[i].fields) && a[i].eventHash == b[i].eventHash
  {
    VerifyMeans(c, a, c.genesis);
    VerifyMeans(c, b, c.genesis);
    HashesMatch(c, a, |a|, b, |b|, 0);
    forall i | 0 <= i < |a| ensures SameEvent(a[i].fields, b[i].fields) && a[i].eventHash == b[i].eventHash {
      HashesMatch(c, a, |a|, b, |b|, i + 1);
      SameHash(c, a, i + 1, b, i + 1);
    }
  }

  lemma {:induction false} HashesMatch(c: Hashing, a: seq<Row>, m: nat, b: seq<Row>, n: nat, i: nat)
    requires Commits(c) && ValidLog(a) && ValidLog(b) && i <= m <= |a| && n <= |b|
    requires Linked(c, a, c.genesis) && Linked(c, b, c.genesis)
    requires PrevAt(a, c.genesis, m) == PrevAt(b, c.genesis, n)
    ensures m == n && PrevAt(a, c.genesis, i) == PrevAt(b, c.genesis, i)
  {
    if m > 0 { LinkedHash(c, a, m); }
    if n > 0 { LinkedHash(c, b, n); }
    if m > 0 && n > 0 {
      SameHash(c, a, m, b, n);
      HashesMatch(c, a, m - 1, b, n - 1, if i < m then i else i - 1);
    }
  }

  // ----- Appending -----

  /** The record an append returns. */
  datatype EventRecord = EventRecord(eventSeq: int, eventId: string, occurredAt: string, eventHash: Hash)

  datatype AppendError = IdempotencyConflict

  function RecordOf(row: Row): EventRecord {
    EventRecord(row.eventSeq, row.fields.eventId, row.fields.occurredAt, row.eventHash)
  }

  function FindEvent(rows: seq<Row>, eventId: string): Option<Row> {
    if rows == [] then None
    else if rows[0].fields.eventId == eventId then Some(rows[0])
    else FindEvent(rows[1..], eventId)
  }

  /** The unique index on (service_name, idempotency_key) for rows that have a key. */
  predicate IdempotencyTaken(rows: seq<Row>, f: AuditFields) {
    f.idempotencyKey.Some? &&
    exists i :: 0 <= i < |rows| && rows[i].fields.serviceName == f.serviceName &&
        rows[i].fields.idempotencyKey == f.idempotencyKey
  }

  function TailHash(c: Hashing, rows: seq<Row>): Hash { PrevAt(rows, c.genesis, |rows|) }

  function NewRow(c: Hashing, rows: seq<Row>, f: AuditFields, number: int): Row {
    Row(number, f, TailHash(c, rows), c.eventHash(f, TailHash(c, rows)))
  }

  /** The log after append_event; number is the identity value the database would give the row. */
  function Append(c: Hashing, rows: seq<Row>, f: AuditFields, number: int): seq<Row> {
    if FindEvent(rows, f.eventId).Some? || IdempotencyTaken(rows, f) then rows
    else rows + [NewRow(c, rows, f, number)]
  }

  /** Rows in the order of their numbers, as the identity column hands them out. */
  ghost predicate Ascending(rows: seq<Row>) {
    forall i, j :: 0 <= i < j < |rows| ==> rows[i].eventSeq < rows[j].eventSeq
  }

  class AuditLog {
    var rows: seq<Row>

    constructor ()
      ensures rows == []
    {
      rows := [];
    }

    /** Chain the event to the last row, unless its id is already stored. */
    method AppendEvent(c: Hashing, f: AuditFields, number: int) returns (r: Result<EventRecord, AppendError>)
      modifies this
      ensures rows == Append(c, old(rows), f, number)
      ensures FindEvent(old(rows), f.eventId).Some? ==>
                rows == old(rows) && r == Ok(RecordOf(FindEvent(old(rows), f.eventId).value))
      ensures FindEvent(old(rows), f.eventId).None? ==>
                r == if IdempotencyTaken(old(rows), f) then Err(IdempotencyConflict) else Ok(RecordOf(rows[|rows| - 1]))
    {
      var prevHash := c.genesis;
      if rows != [] {
        prevHash := rows[|rows| - 1].eventHash;
      }
      var eventHash := c.eventHash(f, prevHash);
      var existing := FindEvent(rows, f.eventId);
      if existing.None? {
        if IdempotencyTaken(rows, f) {
          return Err(IdempotencyConflict);
        }
        rows := rows + [Row(number, f, prevHash, eventHash)];
        return Ok(RecordOf(rows[|rows| - 1]));
      }
      r := Ok(RecordOf(existing.value));
    }
  }

  datatype Request = Request(fields: AuditFields, number: int)

  /** The log after a run of appends. */
  function AppendAll(c: Hashing, rows: seq<Row>, requests: seq<Request>): seq<Row>
    decreases |requests|
  {
    if requests == [] then rows
    else AppendAll(c, Append(c, rows, requests[0].fields, requests[0].number), requests[1..])
  }

  /** The identity column never hands out a number twice or backwards. */
  ghost predicate NumbersIncrease(rows: seq<Row>, requests: seq<Request>) {
    && (forall i, j :: 0 <= i < j < |requests| ==> requests[i].number < requests[j].number)
    && (forall i, j :: 0 <= i < |rows| && 0 <= j < |requests| ==> rows[i].eventSeq < requests[j].number)
  }

  lemma AppendLinks(c: Hashing, rows: seq<Row>, f: AuditFields, number: int)
    requires Linked(c, rows, c.genesis)
    ensures Linked(c, Append(c, rows, f, number), c.genesis)
  {
    var after := Append(c, rows, f, number);
    forall i | 0 <= i < |after| ensures LinkedAt(c, after, c.genesis, i) {
      if i < |rows| { assert LinkedAt(c, rows, c.genesis, i); }
    }
  }

  lemma {:induction false} OnlyGaps(c: Hashing, rows: seq<Row>, prevHash: Hash, expected: int)
    requires Linked(c, rows, prevHash)
    ensures forall v :: v in VerifyFrom(c, rows, prevHash, expected) ==> v.SequenceGap?
  {
    if rows != [] {
      LinkedTail(c, rows, prevHash);
      OnlyGaps(c, rows[1..], rows[0].eventHash, NextExpected(expected, rows[0]));
    }
  }

  /**
   * Every log built by appends, whatever increasing numbers the database gives,
   * only grows, is linked from genesis and in ascending order; verification
   * reports nothing but gaps in the numbers, and every gap there is.
   */
  lemma {:induction false} BuiltLogVerifies(c: Hashing, rows: seq<Row>, requests: seq<Request>)
    requires Linked(c, rows, c.genesis) && Ascending(rows) && NumbersIncrease(rows, requests)
    ensures Linked(c, AppendAll(c, rows, requests), c.genesis) && Ascending(AppendAll(c, rows, requests))
    ensures Verify(c, AppendAll(c, rows, requests), c.genesis) == [] <==> Consecutive(AppendAll(c, rows, requests))
    ensures forall v :: v in Verify(c, AppendAll(c, rows, requests), c.genesis) ==> v.SequenceGap?
    ensures rows <= AppendAll(c, rows, requests)
    decreases |requests|
  {
    if requests == [] {
      VerifyMeans(c, rows, c.genesis);
      if rows != [] { OnlyGaps(c, rows, c.genesis, rows[0].eventSeq); }
    } else {
      AppendLinks(c, rows, requests[0].fields, requests[0].number);
      BuiltLogVerifies(c, Append(c, rows, requests[0].fields, requests[0].number), requests[1..]);
    }
  }

  lemma {:induction false} FindEventStable(rows: seq<Row>, longer: seq<Row>, eventId: string)
    requires rows <= longer && FindEvent(rows, eventId).Some?
    ensures FindEvent(longer, eventId) == FindEvent(rows, eventId)
  {
    if rows[0].fields.eventId != eventId {
      FindEventStable(rows[1..], longer[1..], eventId);
    }
  }

  lemma {:induction false} FindNewEvent(rows: seq<Row>, row: Row)
    requires FindEvent(rows, row.fields.eventId).None?
    ensures FindEvent(rows + [row], row.fields.eventId) == Some(row)
  {
    if rows != [] {
      assert (rows + [row])[1..] == rows[1..] + [row];
      FindNewEvent(rows[1..], row);
    }
  }

  /**
   * Once an event is stored, appending its id again, after any further appends,
   * finds the row first stored and leaves the log unchanged.
   */
  lemma ReappendFindsFirst(c: Hashing, rows: seq<Row>, first: Request, later: seq<Request>, again: Request)
    requires Linked(c, rows, c.genesis) && Ascending(rows) && NumbersIncrease(rows, [first] + later)
    requires FindEvent(rows, first.fields.eventId).None? && !IdempotencyTaken(rows, first.fields)
    requires again.fields.eventId == first.fields.eventId
    ensures var log := AppendAll(c, rows, [first] + later);
            FindEvent(log, again.fields.eventId) == Some(NewRow(c, rows, first.fields, first.number)) &&
            Append(c, log, again.fields, again.number) == log
  {
    var one := Append(c, rows, first.fields, first.number);
    var requests := [first] + later;
    FindNewEvent(rows, NewRow(c, rows, first.fields, first.number));
    AppendLinks(c, rows, first.fields, first.number);
    assert requests[0] == first && requests[1..] == later;
    assert forall i :: 0 <= i < |later| ==> later[i] == requests[i + 1];
    BuiltLogVerifies(c, one, later);
    FindEventStable(one, AppendAll(c, one, later), first.fields.eventId);
  }

  // ----- Refused attempts use up numbers -----

  /** The identity column hands out one number per attempt, also to one that is then refused. */
  function Numbered(attempts: seq<AuditFields>, next: int): (requests: seq<Request>)
    ensures |requests| == |attempts|
    ensures forall i :: 0 <= i < |attempts| ==> requests[i] == Request(attempts[i], next + i)
  {
    if attempts == [] then [] else [Request(attempts[0], next)] + Numbered(attempts[1..], next + 1)
  }

  /** The id of the event is stored, or its idempotency key taken. */
  predicate Refused(rows: seq<Row>, f: AuditFields) { FindEvent(rows, f.eventId).Some? || IdempotencyTaken(rows, f) }

  /** What the id and key of an event are refused against. */
  predicate Clashes(f: AuditFields, stored: AuditFields) {
    stored.eventId == f.eventId ||
    (f.idempotencyKey.Some? && stored.serviceName == f.serviceName && stored.idempotencyKey == f.idempotencyKey)
  }

  predicate ClashesWithAny(f: AuditFields, stored: seq<AuditFields>) { exists g :: g in stored && Clashes(f, g) }

  /** Which attempts insert a row, given the events stored before: those that clash with none accepted earlier. */
  function Accepted(stored: seq<AuditFields>, attempts: seq<AuditFields>): (accepted: seq<bool>)
    ensures |accepted| == |attempts|
    decreases |attempts|
  {
    if attempts == [] then []
    else if ClashesWithAny(attempts[0], stored) then [false] + Accepted(stored, attempts[1..])
    else [true] + Accepted(stored + [attempts[0]], attempts[1..])
  }

  /** No refused attempt comes before an accepted one. */
  ghost predicate RefusalsLast(accepted: seq<bool>) {
    forall i, j :: 0 <= i < j < |accepted| && accepted[j] ==> accepted[i]
  }

  function EventsOf(rows: seq<Row>): (events: seq<AuditFields>)
    ensures |events| == |rows| && forall i :: 0 <= i < |rows| ==> events[i] == rows[i].fields
  {
    if rows == [] then [] else [rows[0].fields] + EventsOf(rows[1..])
  }

  lemma {:induction false} FindEventMeans(rows: seq<Row>, eventId: string)
    ensures FindEvent(rows, eventId).Some? <==> exists i :: 0 <= i < |rows| && rows[i].fields.eventId == eventId
  {
    if rows != [] {
      FindEventMeans(rows[1..], eventId);
      assert forall i :: 0 < i < |rows| ==> rows[1..][i - 1] == rows[i];
    }
  }

  lemma RefusedMeans(rows: seq<Row>, f: AuditFields)
    ensures Refused(rows, f) <==> ClashesWithAny(f, EventsOf(rows))
  {
    FindEventMeans(rows, f.eventId);
    var events := EventsOf(rows);
    forall i | 0 <= i < |rows| ensures events[i] in events && events[i] == rows[i].fields {}
    if g :| g in events && Clashes(f, g) {
      var i :| 0 <= i < |events| && events[i] == g;
      assert rows[i].fields == g;
    }
  }

  lemma EventsOfAppended(rows: seq<Row>, row: Row)
    ensures EventsOf(rows + [row]) == EventsOf(rows) + [row.fields]
  {
  }

  lemma AcceptedTail(stored: seq<AuditFields>, attempts: seq<AuditFields>)
    requires attempts != []
    ensures var f, rest := attempts[0], attempts[1..];
            RefusalsLast(Accepted(stored, attempts)) <==>
            if ClashesWithAny(f, stored) then true !in Accepted(stored, rest)
            else RefusalsLast(Accepted(stored + [f], rest))
  {
    var f, all := attempts[0], Accepted(stored, attempts);
    var rest := Accepted(if ClashesWithAny(f, stored) then stored else stored + [f], attempts[1..]);
    assert all == [all[0]] + rest;
    assert forall i :: 0 < i < |all| ==> all[i] == rest[i - 1];
    assert forall i :: 0 <= i < |rest| ==> rest[i] == all[i + 1];
    assert true in rest <==> exists j :: 0 <= j < |rest| && rest[j];
  }

  /** Once a number has been skipped, the next row inserted leaves a gap. */
  lemma {:induction false} SkippedNumber(c: Hashing, rows: seq<Row>, attempts: seq<AuditFields>, next: int)
    requires rows != [] && rows[|rows| - 1].eventSeq + 1 < next && Consecutive(rows)
    ensures Consecutive(AppendAll(c, rows, Numbered(attempts, next))) <==> true !in Accepted(EventsOf(rows), attempts)
    decreases |attempts|
  {
    if attempts != [] {
      var f, rest := attempts[0], attempts[1..];
      AppendNumbered(c, rows, attempts, next);
      RefusedMeans(rows, f);
      if Refused(rows, f) {
        SkippedNumber(c, rows, rest, next + 1);
      } else {
        var all, row := AppendAll(c, rows, Numbered(attempts, next)), NewRow(c, rows, f, next);
        AppendAllExtends(c, rows + [row], Numbered(rest, next + 1));
        assert all[|rows|] == row && all[0] == rows[0];
        assert rows[|rows| - 1].eventSeq == rows[0].eventSeq + |rows| - 1;
      }
    }
  }

  lemma {:induction false} AppendAllExtends(c: Hashing, rows: seq<Row>, requests: seq<Request>)
    ensures rows <= AppendAll(c, rows, requests)
    decreases |requests|
  {
    if requests != [] {
      AppendAllExtends(c, Append(c, rows, requests[0].fields, requests[0].number), requests[1..]);
    }
  }

  /** The next number may follow the log without a gap. */
  ghost predicate Continues(rows: seq<Row>, next: int) { rows != [] ==> rows[|rows| - 1].eventSeq + 1 == next }

  lemma NextRowContinues(rows: seq<Row>, row: Row)
    requires Consecutive(rows) && Continues(rows, row.eventSeq)
    ensures Consecutive(rows + [row]) && Continues(rows + [row], row.eventSeq + 1)
  {
    var all := rows + [row];
    forall i | 0 <= i < |all| ensures all[i].eventSeq == all[0].eventSeq + i {
      if rows != [] && i == |rows| { assert rows[|rows| - 1].eventSeq == rows[0].eventSeq + |rows| - 1; }
    }
  }

  lemma AppendNumbered(c: Hashing, rows: seq<Row>, attempts: seq<AuditFields>, next: int)
    requires attempts != []
    ensures AppendAll(c, rows, Numbered(attempts, next)) ==
            AppendAll(c, Append(c, rows, attempts[0], next), Numbered(attempts[1..], next + 1))
  {
    assert Numbered(attempts, next)[1..] == Numbered(attempts[1..], next + 1);
  }

  lemma RefusedFirst(c: Hashing, rows: seq<Row>, attempts: seq<AuditFields>, next: int)
    requires attempts != [] && Refused(rows, attempts[0]) && Consecutive(rows) && Continues(rows, next)
    ensures Consecutive(AppendAll(c, rows, Numbered(attempts, next))) <==>
            RefusalsLast(Accepted(EventsOf(rows), attempts))
  {
    AppendNumbered(c, rows, attempts, next);
    RefusedMeans(rows, attempts[0]);
    AcceptedTail(EventsOf(rows), attempts);
    SkippedNumber(c, rows, attempts[1..], next + 1);
  }

  lemma AcceptedFirst(c: Hashing, rows: seq<Row>, attempts: seq<AuditFields>, next: int)
    requires attempts != [] && !Refused(rows, attempts[0]) && Consecutive(rows) && Continues(rows, next)
    ensures var one := rows + [NewRow(c, rows, attempts[0], next)];
            && Consecutive(one) && Continues(one, next + 1)
            && AppendAll(c, rows, Numbered(attempts, next)) == AppendAll(c, one, Numbered(attempts[1..], next + 1))
            && (RefusalsLast(Accepted(EventsOf(rows), attempts)) <==>
                RefusalsLast(Accepted(EventsOf(one), attempts[1..])))
  {
    var row := NewRow(c, rows, attempts[0], next);
    AppendNumbered(c, rows, attempts, next);
    RefusedMeans(rows, attempts[0]);
    AcceptedTail(EventsOf(rows), attempts);
    NextRowContinues(rows, row);
    EventsOfAppended(rows, row);
  }

  lemma {:induction false} AttemptsLeaveNoGap(c: Hashing, rows: seq<Row>, attempts: seq<AuditFields>, next: int)
    requires Consecutive(rows) && Continues(rows, next)
    ensures Consecutive(AppendAll(c, rows, Numbered(attempts, next))) <==>
            RefusalsLast(Accepted(EventsOf(rows), attempts))
    decreases |attempts|
  {
    if attempts != [] {
      if Refused(rows, attempts[0]) {
        RefusedFirst(c, rows, attempts, next);
      } else {
        AcceptedFirst(c, rows, attempts, next);
        AttemptsLeaveNoGap(c, rows + [NewRow(c, rows, attempts[0], next)], attempts[1..], next + 1);
      }
    }
  }

  /**
   * A log that verifies goes on verifying, through any series of append_event
   * calls, exactly when no call that is refused (a stored id, a taken key) comes
   * before one that is accepted: a refused call uses up a number.
   */
  lemma AttemptsVerify(c: Hashing, rows: seq<Row>, attempts: seq<AuditFields>, next: int)
    requires Verify(c, rows, c.genesis) == [] && Continues(rows, next)
    ensures Verify(c, AppendAll(c, rows, Numbered(attempts, next)), c.genesis) == [] <==>
            RefusalsLast(Accepted(EventsOf(rows), attempts))
  {
    VerifyMeans(c, rows, c.genesis);
    assert forall i :: 0 <= i < |rows| ==> rows[i].eventSeq == rows[0].eventSeq + i;
    BuiltLogVerifies(c, rows, Numbered(attempts, next));
    AttemptsLeaveNoGap(c, rows, attempts, next);
  }

  /** Retrying an append that had succeeded and then appending another event is reported as a gap. */
  lemma RetryLeavesGap(c: Hashing, f: AuditFields, g: AuditFields)
    requires !Clashes(g, f)
    ensures Verify(c, AppendAll(c, [], Numbered([f, f, g], 1)), c.genesis) != []
  {
    assert [f, f, g][1..] == [f, g] && [f, g][1..] == [g] && [] + [f] == [f];
    assert f in [f] && Clashes(f, f) && !ClashesWithAny(g, [f]);
    assert Accepted([f], [g]) == [true] + Accepted([f] + [g], [g][1..]);
    assert Accepted([f], [f, g]) == [false] + Accepted([f], [g]);
    assert Accepted([], [f, f, g]) == [true] + Accepted([f], [f, g]);
    assert !Accepted([], [f, f, g])[1] && Accepted([], [f, f, g])[2];
    AttemptsVerify(c, [], [f, f, g], 1);
  }

  // ----- Fetching a range to verify -----

  datatype FetchError = PreviousEventMissing

  function RowWithSeq(rows: seq<Row>, n: int): Option<Row> {
    if rows == [] then None
    else if rows[0].eventSeq == n then Some(rows[0])
    else RowWithSeq(rows[1..], n)
  }

  predicate InRange(row: Row, start: int, end: Option<int>) {
    start <= row.eventSeq && (end.Some? ==> row.eventSeq <= end.value)
  }

  function RowsInRange(rows: seq<Row>, start: int, end: Option<int>): seq<Row> {
    if rows == [] then []
    else (if InRange(rows[0], start, end) then [rows[0]] else []) + RowsInRange(rows[1..], start, end)
  }

  function FirstRows(rows: seq<Row>, limit: int): seq<Row> {
    var n := if limit > 10000 then 10000 else if limit < 1 then 1 else limit;
    if |rows| <= n then rows else rows[..n]
  }

  /** The hash to verify from and the rows of the range, in order. */
  function FetchVerificationRange(c: Hashing, rows: seq<Row>, startSeq: Option<int>, endSeq: Option<int>, limit: int)
    : Result<(Hash, seq<Row>), FetchError>
  {
    if startSeq.None? || startSeq.value <= 1 then
      Ok((c.genesis, FirstRows(RowsInRange(rows, 1, endSeq), limit)))
    else
      match RowWithSeq(rows, startSeq.value - 1)
      case None => Err(PreviousEventMissing)
      case Some(before) => Ok((before.eventHash, FirstRows(RowsInRange(rows, startSeq.value, endSeq), limit)))
  }

  /** The index range, in a log numbered from first, of the rows from start to end. */
  function SliceStart(n: nat, first: int, start: int): nat {
    if start <= first then 0 else if start - first >= n then n else start - first
  }

  function SliceEnd(n: nat, first: int, start: int, end: Option<int>): (b: nat)
    ensures SliceStart(n, first, start) <= b <= n
  {
    var a := SliceStart(n, first, start);
    if end.None? || end.value - first >= n then n
    else if end.value - first < a then a
    else end.value - first + 1
  }

  /** Dropping the first row shifts the slice down by one, and drops that row from it. */
  lemma SliceShift(n: nat, first: int, start: int, end: Option<int>)
    requires n > 0
    ensures var a, b := SliceStart(n, first, start), SliceEnd(n, first, start, end);
            var c, d := SliceStart(n - 1, first + 1, start), SliceEnd(n - 1, first + 1, start, end);
            if start <= first && (end.Some? ==> first <= end.value) then a == 0 && c == 0 && d == b - 1
            else if a == 0 then b == 0 && c == d
            else c == a - 1 && d == b - 1
  {
  }

  /** The rows of a range of a consecutively numbered log are one slice of it. */
  lemma {:induction false} RangeIsSlice(rows: seq<Row>, first: int, start: int, end: Option<int>)
    requires NumberedFrom(rows, first)
    ensures RowsInRange(rows, start, end) == rows[SliceStart(|rows|, first, start)..SliceEnd(|rows|, first, start, end)]
  {
    if rows != [] {
      var n := |rows|;
      var a, b := SliceStart(n, first, start), SliceEnd(n, first, start, end);
      var c, d := SliceStart(n - 1, first + 1, start), SliceEnd(n - 1, first + 1, start, end);
      assert forall i :: 0 < i < |rows| ==> rows[1..][i - 1] == rows[i];
      RangeIsSlice(rows[1..], first + 1, start, end);
      SliceShift(n, first, start, end);
      assert rows[0].eventSeq == first;
      SliceHead(rows, a, b, c, d, InRange(rows[0], start, end));
    }
  }

  lemma SliceHead<T>(s: seq<T>, a: nat, b: nat, c: nat, d: nat, kept: bool)
    requires s != [] && a <= b <= |s| && c <= d <= |s| - 1
    requires if kept then a == 0 && c == 0 && d == b - 1 else if a == 0 then b == 0 && c == d
      else c == a - 1 && d == b - 1
    ensures s[a..b] == (if kept then [s[0]] else []) + s[1..][c..d]
  {
  }

  lemma {:induction false} RowWithSeqAt(rows: seq<Row>, first: int, n: int)
    requires NumberedFrom(rows, first)
    ensures RowWithSeq(rows, n) == if first <= n < first + |rows| then Some(rows[n - first]) else None
  {
    if rows != [] {
      assert forall i :: 0 < i < |rows| ==> rows[1..][i - 1] == rows[i];
      RowWithSeqAt(rows[1..], first + 1, n);
    }
  }

  lemma SliceLinked(c: Hashing, rows: seq<Row>, a: nat, b: nat)
    requires Linked(c, rows, c.genesis) && Consecutive(rows) && a <= b <= |rows|
    ensures Linked(c, rows[a..b], PrevAt(rows, c.genesis, a)) && Consecutive(rows[a..b])
  {
    var slice, before := rows[a..b], PrevAt(rows, c.genesis, a);
    forall j | 0 <= j < |slice| ensures LinkedAt(c, slice, before, j) {
      assert LinkedAt(c, rows, c.genesis, a + j);
    }
    forall j | 0 <= j < |slice| ensures slice[j].eventSeq == slice[0].eventSeq + j {
      assert rows[a + j].eventSeq == rows[0].eventSeq + (a + j) && rows[a].eventSeq == rows[0].eventSeq + a;
    }
  }

  lemma SliceVerifies(c: Hashing, rows: seq<Row>, a: nat, b: nat)
    requires Verify(c, rows, c.genesis) == [] && a <= b <= |rows|
    ensures Verify(c, rows[a..b], PrevAt(rows, c.genesis, a)) == []
  {
    VerifyMeans(c, rows, c.genesis);
    SliceLinked(c, rows, a, b);
    VerifyMeans(c, rows[a..b], PrevAt(rows, c.genesis, a));
  }

  /**
   * Any range fetched from a verified log verifies, whatever number the log begins
   * with; fetching fails exactly when the row before the range is missing.
   */
  lemma FetchedRangeVerifies(c: Hashing, rows: seq<Row>, startSeq: Option<int>, endSeq: Option<int>, limit: int)
    requires Verify(c, rows, c.genesis) == [] && (rows != [] ==> rows[0].eventSeq >= 1)
    ensures match FetchVerificationRange(c, rows, startSeq, endSeq, limit)
            case Ok((initial, range)) =>
              Verify(c, range, initial) == [] &&
              (startSeq.Some? && startSeq.value > 1 ==> HasNumber(rows, startSeq.value - 1))
            case Err(_) => startSeq.Some? && startSeq.value > 1 && !HasNumber(rows, startSeq.value - 1)
  {
    var start := if startSeq.None? || startSeq.value <= 1 then 1 else startSeq.value;
    var first := if rows == [] then 1 else rows[0].eventSeq;
    VerifyMeans(c, rows, c.genesis);
    assert NumberedFrom(rows, first);
    FetchIsSlice(c, rows, first, startSeq, endSeq, limit);
    if first <= start - 1 < first + |rows| { assert rows[start - 1 - first].eventSeq == start - 1; }
    if start == 1 {
      FetchedSlice(c, rows, 0, SliceEnd(|rows|, first, start, endSeq), limit);
    } else if first <= start - 1 < first + |rows| {
      FetchedSlice(c, rows, start - first, SliceEnd(|rows|, first, start, endSeq), limit);
    }
  }

  predicate HasNumber(rows: seq<Row>, n: int) { exists i :: 0 <= i < |rows| && rows[i].eventSeq == n }

  lemma FetchIsSlice(c: Hashing, rows: seq<Row>, first: int, startSeq: Option<int>, endSeq: Option<int>, limit: int)
    requires NumberedFrom(rows, first) && 1 <= first
    ensures var start := if startSeq.None? || startSeq.value <= 1 then 1 else startSeq.value;
            var a := if start == 1 then 0 else start - first;
            FetchVerificationRange(c, rows, startSeq, endSeq, limit) ==
            if start > 1 && !(first <= start - 1 < first + |rows|) then Err(PreviousEventMissing)
            else Ok((PrevAt(rows, c.genesis, a), FirstRows(rows[a..SliceEnd(|rows|, first, start, endSeq)], limit)))
  {
    var start := if startSeq.None? || startSeq.value <= 1 then 1 else startSeq.value;
    RangeIsSlice(rows, first, start, endSeq);
    if start > 1 { RowWithSeqAt(rows, first, start - 1); }
  }

  lemma FetchedSlice(c: Hashing, rows: seq<Row>, a: nat, b: nat, limit: int)
    requires Verify(c, rows, c.genesis) == [] && a <= b <= |rows|
    ensures Verify(c, FirstRows(rows[a..b], limit), PrevAt(rows, c.genesis, a)) == []
  {
    var n := |FirstRows(rows[a..b], limit)|;
    assert FirstRows(rows[a..b], limit) == rows[a..a + n];
    SliceVerifies(c, rows, a, a + n);
  }
}
