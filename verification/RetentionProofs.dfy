/** What retention keeps and expires, and what every run of backup operations keeps. */
module RetentionProofs {
  import opened Outcomes
  import opened BackupModel
  import opened BackupProofs

  // ----- The sorted listing -----

  /** a comes before b in a stable sort by created_at, newest first. */
  predicate NewerFirst(artifacts: map<nat, Artifact>, a: nat, b: nat)
    requires a in artifacts && b in artifacts
  {
    artifacts[a].createdAt > artifacts[b].createdAt || (artifacts[a].createdAt == artifacts[b].createdAt && a < b)
  }

  ghost predicate Ordered(artifacts: map<nat, Artifact>, ids: seq<nat>)
    requires AllIn(ids, artifacts)
  {
    forall i, j :: 0 <= i < j < |ids| ==> NewerFirst(artifacts, ids[i], ids[j])
  }

  ghost predicate Ascending(ids: seq<nat>) { forall i, j :: 0 <= i < j < |ids| ==> ids[i] < ids[j] }

  lemma {:induction false} ArtifactsOfMeans(artifacts: map<nat, Artifact>, policyId: nat, end: nat)
    ensures Ascending(ArtifactsOf(artifacts, policyId, end))
    ensures forall id :: id in ArtifactsOf(artifacts, policyId, end) <==>
              id in artifacts && id < end && artifacts[id].policyId == policyId
  {
    if end > 0 {
      ArtifactsOfMeans(artifacts, policyId, end - 1);
      var before := ArtifactsOf(artifacts, policyId, end - 1);
      assert forall i :: 0 <= i < |before| ==> before[i] in before;
    }
  }

  lemma {:induction false} InsertNewestMembers(artifacts: map<nat, Artifact>, id: nat, sorted: seq<nat>)
    requires id in artifacts && AllIn(sorted, artifacts)
    ensures forall x :: x in InsertNewest(artifacts, id, sorted) <==> x == id || x in sorted
  {
    if sorted != [] {
      assert sorted == [sorted[0]] + sorted[1..];
      InsertNewestMembers(artifacts, id, sorted[1..]);
    }
  }

  lemma {:induction false} InsertNewestOrdered(artifacts: map<nat, Artifact>, id: nat, sorted: seq<nat>)
    requires id in artifacts && AllIn(sorted, artifacts) && Ordered(artifacts, sorted)
    requires forall i :: 0 <= i < |sorted| ==> id < sorted[i]
    ensures Ordered(artifacts, InsertNewest(artifacts, id, sorted))
  {
    if sorted != [] && artifacts[sorted[0]].createdAt > artifacts[id].createdAt {
      var rest := InsertNewest(artifacts, id, sorted[1..]);
      InsertNewestOrdered(artifacts, id, sorted[1..]);
      InsertNewestMembers(artifacts, id, sorted[1..]);
      forall j | 0 <= j < |rest| ensures NewerFirst(artifacts, sorted[0], rest[j]) {
        assert rest[j] in rest;
        if rest[j] != id {
          var k :| 0 <= k < |sorted[1..]| && sorted[1..][k] == rest[j];
          assert sorted[k + 1] == rest[j];
        }
      }
    }
  }

  lemma {:induction false} SortNewestMeans(artifacts: map<nat, Artifact>, ids: seq<nat>)
    requires AllIn(ids, artifacts) && Ascending(ids)
    ensures Ordered(artifacts, SortNewest(artifacts, ids))
    ensures forall x :: x in SortNewest(artifacts, ids) <==> x in ids
  {
    if ids != [] {
      var rest := SortNewest(artifacts, ids[1..]);
      SortNewestMeans(artifacts, ids[1..]);
      forall i | 0 <= i < |rest| ensures ids[0] < rest[i] {
        assert rest[i] in ids[1..];
      }
      InsertNewestOrdered(artifacts, ids[0], rest);
      InsertNewestMembers(artifacts, ids[0], rest);
      assert ids == [ids[0]] + ids[1..];
    }
  }

  /** Sorting again what is sorted changes nothing. */
  lemma {:induction false} SortNewestAgain(artifacts: map<nat, Artifact>, ids: seq<nat>)
    requires AllIn(ids, artifacts) && Ordered(artifacts, ids)
    ensures SortNewest(artifacts, ids) == ids
  {
    if ids != [] {
      SortNewestAgain(artifacts, ids[1..]);
      assert ids == [ids[0]] + ids[1..];
      if |ids| > 1 { assert NewerFirst(artifacts, ids[0], ids[1]); }
    }
  }

  lemma {:induction false} FilterActiveMeans(artifacts: map<nat, Artifact>, ids: seq<nat>)
    requires AllIn(ids, artifacts) && Ordered(artifacts, ids)
    ensures forall x :: x in FilterActive(artifacts, ids) <==> x in ids && artifacts[x].status == ActiveArtifact
    ensures Ordered(artifacts, FilterActive(artifacts, ids))
  {
    if ids != [] {
      var rest := FilterActive(artifacts, ids[1..]);
      FilterActiveMeans(artifacts, ids[1..]);
      assert ids == [ids[0]] + ids[1..];
      forall j | 0 <= j < |rest| ensures NewerFirst(artifacts, ids[0], rest[j]) {
        assert rest[j] in ids[1..];
        var k :| 0 <= k < |ids[1..]| && ids[1..][k] == rest[j];
        assert ids[k + 1] == rest[j];
      }
    }
  }

  predicate IsActive(st: State, policyId: nat, id: nat) {
    id in st.artifacts && st.artifacts[id].policyId == policyId && st.artifacts[id].status == ActiveArtifact
  }

  lemma NewestMeans(st: State, policyId: nat)
    requires Artifacts(st)
    ensures Ordered(st.artifacts, Newest(st, policyId))
    ensures forall id :: id in Newest(st, policyId) <==> IsActive(st, policyId, id)
  {
    var ids := ArtifactsOf(st.artifacts, policyId, st.nextId);
    ArtifactsOfMeans(st.artifacts, policyId, st.nextId);
    SortNewestMeans(st.artifacts, ids);
    FilterActiveMeans(st.artifacts, SortNewest(st.artifacts, ids));
    SortNewestAgain(st.artifacts, FilterActive(st.artifacts, SortNewest(st.artifacts, ids)));
    forall id | IsActive(st, policyId, id) ensures id in ids { assert ArtifactOk(st, id, st.artifacts[id]); }
  }

  // ----- Ranks -----

  /** The active artifacts of a policy that are newer than one, or as new and older in insertion. */
  ghost function Newer(st: State, policyId: nat, id: nat): set<nat>
    requires id in st.artifacts
  {
    set b | b in st.artifacts && IsActive(st, policyId, b) && NewerFirst(st.artifacts, b, id)
  }

  ghost function Rank(st: State, policyId: nat, id: nat): nat
    requires id in st.artifacts
  {
    |Newer(st, policyId, id)|
  }

  function Elements(ids: seq<nat>): set<nat> { set x | x in ids }

  lemma {:induction false} DistinctCount(ids: seq<nat>)
    requires Distinct(ids)
    ensures |Elements(ids)| == |ids|
  {
    if ids != [] {
      assert forall i :: 0 < i < |ids| ==> ids[1..][i - 1] == ids[i];
      DistinctCount(ids[1..]);
      assert ids[0] !in Elements(ids[1..]);
      assert ids == [ids[0]] + ids[1..];
      assert Elements(ids) == {ids[0]} + Elements(ids[1..]);
    }
  }

  lemma OrderedDistinct(artifacts: map<nat, Artifact>, ids: seq<nat>)
    requires AllIn(ids, artifacts) && Ordered(artifacts, ids)
    ensures Distinct(ids)
  {
    forall i, j | 0 <= i < j < |ids| ensures ids[i] != ids[j] { assert NewerFirst(artifacts, ids[i], ids[j]); }
  }

  /** An artifact's place in the listing is the number of active artifacts before it. */
  lemma RankIsIndex(st: State, policyId: nat, i: nat)
    requires Artifacts(st) && i < |Newest(st, policyId)|
    ensures Rank(st, policyId, Newest(st, policyId)[i]) == i
  {
    var sorted := Newest(st, policyId);
    var id := sorted[i];
    NewestMeans(st, policyId);
    OrderedDistinct(st.artifacts, sorted);
    forall x ensures x in Newer(st, policyId, id) <==> x in sorted[..i] {
      if x in Newer(st, policyId, id) {
        var k :| 0 <= k < |sorted| && sorted[k] == x;
        assert i < k ==> NewerFirst(st.artifacts, sorted[i], sorted[k]);
        assert sorted[..i][k] == x;
      }
      if x in sorted[..i] {
        var k :| 0 <= k < i && sorted[k] == x;
        assert NewerFirst(st.artifacts, sorted[k], sorted[i]);
        assert sorted[k] in sorted;
      }
    }
    assert Newer(st, policyId, id) == Elements(sorted[..i]);
    DistinctCount(sorted[..i]);
  }

  // ----- What expires -----

  /** Beyond the retention count, or past the retention age. */
  ghost predicate Expires(st: State, policyId: nat, id: nat, now: int)
    requires policyId in st.policies
  {
    var p := st.policies[policyId];
    IsActive(st, policyId, id) &&
    ((p.retentionCount.Some? && Rank(st, policyId, id) >= p.retentionCount.value) ||
     (p.retentionDays.Some? && st.artifacts[id].createdAt + p.retentionDays.value * DAY <= now))
  }

  predicate Picked(artifacts: map<nat, Artifact>, p: Policy, sorted: seq<nat>, index: nat, now: int, i: nat)
    requires AllIn(sorted, artifacts) && i < |sorted|
  {
    BeyondCount(p, index + i) || Aged(p, artifacts[sorted[i]], now)
  }

  lemma {:induction false} ExpiredMeans(artifacts: map<nat, Artifact>, p: Policy, sorted: seq<nat>, index: nat,
          now: int)
    requires AllIn(sorted, artifacts) && Ordered(artifacts, sorted)
    ensures Ordered(artifacts, Expired(artifacts, p, sorted, index, now))
    ensures forall x :: x in Expired(artifacts, p, sorted, index, now) <==>
              exists i: nat :: i < |sorted| && sorted[i] == x && Picked(artifacts, p, sorted, index, now, i)
  {
    if sorted != [] {
      var all, rest := Expired(artifacts, p, sorted, index, now), Expired(artifacts, p, sorted[1..], index + 1, now);
      ExpiredMeans(artifacts, p, sorted[1..], index + 1, now);
      forall x | x in rest
        ensures exists i: nat :: 0 < i < |sorted| && sorted[i] == x && Picked(artifacts, p, sorted, index, now, i) {
        var i: nat :| i < |sorted[1..]| && sorted[1..][i] == x && Picked(artifacts, p, sorted[1..], index + 1, now, i);
        assert sorted[i + 1] == x && Picked(artifacts, p, sorted, index, now, i + 1);
      }
      forall i: nat | i < |sorted| && Picked(artifacts, p, sorted, index, now, i) ensures sorted[i] in all {
        if i > 0 {
          assert sorted[1..][i - 1] == sorted[i] && Picked(artifacts, p, sorted[1..], index + 1, now, i - 1);
          assert sorted[i] in rest;
        }
      }
      forall j | 0 <= j < |rest| ensures NewerFirst(artifacts, sorted[0], rest[j]) {
        assert rest[j] in rest;
      }
    }
  }

  /** The loop over the sorted listing picks exactly the artifacts beyond the count or the age. */
  lemma ToExpireMeans(st: State, policyId: nat, now: int)
    requires Artifacts(st) && policyId in st.policies
    ensures var ids := ToExpire(st, policyId, now);
            Distinct(ids) && AllActive(ids, st) && forall id :: id in ids <==> Expires(st, policyId, id, now)
  {
    var p, sorted := st.policies[policyId], Newest(st, policyId);
    var ids := ToExpire(st, policyId, now);
    NewestMeans(st, policyId);
    ExpiredMeans(st.artifacts, p, sorted, 0, now);
    OrderedDistinct(st.artifacts, ids);
    forall i: nat | i < |sorted|
      ensures Picked(st.artifacts, p, sorted, 0, now, i) <==> Expires(st, policyId, sorted[i], now) {
      assert sorted[i] in sorted;
      RankIsIndex(st, policyId, i);
      assert ArtifactOk(st, sorted[i], st.artifacts[sorted[i]]);
    }
    forall id | Expires(st, policyId, id, now) ensures id in ids {
      assert id in sorted;
      var i: nat :| i < |sorted| && sorted[i] == id;
      assert Picked(st.artifacts, p, sorted, 0, now, i);
    }
    forall id | id in ids ensures Expires(st, policyId, id, now) {}
    forall i | 0 <= i < |ids| ensures st.artifacts[ids[i]].status == ActiveArtifact { assert ids[i] in ids; }
  }

  // ----- What a pass does -----

  function FinalStatus(delete: bool): ArtifactStatus { if delete then DeletedArtifact else ExpiredArtifact }

  function Marked(artifacts: map<nat, Artifact>, ids: seq<nat>, status: ArtifactStatus): map<nat, Artifact> {
    map a | a in artifacts :: if a in ids then artifacts[a].(status := status) else artifacts[a]
  }

  function KeysOf(artifacts: map<nat, Artifact>, ids: seq<nat>): set<Key>
    requires AllIn(ids, artifacts)
  {
    set i | 0 <= i < |ids| :: artifacts[ids[i]].storageKey
  }

  lemma MarkedSplit(artifacts: map<nat, Artifact>, ids: seq<nat>, status: ArtifactStatus)
    requires ids != [] && AllIn(ids, artifacts) && Distinct(ids)
    ensures Marked(artifacts[ids[0] := artifacts[ids[0]].(status := status)], ids[1..], status) ==
            Marked(artifacts, ids, status)
  {
    assert ids == [ids[0]] + ids[1..];
    assert forall i :: 0 < i < |ids| ==> ids[1..][i - 1] == ids[i];
  }

  /** The state once a list has been expired and, if asked, its objects deleted. */
  function AfterExpiry(st: State, ids: seq<nat>, delete: bool): State
    requires AllIn(ids, st.artifacts)
  {
    st.(artifacts := Marked(st.artifacts, ids, FinalStatus(delete)),
        storage := if delete then st.storage - KeysOf(st.artifacts, ids) else st.storage)
  }

  lemma AfterExpirySplit(st: State, one: State, ids: seq<nat>, delete: bool)
    requires ids != [] && AllIn(ids, st.artifacts) && Distinct(ids)
    requires one == st.(artifacts := st.artifacts[ids[0] := st.artifacts[ids[0]].(status := FinalStatus(delete))],
                        storage := if delete then st.storage - {st.artifacts[ids[0]].storageKey} else st.storage)
    ensures AllIn(ids[1..], one.artifacts) && AfterExpiry(one, ids[1..], delete) == AfterExpiry(st, ids, delete)
  {
    assert forall i :: 0 < i < |ids| ==> ids[1..][i - 1] == ids[i];
    MarkedSplit(st.artifacts, ids, FinalStatus(delete));
    KeysSplit(st.artifacts, one.artifacts, ids);
    assert st.storage - {st.artifacts[ids[0]].storageKey} - KeysOf(one.artifacts, ids[1..]) ==
        st.storage - KeysOf(st.artifacts, ids);
  }

  lemma KeysSplit(artifacts: map<nat, Artifact>, next: map<nat, Artifact>, ids: seq<nat>)
    requires ids != [] && AllIn(ids, artifacts) && AllIn(ids[1..], next)
    requires forall i :: 0 < i < |ids| ==> ids[i] in next && next[ids[i]].storageKey == artifacts[ids[i]].storageKey
    ensures KeysOf(artifacts, ids) == {artifacts[ids[0]].storageKey} + KeysOf(next, ids[1..])
  {
    forall k | k in KeysOf(artifacts, ids) ensures k in {artifacts[ids[0]].storageKey} + KeysOf(next, ids[1..]) {
      var i :| 0 <= i < |ids| && artifacts[ids[i]].storageKey == k;
      if i > 0 { assert next[ids[1..][i - 1]].storageKey == k; }
    }
    forall k | k in KeysOf(next, ids[1..]) ensures k in KeysOf(artifacts, ids) {
      var i :| 0 <= i < |ids[1..]| && next[ids[1..][i]].storageKey == k;
      assert artifacts[ids[i + 1]].storageKey == k;
    }
  }

  lemma OneMarked(st: State, id: nat, delete: bool, broken: set<Key>)
    requires id in st.artifacts && !(delete && st.artifacts[id].storageKey in broken)
    ensures ExpireOne(st, id, delete, broken) ==
            Outcome(st.(artifacts := st.artifacts[id := st.artifacts[id].(status := FinalStatus(delete))],
                        storage := if delete then st.storage - {st.artifacts[id].storageKey} else st.storage), Ok(()))
  {
    if delete {
      var a := st.artifacts[id];
      assert st.artifacts[id := a.(status := ExpiredArtifact)][id :=
          a.(status := ExpiredArtifact).(status := DeletedArtifact)]
          == st.artifacts[id := a.(status := DeletedArtifact)];
    }
  }

  /** How many of the listed artifacts are expired before the first deletion that raises. */
  function Completed(artifacts: map<nat, Artifact>, ids: seq<nat>, delete: bool, broken: set<Key>): (n: nat)
    requires AllIn(ids, artifacts)
    ensures n <= |ids|
  {
    if ids == [] || (delete && artifacts[ids[0]].storageKey in broken) then 0
    else
      assert forall i :: 0 < i < |ids| ==> ids[1..][i - 1] == ids[i];
      1 + Completed(artifacts, ids[1..], delete, broken)
  }

  lemma {:induction false} CompletedMeans(artifacts: map<nat, Artifact>, ids: seq<nat>, delete: bool, broken: set<Key>)
    requires AllIn(ids, artifacts)
    ensures var n := Completed(artifacts, ids, delete, broken);
            && (forall i :: 0 <= i < n ==> !(delete && artifacts[ids[i]].storageKey in broken))
            && (n < |ids| ==> delete && artifacts[ids[n]].storageKey in broken)
  {
    if ids != [] && !(delete && artifacts[ids[0]].storageKey in broken) {
      assert forall i :: 0 < i < |ids| ==> ids[1..][i - 1] == ids[i];
      CompletedMeans(artifacts, ids[1..], delete, broken);
    }
  }

  lemma {:induction false} CompletedAgrees(a: map<nat, Artifact>, b: map<nat, Artifact>, ids: seq<nat>, delete: bool,
          broken: set<Key>)
    requires AllIn(ids, a) && AllIn(ids, b)
    requires forall i :: 0 <= i < |ids| ==> a[ids[i]].storageKey == b[ids[i]].storageKey
    ensures Completed(a, ids, delete, broken) == Completed(b, ids, delete, broken)
  {
    if ids != [] {
      assert forall i :: 0 < i < |ids| ==> ids[1..][i - 1] == ids[i];
      CompletedAgrees(a, b, ids[1..], delete, broken);
    }
  }

  /** What a pass leaves: the completed ones expired, and the one whose deletion raised marked with its object kept. */
  function AfterPass(st: State, ids: seq<nat>, delete: bool, broken: set<Key>): Outcome<()>
    requires AllIn(ids, st.artifacts)
  {
    var n := Completed(st.artifacts, ids, delete, broken);
    var done := AfterExpiry(st, ids[..n], delete);
    if n == |ids| then Outcome(done, Ok(()))
    else Outcome(SetStatus(done, ids[n], ExpiredArtifact), Err(DeleteFailed(st.artifacts[ids[n]].storageKey)))
  }

  lemma PassStep(st: State, one: State, ids: seq<nat>, delete: bool, broken: set<Key>)
    requires ids != [] && AllIn(ids, st.artifacts) && Distinct(ids)
    requires !(delete && st.artifacts[ids[0]].storageKey in broken)
    requires one == st.(artifacts := st.artifacts[ids[0] := st.artifacts[ids[0]].(status := FinalStatus(delete))],
                        storage := if delete then st.storage - {st.artifacts[ids[0]].storageKey} else st.storage)
    ensures AllIn(ids[1..], one.artifacts) &&
            AfterPass(one, ids[1..], delete, broken) == AfterPass(st, ids, delete, broken)
  {
    var rest, n := ids[1..], Completed(st.artifacts, ids, delete, broken);
    assert forall i :: 0 < i < |ids| ==> rest[i - 1] == ids[i];
    CompletedAgrees(st.artifacts, one.artifacts, rest, delete, broken);
    assert ids[..n][1..] == rest[..n - 1];
    AfterExpirySplit(st, one, ids[..n], delete);
  }

  /** Expiring a list, one by one, does exactly that. */
  lemma {:induction false} ExpireAllMeans(st: State, ids: seq<nat>, delete: bool, broken: set<Key>)
    requires AllIn(ids, st.artifacts) && Distinct(ids)
    ensures ExpireAll(st, ids, delete, broken) == AfterPass(st, ids, delete, broken)
    decreases |ids|
  {
    if ids == [] || (delete && st.artifacts[ids[0]].storageKey in broken) {
      assert ids[..0] == [];
      assert Marked(st.artifacts, [], FinalStatus(delete)) == st.artifacts;
      assert st.storage - KeysOf(st.artifacts, []) == st.storage;
    } else {
      var one := ExpireOne(st, ids[0], delete, broken).state;
      OneMarked(st, ids[0], delete, broken);
      PassStep(st, one, ids, delete, broken);
      ExpireAllMeans(one, ids[1..], delete, broken);
    }
  }

  /** What a pass makes of one artifact: part is what it completed, stuck the one it marked last, if any. */
  function PassedOver(a: Artifact, id: nat, part: seq<nat>, stuck: Option<nat>, delete: bool): Artifact {
    if id in part then a.(status := FinalStatus(delete))
    else if stuck == Some(id) then a.(status := ExpiredArtifact)
    else a
  }

  function Stuck(ids: seq<nat>, n: nat): Option<nat> { if n < |ids| then Some(ids[n]) else None }

  lemma AfterPassMeans(st: State, ids: seq<nat>, delete: bool, broken: set<Key>)
    requires AllIn(ids, st.artifacts) && Distinct(ids)
    ensures var o, n := AfterPass(st, ids, delete, broken), Completed(st.artifacts, ids, delete, broken);
            && o.state.artifacts.Keys == st.artifacts.Keys
            && (forall id :: id in st.artifacts ==>
                  o.state.artifacts[id] == PassedOver(st.artifacts[id], id, ids[..n], Stuck(ids, n), delete))
  {
    var n := Completed(st.artifacts, ids, delete, broken);
    var part := ids[..n];
    if n == |ids| {
      MarkedMeans(st.artifacts, part, FinalStatus(delete));
    } else {
      assert forall i :: 0 <= i < n ==> part[i] == ids[i] && ids[i] != ids[n];
      StuckMeans(st.artifacts, part, ids[n], delete);
    }
  }

  lemma MarkedMeans(artifacts: map<nat, Artifact>, part: seq<nat>, status: ArtifactStatus)
    ensures Marked(artifacts, part, status).Keys == artifacts.Keys
    ensures forall id :: id in artifacts ==>
              Marked(artifacts, part, status)[id] ==
                if id in part then artifacts[id].(status := status) else artifacts[id]
  {
  }

  lemma StuckMeans(artifacts: map<nat, Artifact>, part: seq<nat>, stuck: nat, delete: bool)
    requires stuck in artifacts && stuck !in part
    ensures var marked := Marked(artifacts, part, FinalStatus(delete));
            var after := marked[stuck := marked[stuck].(status := ExpiredArtifact)];
            && after.Keys == artifacts.Keys
            && forall id :: id in artifacts ==> after[id] == PassedOver(artifacts[id], id, part, Some(stuck), delete)
  {
    MarkedMeans(artifacts, part, FinalStatus(delete));
  }

  // ----- What one retention does -----

  /** The expiring artifacts that a pass finishes before the first deletion that raises. */
  function Finished(st: State, policyId: nat, broken: set<Key>, now: int): nat
    requires policyId in st.policies
  {
    Completed(st.artifacts, ToExpire(st, policyId, now), st.policies[policyId].deleteExpired, broken)
  }

  /**
   * Whatever deletions raise: retention expires the artifacts beyond the count or
   * the age, newest first and with their objects when the policy deletes, up to the
   * first whose deletion raises; that one is marked and keeps its object, and the
   * later ones and everything else stay as they were.
   */
  lemma RetentionExact(st: State, policyId: nat, broken: set<Key>, now: int)
    requires Artifacts(st) && policyId in st.policies
    ensures var o, p := ApplyRetention(st, policyId, broken, now), st.policies[policyId];
            var ids, n := ToExpire(st, policyId, now), Finished(st, policyId, broken, now);
            && o.result == (if n == |ids| then Ok(ids) else Err(DeleteFailed(st.artifacts[ids[n]].storageKey)))
            && o.state == st.(artifacts := o.state.artifacts, storage := o.state.storage)
            && o.state.artifacts.Keys == st.artifacts.Keys
            && (forall id :: id in st.artifacts ==>
                  o.state.artifacts[id] == PassedOver(st.artifacts[id], id, ids[..n], Stuck(ids, n), p.deleteExpired))
            && o.state.storage == (if p.deleteExpired then st.storage - KeysOf(st.artifacts, ids[..n]) else st.storage)
  {
    var ids, delete := ToExpire(st, policyId, now), st.policies[policyId].deleteExpired;
    ToExpireMeans(st, policyId, now);
    ExpireAllMeans(st, ids, delete, broken);
    AfterPassMeans(st, ids, delete, broken);
  }

  /** A pass completes exactly when it deletes nothing or no expiring artifact's deletion raises. */
  lemma RetentionCompletes(st: State, policyId: nat, broken: set<Key>, now: int)
    requires Artifacts(st) && policyId in st.policies
    ensures ApplyRetention(st, policyId, broken, now).result.Ok? <==>
              st.policies[policyId].deleteExpired ==>
                forall id :: Expires(st, policyId, id, now) ==> st.artifacts[id].storageKey !in broken
  {
    var ids, n := ToExpire(st, policyId, now), Finished(st, policyId, broken, now);
    ToExpireMeans(st, policyId, now);
    RetentionExact(st, policyId, broken, now);
    CompletedMeans(st.artifacts, ids, st.policies[policyId].deleteExpired, broken);
    if n < |ids| { assert ids[n] in ids; }
    if n == |ids| {
      forall id | id in ids && st.policies[policyId].deleteExpired ensures st.artifacts[id].storageKey !in broken {
        var i :| 0 <= i < |ids| && ids[i] == id;
      }
    }
  }

  /** A newer artifact also expires, and its deletion raises. */
  ghost predicate BehindRaising(st: State, policyId: nat, broken: set<Key>, now: int, id: nat)
    requires policyId in st.policies && id in st.artifacts
  {
    st.policies[policyId].deleteExpired &&
    exists r :: Expires(st, policyId, r, now) && st.artifacts[r].storageKey in broken && NewerFirst(st.artifacts, r, id)
  }

  lemma BehindIsLater(st: State, policyId: nat, broken: set<Key>, now: int, j: nat)
    requires Artifacts(st) && policyId in st.policies && j < |ToExpire(st, policyId, now)|
    ensures BehindRaising(st, policyId, broken, now, ToExpire(st, policyId, now)[j]) <==>
            Finished(st, policyId, broken, now) < j
  {
    var ids, n, p := ToExpire(st, policyId, now), Finished(st, policyId, broken, now), st.policies[policyId];
    var id := ids[j];
    ToExpireMeans(st, policyId, now);
    ToExpireOrdered(st, policyId, now);
    CompletedMeans(st.artifacts, ids, p.deleteExpired, broken);
    if n < j {
      assert ids[n] in ids && NewerFirst(st.artifacts, ids[n], ids[j]);
    }
    if BehindRaising(st, policyId, broken, now, id) {
      var r :| Expires(st, policyId, r, now) && st.artifacts[r].storageKey in broken && NewerFirst(st.artifacts, r, id);
      assert r in ids;
      var i :| 0 <= i < |ids| && ids[i] == r;
      assert j < i ==> NewerFirst(st.artifacts, ids[j], ids[i]);
    }
  }

  lemma ToExpireOrdered(st: State, policyId: nat, now: int)
    requires Artifacts(st) && policyId in st.policies
    ensures Ordered(st.artifacts, ToExpire(st, policyId, now))
  {
    NewestMeans(st, policyId);
    ExpiredMeans(st.artifacts, st.policies[policyId], Newest(st, policyId), 0, now);
  }

  /** Who is left active: those before or at the first raising deletion are not. */
  lemma ActiveAfter(st: State, policyId: nat, broken: set<Key>, now: int, id: nat)
    requires Artifacts(st) && policyId in st.policies && id in st.artifacts
    ensures var ids, n := ToExpire(st, policyId, now), Finished(st, policyId, broken, now);
            IsActive(ApplyRetention(st, policyId, broken, now).state, policyId, id) <==>
              IsActive(st, policyId, id) && id !in ids[..n] && Stuck(ids, n) != Some(id)
  {
    RetentionExact(st, policyId, broken, now);
  }

  lemma PassedIffEarlier(ids: seq<nat>, n: nat, j: nat)
    requires Distinct(ids) && n <= |ids| && j < |ids|
    ensures ids[j] in ids[..n] || Stuck(ids, n) == Some(ids[j]) <==> j <= n
  {
    if j < n { assert ids[..n][j] == ids[j]; }
  }

  /** Who stays active: those that do not expire, and those behind one whose deletion raises. */
  lemma SurvivorsExact(st: State, policyId: nat, broken: set<Key>, now: int, id: nat)
    requires Artifacts(st) && policyId in st.policies && id in st.artifacts
    ensures IsActive(ApplyRetention(st, policyId, broken, now).state, policyId, id) <==>
              IsActive(st, policyId, id) &&
              (Expires(st, policyId, id, now) ==> BehindRaising(st, policyId, broken, now, id))
  {
    var ids, n := ToExpire(st, policyId, now), Finished(st, policyId, broken, now);
    ToExpireMeans(st, policyId, now);
    ActiveAfter(st, policyId, broken, now, id);
    if id in ids {
      var j :| 0 <= j < |ids| && ids[j] == id;
      BehindIsLater(st, policyId, broken, now, j);
      PassedIffEarlier(ids, n, j);
    } else {
      assert n < |ids| ==> ids[n] in ids;
    }
  }

  /** Some deletion raises while an older artifact still waits to expire. */
  ghost predicate RaisesEarly(st: State, policyId: nat, broken: set<Key>, now: int)
    requires policyId in st.policies
  {
    exists x :: Expires(st, policyId, x, now) && BehindRaising(st, policyId, broken, now, x)
  }

  /**
   * The survivors are exactly the newest retention_count without the aged, whether
   * or not the pass raises, unless a deletion raises while an older artifact waits.
   */
  lemma SurvivorsAreNewest(st: State, policyId: nat, broken: set<Key>, now: int)
    requires Artifacts(st) && policyId in st.policies
    ensures var after := ApplyRetention(st, policyId, broken, now).state;
            (forall id :: IsActive(after, policyId, id) <==>
                IsActive(st, policyId, id) && !Expires(st, policyId, id, now)) <==>
            !RaisesEarly(st, policyId, broken, now)
  {
    var after := ApplyRetention(st, policyId, broken, now).state;
    RetentionExact(st, policyId, broken, now);
    forall id | id in st.artifacts
      ensures IsActive(after, policyId, id) <==>
              IsActive(st, policyId, id) && (Expires(st, policyId, id, now) ==>
                  BehindRaising(st, policyId, broken, now, id))
    {
      SurvivorsExact(st, policyId, broken, now, id);
    }
    forall id | id in after.artifacts ensures id in st.artifacts { assert id in after.artifacts.Keys; }
  }

  // ----- A second retention -----

  lemma {:induction false} SubsetCount(a: set<nat>, b: set<nat>)
    requires a <= b
    ensures |a| <= |b|
  {
    if a != {} {
      var x :| x in a;
      SubsetCount(a - {x}, b - {x});
    }
  }

  /** What stayed active was active, unchanged. */
  ghost predicate OnlyLost(st: State, after: State, policyId: nat) {
    && after.policies == st.policies
    && forall b :: IsActive(after, policyId, b) ==> IsActive(st, policyId, b) && after.artifacts[b] == st.artifacts[b]
  }

  lemma RankShrinks(st: State, after: State, policyId: nat, id: nat)
    requires OnlyLost(st, after, policyId) && IsActive(after, policyId, id)
    ensures Rank(after, policyId, id) <= Rank(st, policyId, id)
  {
    SubsetCount(Newer(after, policyId, id), Newer(st, policyId, id));
  }

  /** What expires by count alone has the newest retention_count before it, none of which expires. */
  lemma RankStays(st: State, after: State, policyId: nat, now: int, id: nat)
    requires Artifacts(st) && policyId in st.policies && OnlyLost(st, after, policyId)
    requires IsActive(after, policyId, id) && Expires(st, policyId, id, now)
    requires forall b :: IsActive(st, policyId, b) && !Expires(st, policyId, b, now) ==> IsActive(after, policyId, b)
    ensures Expires(after, policyId, id, now)
  {
    var p, sorted := st.policies[policyId], Newest(st, policyId);
    NewestMeans(st, policyId);
    assert id in sorted;
    var k :| 0 <= k < |sorted| && sorted[k] == id;
    RankIsIndex(st, policyId, k);
    if !(p.retentionDays.Some? && st.artifacts[id].createdAt + p.retentionDays.value * DAY <= now) {
      var count := p.retentionCount.value;
      OrderedDistinct(st.artifacts, sorted);
      forall b | b in sorted[..count] ensures b in Newer(after, policyId, id) {
        var i :| 0 <= i < count && sorted[..count][i] == b;
        assert sorted[i] in sorted && NewerFirst(st.artifacts, sorted[i], sorted[k]);
        RankIsIndex(st, policyId, i);
        assert !Expires(st, policyId, b, now);
      }
      DistinctCount(sorted[..count]);
      SubsetCount(Elements(sorted[..count]), Newer(after, policyId, id));
    }
  }

  /** What still waits after a pass is what the next pass finds. */
  lemma {:induction false} ExpiresAgain(st: State, policyId: nat, broken: set<Key>, now: int, id: nat, sha: Hash)
    requires Inv(st, sha) && policyId in st.policies
    ensures var after := ApplyRetention(st, policyId, broken, now).state;
            policyId in after.policies && Artifacts(after) &&
            (Expires(after, policyId, id, now) <==>
               Expires(st, policyId, id, now) && BehindRaising(st, policyId, broken, now, id))
  {
    var after := ApplyRetention(st, policyId, broken, now).state;
    ToExpireMeans(st, policyId, now);
    ExpireAllKept(st, ToExpire(st, policyId, now), st.policies[policyId].deleteExpired, broken, sha);
    RetentionExact(st, policyId, broken, now);
    forall b | b in st.artifacts || b in after.artifacts
      ensures b in st.artifacts && b in after.artifacts
      ensures IsActive(after, policyId, b) <==>
              IsActive(st, policyId, b) && (Expires(st, policyId, b, now) ==>
                  BehindRaising(st, policyId, broken, now, b))
      ensures IsActive(after, policyId, b) ==> after.artifacts[b] == st.artifacts[b]
    {
      assert b in st.artifacts.Keys && b in after.artifacts.Keys;
      SurvivorsExact(st, policyId, broken, now, b);
    }
    assert OnlyLost(st, after, policyId);
    if IsActive(after, policyId, id) {
      if Expires(st, policyId, id, now) {
        RankStays(st, after, policyId, now, id);
      } else {
        RankShrinks(st, after, policyId, id);
      }
    }
  }

  lemma LeftToExpire(st: State, policyId: nat, broken: set<Key>, now: int, sha: Hash)
    requires Inv(st, sha) && policyId in st.policies
    ensures var after := ApplyRetention(st, policyId, broken, now).state;
            policyId in after.policies && Artifacts(after) &&
            (ToExpire(after, policyId, now) == [] <==> !RaisesEarly(st, policyId, broken, now))
  {
    var after := ApplyRetention(st, policyId, broken, now).state;
    ExpiresAgain(st, policyId, broken, now, 0, sha);
    var left := ToExpire(after, policyId, now);
    ToExpireMeans(after, policyId, now);
    if left != [] {
      assert left[0] in left;
      ExpiresAgain(st, policyId, broken, now, left[0], sha);
    }
    if RaisesEarly(st, policyId, broken, now) {
      var x :| Expires(st, policyId, x, now) && BehindRaising(st, policyId, broken, now, x);
      ExpiresAgain(st, policyId, broken, now, x, sha);
      assert x in left;
    }
  }

  lemma NothingToExpire(st: State, policyId: nat, broken: set<Key>, now: int)
    requires policyId in st.policies
    ensures ApplyRetention(st, policyId, broken, now) == Outcome(st, Ok([])) <==> ToExpire(st, policyId, now) == []
  {
  }

  /**
   * A second retention at the same instant, whatever raises then, expires nothing
   * exactly when the first did not raise while an older artifact waited.
   */
  lemma SecondRetentionExpiresNothing(st: State, policyId: nat, broken: set<Key>, again: set<Key>, now: int, sha: Hash)
    requires Inv(st, sha) && policyId in st.policies
    ensures var after := ApplyRetention(st, policyId, broken, now).state;
            ApplyRetention(after, policyId, again, now) == Outcome(after, Ok([])) <==>
                !RaisesEarly(st, policyId, broken, now)
  {
    LeftToExpire(st, policyId, broken, now, sha);
    NothingToExpire(ApplyRetention(st, policyId, broken, now).state, policyId, again, now);
  }

  // ----- A deletion that raises -----

  const AGED_POLICY := Policy("daily", Postgres, "main", "backups", 1, None, Some(1), true, true, None)

  function AgedArtifact(run: nat, at: int): Artifact {
    Artifact(run, 0, KeyFor(AGED_POLICY, run), 0, Digest(""), ActiveArtifact, at, Some(at + DAY))
  }

  /** Two aged artifacts of one policy that deletes. */
  function TwoAged(): State {
    EMPTY.(policies := map[0 := AGED_POLICY], artifacts := map[2 := AgedArtifact(1, 0), 4 := AgedArtifact(3, 1)],
        nextId := 5)
  }

  /**
   * With the newer object's deletion raising, the older of two aged artifacts
   * stays ACTIVE and the newer is EXPIRED.
   */
  lemma RaisingLeavesActive()
    ensures var st, now, broken := TwoAged(), 2 * DAY, {KeyFor(AGED_POLICY, 3)};
            var o := ApplyRetention(st, 0, broken, now);
            && Expires(st, 0, 2, now) && Expires(st, 0, 4, now)
            && o.result.Err? && IsActive(o.state, 0, 2) && o.state.artifacts[4].status == ExpiredArtifact
  {
    var st, now, broken := TwoAged(), 2 * DAY, {KeyFor(AGED_POLICY, 3)};
    assert Artifacts(st);
    assert Expires(st, 0, 2, now) && Expires(st, 0, 4, now) && NewerFirst(st.artifacts, 4, 2);
    SurvivorsExact(st, 0, broken, now, 2);
    SurvivorsExact(st, 0, broken, now, 4);
    RetentionCompletes(st, 0, broken, now);
    RetentionExact(st, 0, broken, now);
  }
}
