/**
 * The Redis lock: set-if-absent with a time to live, and compare-and-delete
 * release, first as the two methods of a lock object, then as the protocol of
 * any number of lock objects whose commands, replies, failures and clock ticks
 * interleave.
 */
module DistributedLock {
  import opened Outcomes

  type Key = string
  type Token = nat

  // ----- The server -----

  datatype Entry = Entry(token: Token, expiresAt: int)

  /** The key is set and has not expired. */
  predicate Live(entries: map<Key, Entry>, now: int, key: Key) {
    key in entries && now < entries[key].expiresAt
  }

  /** SET key token NX PX ttl, for a positive ttl. */
  function SetIfAbsent(entries: map<Key, Entry>, now: int, key: Key, token: Token, ttl: int): map<Key, Entry> {
    if Live(entries, now, key) then entries else entries[key := Entry(token, now + ttl)]
  }

  /** The unlock script deletes the key exactly when it holds the caller's token. */
  predicate UnlockDeletes(entries: map<Key, Entry>, now: int, key: Key, token: Token) {
    Live(entries, now, key) && entries[key].token == token
  }

  function Unlock(entries: map<Key, Entry>, now: int, key: Key, token: Token): map<Key, Entry> {
    if UnlockDeletes(entries, now, key, token) then entries - {key} else entries
  }

  class RedisServer {
    var entries: map<Key, Entry>
    var now: int

    constructor (start: int)
      ensures entries == map[] && now == start
    {
      entries, now := map[], start;
    }
  }

  datatype RedisError = InvalidExpireTime

  // ----- One lock object -----

  class Lock {
    const redis: RedisServer
    const key: Key
    const token: Token
    const ttl: int
    var acquired: bool

    constructor (redis: RedisServer, key: Key, token: Token, ttl: int)
      ensures this.redis == redis && this.key == key && this.token == token && this.ttl == ttl && !acquired
    {
      this.redis, this.key, this.token, this.ttl, acquired := redis, key, token, ttl, false;
    }

    /** A non-positive time to live is an error of the server and changes nothing. */
    method TryAcquire() returns (r: Result<bool, RedisError>)
      modifies this`acquired, redis`entries
      ensures ttl <= 0 ==>
                r == Err(InvalidExpireTime) && redis.entries == old(redis.entries) &&
                acquired == old(acquired)
      ensures ttl > 0 ==>
                r == Ok(!Live(old(redis.entries), redis.now, key)) && acquired == r.value &&
                redis.entries == SetIfAbsent(old(redis.entries), redis.now, key, token, ttl)
    {
      if ttl <= 0 {
        return Err(InvalidExpireTime);
      }
      var absent := !Live(redis.entries, redis.now, key);
      if absent {
        redis.entries := redis.entries[key := Entry(token, redis.now + ttl)];
      }
      acquired := absent;
      r := Ok(acquired);
    }

    method Release() returns (released: bool)
      modifies this`acquired, redis`entries
      ensures !acquired
      ensures !old(acquired) ==> !released && redis.entries == old(redis.entries)
      ensures old(acquired) ==>
                released == UnlockDeletes(old(redis.entries), redis.now, key, token) &&
                redis.entries == Unlock(old(redis.entries), redis.now, key, token)
    {
      if !acquired {
        return false;
      }
      released := Live(redis.entries, redis.now, key) && redis.entries[key].token == token;
      if released {
        redis.entries := redis.entries - {key};
      }
      acquired := false;
    }
  }

  // ----- Many lock objects -----

  /** A lock object waits for a reply, or is between calls. */
  datatype Phase = Idle | AcquireReplied(ok: bool) | ReleaseReplied(deleted: bool)

  /**
   * acquired is the object's flag. deadline and released record, for stating the
   * protocol's promises, when its last successful SET expires and whether it has
   * been asked to release since.
   */
  datatype LockState = LockState(
    key: Key, token: Token, ttl: int, acquired: bool, phase: Phase, deadline: int, released: bool)

  type LockId = nat

  datatype State = State(now: int, entries: map<Key, Entry>, locks: map<LockId, LockState>)

  datatype Action =
    | Tick(elapsed: nat)
    | Create(id: LockId, key: Key, token: Token, ttl: int)
    | SendAcquire(id: LockId)
    | LoseAcquire(id: LockId)
    | FinishAcquire(id: LockId)
    | SendRelease(id: LockId)
    | LoseRelease(id: LockId)
    | FinishRelease(id: LockId)

  predicate TokenUsed(s: State, token: Token) {
    (exists id :: id in s.locks && s.locks[id].token == token) ||
        (exists k :: k in s.entries && s.entries[k].token == token)
  }

  /** An action can happen: calls start when the object is idle, tokens are fresh, replies come after commands. */
  predicate Enabled(s: State, a: Action) {
    match a
    case Tick(_) => true
    case Create(id, _, token, _) => id !in s.locks && !TokenUsed(s, token)
    case SendAcquire(id) => id in s.locks && s.locks[id].phase.Idle? && s.locks[id].ttl > 0
    case LoseAcquire(id) => id in s.locks && s.locks[id].phase.Idle? && s.locks[id].ttl > 0
    case FinishAcquire(id) => id in s.locks && s.locks[id].phase.AcquireReplied?
    case SendRelease(id) => id in s.locks && s.locks[id].phase.Idle? && s.locks[id].acquired
    case LoseRelease(id) => id in s.locks && s.locks[id].phase.Idle? && s.locks[id].acquired
    case FinishRelease(id) => id in s.locks && s.locks[id].phase.ReleaseReplied?
  }

  /** The lock once the server has run its SET, with the given phase. */
  function AfterSet(s: State, l: LockState, phase: Phase): LockState {
    if Live(s.entries, s.now, l.key) then l.(phase := phase)
    else l.(phase := phase, deadline := s.now + l.ttl, released := false)
  }

  /**
   * The state after an action. A lost call is one the server ran although its
   * caller got an error: the object's flag stays as it was.
   */
  function Apply(s: State, a: Action): State
    requires Enabled(s, a)
  {
    match a
    case Tick(elapsed) => s.(now := s.now + elapsed)
    case Create(id, key, token, ttl) =>
      s.(locks := s.locks[id := LockState(key, token, ttl, false, Idle, s.now, false)])
    case SendAcquire(id) =>
      var l := s.locks[id];
      s.(entries := SetIfAbsent(s.entries, s.now, l.key, l.token, l.ttl),
         locks := s.locks[id := AfterSet(s, l, AcquireReplied(!Live(s.entries, s.now, l.key)))])
    case LoseAcquire(id) =>
      var l := s.locks[id];
      s.(entries := SetIfAbsent(s.entries, s.now, l.key, l.token, l.ttl), locks := s.locks[id := AfterSet(s, l, Idle)])
    case FinishAcquire(id) =>
      var l := s.locks[id];
      s.(locks := s.locks[id := l.(acquired := l.phase.ok, phase := Idle)])
    case SendRelease(id) =>
      var l := s.locks[id];
      s.(entries := Unlock(s.entries, s.now, l.key, l.token),
         locks := s.locks[id := l.(phase := ReleaseReplied(UnlockDeletes(s.entries, s.now, l.key, l.token)),
             released := true)])
    case LoseRelease(id) =>
      var l := s.locks[id];
      s.(entries := Unlock(s.entries, s.now, l.key, l.token), locks := s.locks[id := l.(released := true)])
    case FinishRelease(id) =>
      var l := s.locks[id];
      s.(locks := s.locks[id := l.(acquired := false, phase := Idle)])
  }

  // ----- Safety -----

  /** The lock was acquired, has not been asked to release, and is within its time to live. */
  predicate Holds(s: State, id: LockId) {
    id in s.locks && s.locks[id].acquired && s.locks[id].phase.Idle? && !s.locks[id].released &&
        s.now < s.locks[id].deadline
  }

  /** At most one lock holds each key, and the key stores that lock's token until its deadline. */
  ghost predicate Safe(s: State) {
    && (forall id :: Holds(s, id) ==>
          s.locks[id].key in s.entries && s.entries[s.locks[id].key] == Entry(s.locks[id].token, s.locks[id].deadline))
    && (forall i, j :: Holds(s, i) && Holds(s, j) && s.locks[i].key == s.locks[j].key ==> i == j)
  }

  /** The lock has set its key and not given it up. */
  predicate Claims(l: LockState) {
    !l.released && (l.acquired || l.phase == AcquireReplied(true))
  }

  ghost predicate ClaimStored(s: State, id: LockId)
    requires id in s.locks
  {
    var l := s.locks[id];
    Claims(l) && s.now < l.deadline ==> l.key in s.entries && s.entries[l.key] == Entry(l.token, l.deadline)
  }

  ghost predicate EntryOwned(s: State, k: Key, id: LockId)
    requires k in s.entries && id in s.locks
  {
    var l := s.locks[id];
    s.entries[k].token == l.token ==> k == l.key && s.entries[k].expiresAt == l.deadline
  }

  ghost predicate Inv(s: State) {
    && (forall i, j :: i in s.locks && j in s.locks && s.locks[i].token == s.locks[j].token ==> i == j)
    && (forall id :: id in s.locks ==> ClaimStored(s, id))
    && (forall k, id :: k in s.entries && id in s.locks ==> EntryOwned(s, k, id))
  }

  lemma InvIsSafe(s: State)
    requires Inv(s)
    ensures Safe(s)
  {
    forall id | Holds(s, id)
      ensures s.locks[id].key in s.entries &&
              s.entries[s.locks[id].key] == Entry(s.locks[id].token, s.locks[id].deadline)
    {
      assert ClaimStored(s, id);
    }
  }

  lemma {:induction false} ClaimKept(s: State, a: Action, id: LockId)
    requires Inv(s) && Enabled(s, a) && id in Apply(s, a).locks
    ensures ClaimStored(Apply(s, a), id)
  {
    if id in s.locks { assert ClaimStored(s, id); }
  }

  lemma {:induction false} EntryKept(s: State, a: Action, k: Key, id: LockId)
    requires Inv(s) && Enabled(s, a) && k in Apply(s, a).entries && id in Apply(s, a).locks
    ensures EntryOwned(Apply(s, a), k, id)
  {
    if k in s.entries && id in s.locks { assert EntryOwned(s, k, id); }
  }

  lemma {:induction false} InvKept(s: State, a: Action)
    requires Inv(s) && Enabled(s, a)
    ensures Inv(Apply(s, a))
  {
    var u := Apply(s, a);
    forall id | id in u.locks ensures ClaimStored(u, id) { ClaimKept(s, a, id); }
    forall k, id | k in u.entries && id in u.locks ensures EntryOwned(u, k, id) { EntryKept(s, a, k, id); }
  }

  /** A run: each state comes from the one before by an enabled action. */
  ghost predicate Run(states: seq<State>, actions: seq<Action>) {
    && |states| == |actions| + 1
    && states[0].locks == map[]
    && forall i :: 0 <= i < |actions| ==>
        Enabled(states[i], actions[i]) && states[i + 1] == Apply(states[i], actions[i])
  }

  /** Every state of every interleaving is safe, whatever keys the server held at the start. */
  lemma {:induction false} RunSafe(states: seq<State>, actions: seq<Action>, n: nat)
    requires Run(states, actions) && n < |states|
    ensures Inv(states[n]) && Safe(states[n])
  {
    if n > 0 {
      RunSafe(states, actions, n - 1);
      InvKept(states[n - 1], actions[n - 1]);
    }
    InvIsSafe(states[n]);
  }

  /**
   * A release deletes the key exactly when the caller is still within its time to
   * live, and then only its own entry: past the deadline it changes nothing, so
   * the key another lock has since acquired is never removed.
   */
  lemma ReleaseIsOwn(states: seq<State>, actions: seq<Action>, n: nat)
    requires Run(states, actions) && n < |actions| && (actions[n].SendRelease? || actions[n].LoseRelease?)
    ensures var s, l := states[n], states[n].locks[actions[n].id];
            && (forall k :: k in s.entries && k != l.key ==>
                k in states[n + 1].entries && states[n + 1].entries[k] == s.entries[k])
            && (s.now >= l.deadline ==> states[n + 1].entries == s.entries)
            && (!l.released ==> (UnlockDeletes(s.entries, s.now, l.key, l.token) <==> s.now < l.deadline))
  {
    RunSafe(states, actions, n);
    var s, l := states[n], states[n].locks[actions[n].id];
    assert ClaimStored(s, actions[n].id);
    if l.key in s.entries { assert EntryOwned(s, l.key, actions[n].id); }
  }

  /** The action is another lock's, or lets less time pass than this lock has left. */
  predicate LeavesAlone(a: Action, now: int, id: LockId, deadline: int) {
    match a
    case Tick(elapsed) => now + elapsed < deadline
    case other => other.id != id
  }

  /** Other locks keep what they hold through any action but time: no call of one lock takes a key from another. */
  lemma HoldersKeep(states: seq<State>, actions: seq<Action>, n: nat, id: LockId)
    requires Run(states, actions) && n < |actions| && Holds(states[n], id)
    requires LeavesAlone(actions[n], states[n].now, id, states[n].locks[id].deadline)
    ensures Holds(states[n + 1], id)
    ensures var k := states[n].locks[id].key;
            k in states[n].entries && k in states[n + 1].entries && states[n + 1].entries[k] == states[n].entries[k]
  {
    RunSafe(states, actions, n);
    RunSafe(states, actions, n + 1);
  }

  /** Time passes, or another lock acts. */
  predicate Elsewhere(a: Action, id: LockId) {
    match a
    case Tick(_) => true
    case other => other.id != id
  }

  lemma {:induction false} LockRests(states: seq<State>, actions: seq<Action>, n: nat, m: nat, id: LockId)
    requires Run(states, actions) && n <= m < |states| && id in states[n].locks
    requires forall k :: n <= k < m ==> Elsewhere(actions[k], id)
    ensures id in states[m].locks && states[m].locks[id] == states[n].locks[id]
    decreases m - n
  {
    if n < m {
      LockRests(states, actions, n, m - 1, id);
      assert states[m] == Apply(states[m - 1], actions[m - 1]) && Elsewhere(actions[m - 1], id);
    }
  }

  /**
   * Acquiring again while holding fails and clears the object's flag, whatever
   * happens before the reply is handled, so that a later release would not even be
   * sent: the key stays until it expires.
   */
  lemma ReacquireForgets(states: seq<State>, actions: seq<Action>, n: nat, m: nat, id: LockId)
    requires Run(states, actions) && n < m < |actions| && Holds(states[n], id)
    requires actions[n] == SendAcquire(id) && actions[m] == FinishAcquire(id)
    requires forall k :: n < k < m ==> Elsewhere(actions[k], id)
    ensures !states[m + 1].locks[id].acquired && !Enabled(states[m + 1], SendRelease(id))
    ensures var l := states[n].locks[id];
            states[m + 1].now < l.deadline ==>
              l.key in states[m + 1].entries && states[m + 1].entries[l.key] == Entry(l.token, l.deadline)
  {
    RunSafe(states, actions, n);
    RunSafe(states, actions, m);
    assert states[n + 1] == Apply(states[n], actions[n]) && states[m + 1] == Apply(states[m], actions[m]);
    assert states[n + 1].locks[id] == states[n].locks[id].(phase := AcquireReplied(false));
    LockRests(states, actions, n + 1, m, id);
    assert ClaimStored(states[m], id);
  }
}
