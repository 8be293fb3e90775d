/** Flag snapshots, pinning, and the degradation ladder over time. */
module FlagProvider {
  import opened Outcomes
  import opened FlagEngine

  /** An immutable view of all flags; its identity tells the baked-in defaults from what was fetched. */
  class FlagSnapshot {
    const generation: nat
    const fetchedAt: nat
    const flags: map<string, CompiledFlag>

    constructor (generation: nat, fetchedAt: nat, flags: map<string, CompiledFlag>)
      ensures this.generation == generation && this.fetchedAt == fetchedAt && this.flags == flags
    {
      this.generation, this.fetchedAt, this.flags := generation, fetchedAt, flags;
    }
  }

  datatype Degradation = Fresh | FailedSafe | BakedDefaults
  datatype ResolvedFlag = ResolvedFlag(enabled: bool, reason: string, degradation: Degradation, generation: nat)

  const STALE := "snapshot_stale_beyond_threshold"

  function SaturatingSub(a: nat, b: nat): nat { if a < b then 0 else a - b }

  // ----- The ladder -----

  function RustResolve(snapshot: FlagSnapshot, baked: FlagSnapshot, key: string, ctx: Context,
          priority: seq<string>, now: nat, bucket: Bucketing): Option<ResolvedFlag> {
    if key !in snapshot.flags then None
    else
      var flag := snapshot.flags[key];
      var age := SaturatingSub(now, snapshot.fetchedAt);
      var degradation :=
        if snapshot == baked then BakedDefaults
        else if age <= StalenessLimitMs(flag.flagClass) then Fresh
        else FailedSafe;
      if degradation == FailedSafe then Some(ResolvedFlag(flag.failValue, STALE, degradation, snapshot.generation))
      else
        var outcome := RustEvaluate(flag, ctx, priority, now, bucket);
        Some(ResolvedFlag(outcome.Resolve(flag.failValue), outcome.Reason(), degradation, snapshot.generation))
  }

  function Max(a: int, b: int): int { if a < b then b else a }

  function PythonResolve(snapshot: FlagSnapshot, baked: FlagSnapshot, key: string, ctx: Context,
          priority: seq<string>, now: nat, bucket: Bucketing): Option<ResolvedFlag> {
    if key !in snapshot.flags then None
    else
      var flag := snapshot.flags[key];
      var age := Max(0, now - snapshot.fetchedAt);
      if snapshot != baked && age > StalenessLimitMs(flag.flagClass) then
        Some(ResolvedFlag(flag.failValue, STALE, FailedSafe, snapshot.generation))
      else
        var outcome := PythonEvaluate(flag, ctx, priority, now, bucket);
        Some(ResolvedFlag(outcome.Resolve(flag.failValue), outcome.reason,
                          if snapshot == baked then BakedDefaults else Fresh, snapshot.generation))
  }

  /** Both providers serve the same verdict, degradation and generation, and the same reason whenever they fail safe. */
  lemma ProvidersAgree(snapshot: FlagSnapshot, baked: FlagSnapshot, key: string, ctx: Context,
          priority: seq<string>, now: nat, bucket: Bucketing)
    ensures var r := RustResolve(snapshot, baked, key, ctx, priority, now, bucket);
            var p := PythonResolve(snapshot, baked, key, ctx, priority, now, bucket);
            && (r.Some? <==> p.Some?)
            && (r.Some? ==>
                  && p.value.enabled == r.value.enabled && p.value.degradation == r.value.degradation &&
                      p.value.generation == r.value.generation
                  && (p.value.reason == r.value.reason <==>
                        r.value.degradation == FailedSafe ||
                            RustEvaluate(snapshot.flags[key], ctx, priority, now, bucket).UseFailValue?))
  {
    if key in snapshot.flags {
      EvaluatorsAgree(snapshot.flags[key], ctx, priority, now, bucket);
    }
  }

  // ----- Time -----

  function Earlier(a: Option<nat>, b: Option<nat>): Option<nat> {
    if a.None? then b else if b.None? then a else if a.value <= b.value then a else b
  }

  /**
   * The one moment at which the verdict of a flag on a snapshot may change: its
   * expiry, or the first stale millisecond.
   */
  function SwitchTime(snapshot: FlagSnapshot, baked: FlagSnapshot, flag: CompiledFlag): Option<nat> {
    Earlier(flag.expiresAt,
            if snapshot == baked then None else Some(snapshot.fetchedAt + StalenessLimitMs(flag.flagClass) + 1))
  }

  predicate Switched(snapshot: FlagSnapshot, baked: FlagSnapshot, flag: CompiledFlag, now: nat) {
    var switch := SwitchTime(snapshot, baked, flag);
    switch.Some? && switch.value <= now
  }

  /** Before the switch the whole answer stands still; from it on the flag is its failure value. */
  lemma VerdictSwitchesOnce(snapshot: FlagSnapshot, baked: FlagSnapshot, key: string, ctx: Context,
          priority: seq<string>, s: nat, t: nat, bucket: Bucketing)
    requires s <= t && key in snapshot.flags
    ensures var flag := snapshot.flags[key];
            var before := RustResolve(snapshot, baked, key, ctx, priority, s, bucket);
            var after := RustResolve(snapshot, baked, key, ctx, priority, t, bucket);
            && after.Some?
            && (!Switched(snapshot, baked, flag, t) ==> before == after)
            && (Switched(snapshot, baked, flag, t) ==> after.value.enabled == flag.failValue)
            && (Switched(snapshot, baked, flag, s) ==> Switched(snapshot, baked, flag, t))
  {
    ClockOnlyExpires(snapshot.flags[key], ctx, priority, s, t, bucket);
  }

  // ----- Runs -----

  /** The refresher's swaps and the clock; pinned snapshots are held by units of work. */
  datatype World = World(baked: FlagSnapshot, current: FlagSnapshot, now: nat)
  datatype Step = Swap(next: FlagSnapshot) | Tick(ms: nat)

  function Apply(w: World, step: Step): World {
    match step
    case Swap(next) => w.(current := next)
    case Tick(ms) => w.(now := w.now + ms)
  }

  function Run(w: World, steps: seq<Step>): World
    decreases |steps|
  {
    if steps == [] then w else Run(Apply(w, steps[0]), steps[1..])
  }

  lemma {:induction false} RunKeeps(w: World, steps: seq<Step>)
    ensures Run(w, steps).baked == w.baked && w.now <= Run(w, steps).now
    decreases |steps|
  {
    if steps != [] { RunKeeps(Apply(w, steps[0]), steps[1..]); }
  }

  /** The verdict of a unit of work that pinned a snapshot, in some world. */
  function PinnedVerdict(w: World, pinned: FlagSnapshot, key: string, ctx: Context, priority: seq<string>,
          bucket: Bucketing): Option<ResolvedFlag> {
    RustResolve(pinned, w.baked, key, ctx, priority, w.now, bucket)
  }

  /**
   * Whatever is swapped in while a unit of work runs, its answers for a flag
   * that its pinned snapshot has stay the same until one moment fixed when the
   * snapshot was fetched, and are the flag's failure value from then on.
   */
  lemma PinnedVerdictHolds(w: World, first: seq<Step>, second: seq<Step>, pinned: FlagSnapshot, key: string,
          ctx: Context, priority: seq<string>, bucket: Bucketing)
    requires key in pinned.flags
    ensures var mid := Run(w, first);
            var end := Run(mid, second);
            var flag := pinned.flags[key];
            var before, after := PinnedVerdict(mid, pinned, key, ctx, priority, bucket),
                PinnedVerdict(end, pinned, key, ctx, priority, bucket);
            && before.Some? && after.Some?
            && (!Switched(pinned, w.baked, flag, end.now) ==> after == before)
            && (Switched(pinned, w.baked, flag, mid.now) ==>
                before.value.enabled == after.value.enabled == flag.failValue)
            && (Switched(pinned, w.baked, flag, end.now) ==> after.value.enabled == flag.failValue)
  {
    var mid := Run(w, first);
    var end := Run(mid, second);
    RunKeeps(w, first);
    RunKeeps(mid, second);
    VerdictSwitchesOnce(pinned, w.baked, key, ctx, priority, mid.now, end.now, bucket);
    VerdictSwitchesOnce(pinned, w.baked, key, ctx, priority, mid.now, mid.now, bucket);
  }

  // ----- The Rust store -----

  class FlagStore {
    var current: FlagSnapshot
    const baked: FlagSnapshot

    constructor (generation: nat, fetchedAt: nat, flags: map<string, CompiledFlag>)
      ensures fresh(baked) && current == baked
      ensures baked.generation == generation && baked.fetchedAt == fetchedAt && baked.flags == flags
    {
      var defaults := new FlagSnapshot(generation, fetchedAt, flags);
      baked := defaults;
      current := defaults;
    }

    method Pin() returns (pinned: FlagSnapshot)
      ensures pinned == current
    {
      pinned := current;
    }

    /**
     * What is swapped in is a new object, so it is never taken for the baked-in
     * defaults; pinned snapshots are constants and keep their flags.
     */
    method Swap(generation: nat, fetchedAt: nat, flags: map<string, CompiledFlag>)
      modifies this`current
      ensures fresh(current) && current != baked && current != old(current)
      ensures current.generation == generation && current.fetchedAt == fetchedAt && current.flags == flags
    {
      current := new FlagSnapshot(generation, fetchedAt, flags);
    }

    function EvaluateCurrent(key: string, ctx: Context, priority: seq<string>, now: nat,
            bucket: Bucketing): Option<ResolvedFlag>
      reads this
    {
      RustResolve(current, baked, key, ctx, priority, now, bucket)
    }

    /** What a unit of work is served reads nothing that a swap changes. */
    function EvaluatePinned(pinned: FlagSnapshot, key: string, ctx: Context, priority: seq<string>, now: nat,
            bucket: Bucketing): Option<ResolvedFlag> {
      RustResolve(pinned, baked, key, ctx, priority, now, bucket)
    }

    /**
     * A pin taken in the old state answers now, after any number of swaps, as the
     * current snapshot answered then, until the flag's switch time; from it on the
     * answer is the flag's failure value.
     */
    twostate lemma PinnedAnswers(pinned: FlagSnapshot, key: string, ctx: Context, priority: seq<string>,
            pinnedAt: nat, now: nat, bucket: Bucketing)
      requires old(current) == pinned && pinnedAt <= now && key in pinned.flags
      ensures var flag := pinned.flags[key];
              var before := old(EvaluateCurrent(key, ctx, priority, pinnedAt, bucket));
              var after := EvaluatePinned(pinned, key, ctx, priority, now, bucket);
              && after.Some?
              && (!Switched(pinned, baked, flag, now) ==> after == before)
              && (Switched(pinned, baked, flag, now) ==> after.value.enabled == flag.failValue)
    {
      VerdictSwitchesOnce(pinned, baked, key, ctx, priority, pinnedAt, now, bucket);
    }
  }

  // ----- The Python provider -----

  class Provider {
    var current: FlagSnapshot
    const baked: FlagSnapshot

    constructor (baked: FlagSnapshot)
      ensures this.baked == baked && current == baked
    {
      this.baked, current := baked, baked;
    }

    method Refresh(snapshot: FlagSnapshot)
      modifies this`current
      ensures current == snapshot
    {
      current := snapshot;
    }

    method Pin() returns (pinned: FlagSnapshot)
      ensures pinned == current
    {
      pinned := current;
    }

    /**
     * With no snapshot given the current one is used; the answer agrees with the Rust
     * engine's on the same snapshot.
     */
    method Evaluate(key: string, ctx: Context, snapshot: FlagSnapshot?, priority: seq<string>, now: nat,
            bucket: Bucketing) returns (r: Option<ResolvedFlag>)
      ensures var snap := if snapshot == null then current else snapshot;
              var rust := RustResolve(snap, baked, key, ctx, priority, now, bucket);
              && r == PythonResolve(snap, baked, key, ctx, priority, now, bucket)
              && (r.Some? <==> rust.Some?)
              && (r.Some? ==> r.value.enabled == rust.value.enabled && r.value.degradation == rust.value.degradation)
    {
      var snap := if snapshot == null then current else snapshot;
      ProvidersAgree(snap, baked, key, ctx, priority, now, bucket);
      if key !in snap.flags { return None; }
      var flag := snap.flags[key];
      var age, threshold := Max(0, now - snap.fetchedAt), StalenessLimitMs(flag.flagClass);
      var degradation, useFail;
      if snap == baked {
        degradation, useFail := BakedDefaults, false;
      } else if age <= threshold {
        degradation, useFail := Fresh, false;
      } else {
        degradation, useFail := FailedSafe, true;
      }
      if useFail { return Some(ResolvedFlag(flag.failValue, STALE, degradation, snap.generation)); }
      var outcome := PythonEvaluate(flag, ctx, priority, now, bucket);
      return Some(ResolvedFlag(outcome.Resolve(flag.failValue), outcome.reason, degradation, snap.generation));
    }
  }
}
