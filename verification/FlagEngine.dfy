/** The two flag evaluators, Rust and Python, and the entity both bucket by. */
module FlagEngine {
  import opened Outcomes

  // ----- Model -----

  datatype FlagStatus = Draft | Active | Disabled | Retired
  datatype FlagType = Boolean | Percentage | Allowlist | Denylist
  datatype FlagClass = SafetyCritical | TradingBehavior | Standard

  function StalenessLimitMs(c: FlagClass): nat {
    match c
    case SafetyCritical => 1000
    case TradingBehavior => 5000
    case Standard => 60000
  }

  datatype CompiledFlag = CompiledFlag(
    flagKey: string,
    status: FlagStatus,
    flagType: FlagType,
    flagClass: FlagClass,
    boolValue: bool,
    rolloutBps: nat,
    allowlist: set<string>,
    denylist: set<string>,
    environments: set<string>,
    failValue: bool,
    expiresAt: Option<nat>)

  datatype Attribute = Attribute(key: string, value: string)
  datatype Context = Context(environment: string, attributes: seq<Attribute>)

  /** bucket_for(flag_key, entity): a hash of both, in basis points. */
  type Bucketing = (string, string) -> nat

  // ----- The bucketing entity -----

  /** The inner scan: the first non-empty value under the wanted key. */
  function FirstValue(attrs: seq<Attribute>, wanted: string): Option<string> {
    if attrs == [] then None
    else if attrs[0].key == wanted && attrs[0].value != "" then Some(attrs[0].value)
    else FirstValue(attrs[1..], wanted)
  }

  /** Rust: a nested scan that returns at the first match. */
  function RustSelect(attrs: seq<Attribute>, priority: seq<string>): Option<string> {
    if priority == [] then None
    else if FirstValue(attrs, priority[0]).Some? then FirstValue(attrs, priority[0])
    else RustSelect(attrs, priority[1..])
  }

  /** Python's dictionary after the attributes have been read in order. */
  function Lookup(attrs: seq<Attribute>): map<string, string> {
    if attrs == [] then map[]
    else
      var before, last := Lookup(attrs[..|attrs| - 1]), attrs[|attrs| - 1];
      if last.key !in before && last.value != "" then before[last.key := last.value] else before
  }

  function PickFrom(lookup: map<string, string>, priority: seq<string>): Option<string> {
    if priority == [] then None
    else if priority[0] in lookup && lookup[priority[0]] != "" then Some(lookup[priority[0]])
    else PickFrom(lookup, priority[1..])
  }

  function PythonSelect(attrs: seq<Attribute>, priority: seq<string>): Option<string> {
    PickFrom(Lookup(attrs), priority)
  }

  /** Python: fill a dictionary, then try the priorities in turn. */
  method SelectBucketingEntity(attrs: seq<Attribute>, priority: seq<string>) returns (entity: Option<string>)
    ensures entity == PythonSelect(attrs, priority)
  {
    var lookup: map<string, string> := map[];
    for i := 0 to |attrs|
      invariant lookup == Lookup(attrs[..i])
    {
      assert attrs[..i + 1][..i] == attrs[..i];
      if attrs[i].key !in lookup && attrs[i].value != "" {
        lookup := lookup[attrs[i].key := attrs[i].value];
      }
    }
    assert attrs[..|attrs|] == attrs;
    for i := 0 to |priority|
      invariant PickFrom(lookup, priority[i..]) == PickFrom(lookup, priority)
    {
      assert priority[i..][1..] == priority[i + 1..];
      if priority[i] in lookup && lookup[priority[i]] != "" {
        return Some(lookup[priority[i]]);
      }
    }
    return None;
  }

  lemma {:induction false} FirstValueAppend(attrs: seq<Attribute>, last: Attribute, wanted: string)
    ensures FirstValue(attrs + [last], wanted) ==
            if FirstValue(attrs, wanted).Some? then FirstValue(attrs, wanted)
            else if last.key == wanted && last.value != "" then Some(last.value) else None
  {
    if attrs == [] {
      assert [last][1..] == [];
    } else {
      assert (attrs + [last])[1..] == attrs[1..] + [last];
      FirstValueAppend(attrs[1..], last, wanted);
    }
  }

  /** The dictionary holds exactly the first non-empty value of each key. */
  lemma {:induction false} LookupIsFirst(attrs: seq<Attribute>, wanted: string)
    ensures FirstValue(attrs, wanted) == if wanted in Lookup(attrs) then Some(Lookup(attrs)[wanted]) else None
    ensures wanted in Lookup(attrs) ==> Lookup(attrs)[wanted] != ""
  {
    if attrs != [] {
      var before, last := attrs[..|attrs| - 1], attrs[|attrs| - 1];
      LookupIsFirst(before, wanted);
      FirstValueAppend(before, last, wanted);
      assert attrs == before + [last];
    }
  }

  /** The nested scan and the dictionary select the same entity. */
  lemma {:induction false} SelectionsAgree(attrs: seq<Attribute>, priority: seq<string>)
    ensures RustSelect(attrs, priority) == PythonSelect(attrs, priority)
  {
    if priority != [] {
      LookupIsFirst(attrs, priority[0]);
      SelectionsAgree(attrs, priority[1..]);
    }
  }

  predicate Carries(a: Attribute, key: string) { a.key == key && a.value != "" }

  lemma {:induction false} FirstValueMeans(attrs: seq<Attribute>, wanted: string)
    ensures match FirstValue(attrs, wanted)
            case None => forall j :: 0 <= j < |attrs| ==> !Carries(attrs[j], wanted)
            case Some(v) =>
              exists j :: 0 <= j < |attrs| && Carries(attrs[j], wanted) && attrs[j].value == v &&
                          forall i :: 0 <= i < j ==> !Carries(attrs[i], wanted)
  {
    if attrs != [] {
      FirstValueMeans(attrs[1..], wanted);
      if !Carries(attrs[0], wanted) && FirstValue(attrs, wanted).Some? {
        var j: nat :| j < |attrs[1..]| && Carries(attrs[1..][j], wanted) &&
            attrs[1..][j].value == FirstValue(attrs, wanted).value &&
                 forall i :: 0 <= i < j ==> !Carries(attrs[1..][i], wanted);
        forall i | 0 <= i < j + 1 ensures !Carries(attrs[i], wanted) {
          if i > 0 { assert !Carries(attrs[1..][i - 1], wanted); }
        }
        assert Carries(attrs[j + 1], wanted);
      } else if FirstValue(attrs, wanted).None? {
        forall j | 0 <= j < |attrs| ensures !Carries(attrs[j], wanted) {
          if j > 0 { assert !Carries(attrs[1..][j - 1], wanted); }
        }
      }
    }
  }

  /** Some attribute carries a non-empty value for the key. */
  ghost predicate Present(attrs: seq<Attribute>, key: string) { exists j :: 0 <= j < |attrs| && Carries(attrs[j], key) }

  /**
   * The entity is the first non-empty value of the highest priority that has one;
   * there is none only when no priority has one.
   */
  lemma {:induction false} SelectionMeans(attrs: seq<Attribute>, priority: seq<string>)
    ensures match RustSelect(attrs, priority)
            case None => forall i :: 0 <= i < |priority| ==> !Present(attrs, priority[i])
            case Some(v) =>
              exists i :: 0 <= i < |priority| && Present(attrs, priority[i]) &&
                  FirstValue(attrs, priority[i]) == Some(v) &&
                          forall h :: 0 <= h < i ==> !Present(attrs, priority[h])
  {
    if priority != [] {
      FirstValueMeans(attrs, priority[0]);
      SelectionMeans(attrs, priority[1..]);
      if FirstValue(attrs, priority[0]).None? && RustSelect(attrs, priority).Some? {
        var i: nat :| i < |priority[1..]| && Present(attrs, priority[1..][i]) &&
                 FirstValue(attrs, priority[1..][i]) == RustSelect(attrs, priority) &&
                 forall h :: 0 <= h < i ==> !Present(attrs, priority[1..][h]);
        forall h | 0 <= h < i + 1 ensures !Present(attrs, priority[h]) {
          if h > 0 { assert !Present(attrs, priority[1..][h - 1]); }
        }
        assert Present(attrs, priority[i + 1]);
      } else if RustSelect(attrs, priority).None? {
        forall i | 0 <= i < |priority| ensures !Present(attrs, priority[i]) {
          if i > 0 { assert !Present(attrs, priority[1..][i - 1]); }
        }
      }
    }
  }

  // ----- The evaluators -----

  datatype RustOutcome = Enabled | NotEnabled | UseFailValue(why: string) {
    predicate Resolve(failValue: bool) {
      match this
      case Enabled => true
      case NotEnabled => false
      case UseFailValue(_) => failValue
    }

    function Reason(): string {
      match this
      case Enabled => "enabled"
      case NotEnabled => "disabled"
      case UseFailValue(r) => r
    }
  }

  function RustEvaluate(flag: CompiledFlag, ctx: Context, priority: seq<string>, now: nat,
          bucket: Bucketing): RustOutcome {
    if flag.status == Retired then UseFailValue("retired")
    else if flag.status == Disabled then UseFailValue("disabled")
    else if flag.status == Draft then UseFailValue("draft")
    else if flag.environments != {} && ctx.environment !in flag.environments then
        UseFailValue("environment_not_targeted")
    else if flag.expiresAt.Some? && now >= flag.expiresAt.value then UseFailValue("expired")
    else
      var entity := RustSelect(ctx.attributes, priority);
      if entity.Some? && entity.value in flag.denylist then NotEnabled
      else if entity.Some? && entity.value in flag.allowlist then Enabled
      else
        match flag.flagType
        case Boolean => if flag.boolValue then Enabled else NotEnabled
        case Allowlist => NotEnabled
        case Denylist => Enabled
        case Percentage =>
          if entity.None? then UseFailValue("missing_bucketing_entity")
          else if bucket(flag.flagKey, entity.value) < flag.rolloutBps then Enabled
          else NotEnabled
  }

  datatype Kind = KindEnabled | KindDisabled | KindFailValue

  datatype PythonOutcome = PythonOutcome(kind: Kind, reason: string) {
    predicate Resolve(failValue: bool) {
      if kind == KindEnabled then true else if kind == KindDisabled then false else failValue
    }
  }

  function Fail(reason: string): PythonOutcome { PythonOutcome(KindFailValue, reason) }

  function PythonEvaluate(flag: CompiledFlag, ctx: Context, priority: seq<string>, now: nat,
          bucket: Bucketing): PythonOutcome {
    if flag.status == Retired then Fail("retired")
    else if flag.status == Disabled then Fail("disabled")
    else if flag.status == Draft then Fail("draft")
    else if flag.environments != {} && ctx.environment !in flag.environments then Fail("environment_not_targeted")
    else if flag.expiresAt.Some? && now >= flag.expiresAt.value then Fail("expired")
    else
      var entity := PythonSelect(ctx.attributes, priority);
      if entity.Some? && entity.value in flag.denylist then PythonOutcome(KindDisabled, "denylisted")
      else if entity.Some? && entity.value in flag.allowlist then PythonOutcome(KindEnabled, "allowlisted")
      else if flag.flagType == Boolean then
        if flag.boolValue then PythonOutcome(KindEnabled, "boolean") else PythonOutcome(KindDisabled, "boolean")
      else if flag.flagType == Allowlist then PythonOutcome(KindDisabled, "not_in_allowlist")
      else if flag.flagType == Denylist then PythonOutcome(KindEnabled, "not_in_denylist")
      else if entity.None? then Fail("missing_bucketing_entity")
      else if bucket(flag.flagKey, entity.value) < flag.rolloutBps then PythonOutcome(KindEnabled, "percentage")
      else PythonOutcome(KindDisabled, "percentage")
  }

  function KindOf(o: RustOutcome): Kind {
    match o
    case Enabled => KindEnabled
    case NotEnabled => KindDisabled
    case UseFailValue(_) => KindFailValue
  }

  /** Both evaluators give the same kind, the same verdict, and the same reason exactly when the reason is a failure. */
  lemma EvaluatorsAgree(flag: CompiledFlag, ctx: Context, priority: seq<string>, now: nat, bucket: Bucketing)
    ensures var r, p := RustEvaluate(flag, ctx, priority, now, bucket),
            PythonEvaluate(flag, ctx, priority, now, bucket);
            && p.kind == KindOf(r)
            && p.Resolve(flag.failValue) == r.Resolve(flag.failValue)
            && (p.reason == r.Reason() <==> r.UseFailValue?)
  {
    SelectionsAgree(ctx.attributes, priority);
    var r, p := RustEvaluate(flag, ctx, priority, now, bucket), PythonEvaluate(flag, ctx, priority, now, bucket);
    if !r.UseFailValue? {
      assert p.reason[2] != r.Reason()[2] || p.reason[0] != r.Reason()[0];
    }
  }

  /**
   * Raising a rollout never takes a flag away from anyone, and leaves every context
   * outside the new share as it was.
   */
  lemma RolloutGrows(flag: CompiledFlag, more: nat, ctx: Context, priority: seq<string>, now: nat, bucket: Bucketing)
    requires flag.rolloutBps <= more
    ensures var wider := flag.(rolloutBps := more);
            var before, after := RustEvaluate(flag, ctx, priority, now, bucket),
                RustEvaluate(wider, ctx, priority, now, bucket);
            && (before.Enabled? ==> after.Enabled?)
            && (before != after <==>
                  && flag.status == Active && flag.flagType == Percentage
                  && (flag.environments == {} || ctx.environment in flag.environments)
                  && !(flag.expiresAt.Some? && now >= flag.expiresAt.value)
                  && var e := RustSelect(ctx.attributes, priority);
                     e.Some? && e.value !in flag.denylist && e.value !in flag.allowlist &&
                     flag.rolloutBps <= bucket(flag.flagKey, e.value) < more)
  {
  }

  /**
   * The expiry is the only thing the clock changes: an evaluation is constant before
   * it and the failure value from then on.
   */
  lemma ClockOnlyExpires(flag: CompiledFlag, ctx: Context, priority: seq<string>, s: nat, t: nat, bucket: Bucketing)
    requires s <= t
    ensures var before, after := RustEvaluate(flag, ctx, priority, s, bucket),
            RustEvaluate(flag, ctx, priority, t, bucket);
            if flag.expiresAt.Some? && flag.expiresAt.value <= t then after.UseFailValue? else before == after
  {
  }
}
