/**
 * What an audit event hash commits to: the canonical payload of the event and
 * of the previous hash. SHA-256 is a parameter, assumed to be free of collisions.
 */
module AuditHash {
  import opened Outcomes
  import opened JsonText
  import opened CanonicalJson

  /** "0" * n */
  function Zeros(n: nat): string {
    if n == 0 then "" else ['0'] + Zeros(n - 1)
  }

  function GenesisHash(length: nat): Hash { Hash(Zeros(length)) }

  /** A hexadecimal digest. */
  datatype Hash = Hash(hex: string)

  const HASH_LENGTH: nat := 64
  const GENESIS_HASH := GenesisHash(HASH_LENGTH)
  const AUDIT_SCHEMA_VERSION := 1

  /** occurredAt is the formatted time stamp, eventId the text of the UUID. */
  datatype AuditFields = AuditFields(
    eventId: string,
    occurredAt: string,
    actorType: string,
    actorId: Outcomes.Option<string>,
    principalName: Outcomes.Option<string>,
    serviceName: string,
    plane: string,
    action: string,
    resourceType: string,
    resourceId: string,
    decision: string,
    reason: string,
    severity: string,
    requestId: Outcomes.Option<string>,
    correlationId: Outcomes.Option<string>,
    traceId: Outcomes.Option<string>,
    idempotencyKey: Outcomes.Option<string>,
    data: Value)

  ghost predicate ValidFields(f: AuditFields) { f.data.Object? && IsDocument(f.data) }

  /** Equal apart from the order of keys inside data. */
  ghost predicate SameEvent(f: AuditFields, g: AuditFields) {
    f.(data := g.data) == g && Meaning(f.data) == Meaning(g.data)
  }

  function OptText(o: Outcomes.Option<string>): Value {
    match o
    case None => Null
    case Some(s) => Str(s)
  }

  const PAYLOAD_KEYS: seq<string> := [
    "audit_schema_version", "event_id", "occurred_at", "actor_type", "actor_id", "principal_name", "service_name",
    "plane", "action", "resource_type", "resource_id", "decision", "reason", "severity", "request_id",
    "correlation_id", "trace_id", "idempotency_key", "data", "prev_hash"]

  function PayloadValues(f: AuditFields, prevHash: Hash): (values: seq<Value>)
    ensures |values| == 20
  {
    [Int(AUDIT_SCHEMA_VERSION), Str(f.eventId), Str(f.occurredAt), Str(f.actorType), OptText(f.actorId),
     OptText(f.principalName), Str(f.serviceName), Str(f.plane), Str(f.action), Str(f.resourceType), Str(f.resourceId),
     Str(f.decision), Str(f.reason), Str(f.severity), OptText(f.requestId), OptText(f.correlationId),
     OptText(f.traceId), OptText(f.idempotencyKey), f.data, Str(prevHash.hex)]
  }

  function CanonicalPayload(f: AuditFields, prevHash: Hash): Value {
    Object(seq(20, i requires 0 <= i < 20 => Member(PAYLOAD_KEYS[i], PayloadValues(f, prevHash)[i])))
  }

  type Digest = string -> Hash

  /** sha256(...).hexdigest() as an injection that never yields the genesis value. */
  ghost predicate CollisionFree(sha: Digest) {
    && (forall x: string, y: string :: sha(x) == sha(y) ==> x == y)
    && (forall x: string :: sha(x) != GENESIS_HASH)
  }

  function ComputeEventHash(sha: Digest, f: AuditFields, prevHash: Hash): Hash {
    sha(CanonicalText(CanonicalPayload(f, prevHash)))
  }

  // ----- The payload determines the event -----

  /** Length and first character tell the payload keys apart. */
  function Fingerprint(s: string): int {
    if s == [] then 0 else |s| * 256 + s[0] as int
  }

  lemma PayloadKeysDistinct()
    ensures forall i, j :: 0 <= i < j < 20 ==> PAYLOAD_KEYS[i] != PAYLOAD_KEYS[j]
  {
    var ks := PAYLOAD_KEYS;
    var prints := [5217, 2149, 2927, 2657, 2145, 3696, 3187, 1392, 1633, 3442, 2930, 2148, 1650, 2163, 2674, 3683,
        2164, 3945, 1124, 2416];
    assert |ks| == 20 && |prints| == 20;
    assert Fingerprint(ks[0]) == prints[0] && Fingerprint(ks[1]) == prints[1];
    assert Fingerprint(ks[2]) == prints[2] && Fingerprint(ks[3]) == prints[3];
    assert Fingerprint(ks[4]) == prints[4] && Fingerprint(ks[5]) == prints[5];
    assert Fingerprint(ks[6]) == prints[6] && Fingerprint(ks[7]) == prints[7];
    assert Fingerprint(ks[8]) == prints[8] && Fingerprint(ks[9]) == prints[9];
    assert Fingerprint(ks[10]) == prints[10] && Fingerprint(ks[11]) == prints[11];
    assert Fingerprint(ks[12]) == prints[12] && Fingerprint(ks[13]) == prints[13];
    assert Fingerprint(ks[14]) == prints[14] && Fingerprint(ks[15]) == prints[15];
    assert Fingerprint(ks[16]) == prints[16] && Fingerprint(ks[17]) == prints[17];
    assert Fingerprint(ks[18]) == prints[18] && Fingerprint(ks[19]) == prints[19];
  }

  lemma PayloadIsDocument(f: AuditFields, prevHash: Hash)
    requires ValidFields(f)
    ensures IsDocument(CanonicalPayload(f, prevHash))
  {
    PayloadKeysDistinct();
    var ms := CanonicalPayload(f, prevHash).members;
    forall i | 0 <= i < 20 ensures IsDocument(ms[i].value) {
      assert PayloadValues(f, prevHash)[18] == f.data;
    }
  }

  /** Payloads of equal meaning have values of equal meaning, field by field. */
  lemma PayloadFields(f: AuditFields, p: Hash, g: AuditFields, q: Hash, i: nat)
    requires ValidFields(f) && ValidFields(g) && i < 20
    requires Meaning(CanonicalPayload(f, p)) == Meaning(CanonicalPayload(g, q))
    ensures Meaning(PayloadValues(f, p)[i]) == Meaning(PayloadValues(g, q)[i])
  {
    PayloadIsDocument(f, p);
    PayloadIsDocument(g, q);
    var ms, ns := CanonicalPayload(f, p).members, CanonicalPayload(g, q).members;
    MeaningOfMembersAt(ms);
    MeaningOfMembersAt(ns);
    assert ms[i].key == ns[i].key;
  }

  lemma OptTextInjective(a: Outcomes.Option<string>, b: Outcomes.Option<string>)
    requires Meaning(OptText(a)) == Meaning(OptText(b))
    ensures a == b
  {
  }

  ghost predicate ValuesAgree(f: AuditFields, p: Hash, g: AuditFields, q: Hash, i: nat)
    requires i < 20
  {
    Meaning(PayloadValues(f, p)[i]) == Meaning(PayloadValues(g, q)[i])
  }

  lemma TextsAgree(f: AuditFields, p: Hash, g: AuditFields, q: Hash)
    requires forall i :: 0 <= i < 20 ==> ValuesAgree(f, p, g, q, i)
    ensures f.eventId == g.eventId && f.occurredAt == g.occurredAt && f.actorType == g.actorType &&
            f.serviceName == g.serviceName
    ensures f.plane == g.plane && f.action == g.action && f.resourceType == g.resourceType &&
            f.resourceId == g.resourceId
  {
    assert ValuesAgree(f, p, g, q, 1) && ValuesAgree(f, p, g, q, 2) && ValuesAgree(f, p, g, q, 3) &&
        ValuesAgree(f, p, g, q, 6);
    assert ValuesAgree(f, p, g, q, 7) && ValuesAgree(f, p, g, q, 8) && ValuesAgree(f, p, g, q, 9) &&
        ValuesAgree(f, p, g, q, 10);
  }

  lemma LaterTextsAgree(f: AuditFields, p: Hash, g: AuditFields, q: Hash)
    requires forall i :: 0 <= i < 20 ==> ValuesAgree(f, p, g, q, i)
    ensures f.decision == g.decision && f.reason == g.reason && f.severity == g.severity &&
            Meaning(f.data) == Meaning(g.data) && p == q
  {
    assert ValuesAgree(f, p, g, q, 11) && ValuesAgree(f, p, g, q, 12) && ValuesAgree(f, p, g, q, 13);
    assert ValuesAgree(f, p, g, q, 18) && ValuesAgree(f, p, g, q, 19);
  }

  lemma OptionsAgree(f: AuditFields, p: Hash, g: AuditFields, q: Hash)
    requires forall i :: 0 <= i < 20 ==> ValuesAgree(f, p, g, q, i)
    ensures f.actorId == g.actorId && f.principalName == g.principalName && f.requestId == g.requestId
    ensures f.correlationId == g.correlationId && f.traceId == g.traceId && f.idempotencyKey == g.idempotencyKey
  {
    assert ValuesAgree(f, p, g, q, 4) && ValuesAgree(f, p, g, q, 5) && ValuesAgree(f, p, g, q, 14);
    assert ValuesAgree(f, p, g, q, 15) && ValuesAgree(f, p, g, q, 16) && ValuesAgree(f, p, g, q, 17);
    OptTextInjective(f.actorId, g.actorId);
    OptTextInjective(f.principalName, g.principalName);
    OptTextInjective(f.requestId, g.requestId);
    OptTextInjective(f.correlationId, g.correlationId);
    OptTextInjective(f.traceId, g.traceId);
    OptTextInjective(f.idempotencyKey, g.idempotencyKey);
  }

  lemma PayloadIdentifies(f: AuditFields, p: Hash, g: AuditFields, q: Hash)
    requires ValidFields(f) && ValidFields(g)
    requires Meaning(CanonicalPayload(f, p)) == Meaning(CanonicalPayload(g, q))
    ensures SameEvent(f, g) && p == q
  {
    forall i | 0 <= i < 20 ensures ValuesAgree(f, p, g, q, i) { PayloadFields(f, p, g, q, i); }
    TextsAgree(f, p, g, q);
    LaterTextsAgree(f, p, g, q);
    OptionsAgree(f, p, g, q);
  }

  lemma SameEventSamePayload(f: AuditFields, g: AuditFields, p: Hash)
    requires ValidFields(f) && ValidFields(g) && SameEvent(f, g)
    ensures Meaning(CanonicalPayload(f, p)) == Meaning(CanonicalPayload(g, p))
  {
    PayloadIsDocument(f, p);
    PayloadIsDocument(g, p);
    var ms, ns := CanonicalPayload(f, p).members, CanonicalPayload(g, p).members;
    assert PayloadValues(f, p)[18 := g.data] == PayloadValues(g, p);
    forall i | 0 <= i < 20 ensures SameEntry(ms[i], ns[i]) {
      assert PayloadValues(f, p)[18 := g.data][i] == PayloadValues(g, p)[i];
    }
    forall i | 0 <= i < 20 ensures HasEntry(ns, ms[i]) && HasEntry(ms, ns[i]) {
      assert SameEntry(ms[i], ns[i]) && SameEntry(ns[i], ms[i]);
    }
    SameObject(ms, ns);
  }

  /** An event hash identifies the event, up to key order in its data, and the previous hash. */
  lemma HashIdentifies(sha: Digest, f: AuditFields, p: Hash, g: AuditFields, q: Hash)
    requires CollisionFree(sha) && ValidFields(f) && ValidFields(g)
    ensures ComputeEventHash(sha, f, p) == ComputeEventHash(sha, g, q) <==> SameEvent(f, g) && p == q
    ensures ComputeEventHash(sha, f, p) != GENESIS_HASH
  {
    PayloadIsDocument(f, p);
    PayloadIsDocument(g, q);
    CanonicalTextIdentifies(CanonicalPayload(f, p), CanonicalPayload(g, q));
    if ComputeEventHash(sha, f, p) == ComputeEventHash(sha, g, q) {
      PayloadIdentifies(f, p, g, q);
    }
    if SameEvent(f, g) && p == q {
      SameEventSamePayload(f, g, p);
    }
  }

  // ----- Event hashes in general -----

  /** The genesis value, and how an event and the previous hash are hashed. */
  datatype Hashing = Hashing(genesis: Hash, eventHash: (AuditFields, Hash) -> Hash)

  ghost predicate Identifies(c: Hashing, f: AuditFields, p: Hash, g: AuditFields, q: Hash) {
    ValidFields(f) && ValidFields(g) ==>
      (c.eventHash(f, p) == c.eventHash(g, q) <==> SameEvent(f, g) && p == q) && c.eventHash(f, p) != c.genesis
  }

  /** Equal hashes mean equal events behind equal previous hashes, and the genesis value is no event hash. */
  ghost predicate Commits(c: Hashing) {
    forall f, p, g, q :: Identifies(c, f, p, g, q)
  }

  function AuditHashing(sha: Digest): Hashing {
    Hashing(GENESIS_HASH, (f, p) => ComputeEventHash(sha, f, p))
  }

  /** compute_event_hash commits to its event under a digest free of collisions. */
  lemma AuditHashingCommits(sha: Digest)
    requires CollisionFree(sha)
    ensures Commits(AuditHashing(sha))
  {
    var c := AuditHashing(sha);
    forall f, p, g, q ensures Identifies(c, f, p, g, q) {
      if ValidFields(f) && ValidFields(g) { HashIdentifies(sha, f, p, g, q); }
    }
  }
}
