/** The durable inbound quarantine of one capsule: its snapshot, the limits that
    `validate_snapshot` enforces, and every operation as a function from one
    snapshot to the next (platform/hivra-ffi/src/inbound_quarantine.rs). */
module QuarantineModel {
  import opened Common
  import opened Facts

  const SCHEMA_VERSION: nat := 1
  const ADAPTER: string := "nostr"
  const MAX_RECORDS: nat := 256
  const MAX_CIPHERTEXT_BYTES: nat := 32 * 1024 * 1024
  const MAX_RECORDS_PER_SENDER: nat := 32
  const MAX_OBSERVATIONS: nat := 16
  const PAYLOAD_RETENTION_SECS: nat := 72 * 60 * 60
  const TOMBSTONE_RETENTION_SECS: nat := 30 * 24 * 60 * 60
  const MAX_TOMBSTONES: nat := 1024
  const MAX_TOMBSTONE_BYTES: nat := 1024 * 1024
  const INITIAL_RETRY_DELAY_SECS: nat := 15
  const MAX_RETRY_DELAY_SECS: nat := 15 * 60
  const MAX_EVENT_ID_LEN: nat := 128
  const MAX_ENDPOINT_LEN: nat := 512
  const SENDER_POLICY_BURST: nat := 8
  const SENDER_POLICY_REFILL_SECS: nat := 15
  const MAX_POLICY_SENDERS: nat := 1024
  const CHARGE_EVIDENCE_RETENTION_SECS: nat := 8 * 24 * 60 * 60
  const MAX_CHARGE_EVIDENCE: nat := 65_536
  const MAX_CHARGE_EVIDENCE_PER_SENDER: nat := 40_960
  const MAX_SENDER_POLICY_BYTES: nat := 8 * 1024 * 1024
  const U16_MAX: nat := 65_535

  datatype Error = InvalidScope | InvalidRecord | Capacity | TombstoneCapacity | Corrupt | Crypto | Io

  datatype Scope = Scope(capsuleId: string, network: nat, endpoint: string)

  /** An authenticated ciphertext: it opens only under the associated data
      (scope and event id) it was sealed with. */
  datatype Ciphertext = Sealed(scope: Scope, id: string, envelope: Envelope, size: nat)

  datatype Record = Record(
    schema: nat, scope: Scope, adapter: string, id: string, sender: string,
    observedBy: seq<string>, kind: nat, reason: string,
    firstObservedAt: u64, quarantinedAt: u64, eligibleAfter: u64, expiresAt: u64,
    attempts: nat, lastAttemptAt: Option<u64>, ciphertext: Ciphertext)

  datatype Tombstone = Tombstone(
    schema: nat, scope: Scope, adapter: string, id: string, sender: string, kind: nat,
    reason: string, firstObservedAt: u64, terminalAt: u64)

  datatype Charge = Charge(id: string, at: u64)

  datatype Policy = Policy(
    schema: nat, scope: Scope, sender: string, permits: nat,
    lastRefillAt: u64, lastActivityAt: u64, charges: seq<Charge>)

  datatype Snapshot = Snapshot(
    schema: nat, scope: Scope, records: seq<Record>, tombstones: seq<Tombstone>, policies: seq<Policy>)

  datatype Decision = Permit | AlreadyCharged | Quarantined

  function EmptySnapshot(scope: Scope): Snapshot {
    Snapshot(SCHEMA_VERSION, scope, [], [], [])
  }

  // ----- keys and weights of the stored items -----

  function RecordId(r: Record): string { r.id }
  function TombstoneId(t: Tombstone): string { t.id }
  function PolicySender(p: Policy): string { p.sender }
  function ChargeId(c: Charge): string { c.id }

  function HasRecordId(id: string): Record -> bool { (r: Record) => r.id == id }
  function OtherRecordId(id: string): Record -> bool { (r: Record) => r.id != id }
  function HasSender(sender: string): Policy -> bool { (p: Policy) => p.sender == sender }
  function FromSender(sender: string): Record -> nat { (r: Record) => if r.sender == sender then 1 else 0 }

  function CipherSize(r: Record): nat { r.ciphertext.size }
  function ChargeCount(p: Policy): nat { |p.charges| }

  // Serialized sizes: integers are fixed width, strings and lists carry an
  // eight-byte length.
  function StringSize(s: string): nat { 8 + |s| }
  function ScopeSize(s: Scope): nat { StringSize(s.capsuleId) + 1 + StringSize(s.endpoint) }
  function ChargeSize(c: Charge): nat { StringSize(c.id) + 8 }
  function TombstoneSize(t: Tombstone): nat {
    2 + ScopeSize(t.scope) + StringSize(t.adapter) + StringSize(t.id) + StringSize(t.sender) + 4
    + StringSize(t.reason) + 8 + 8
  }
  function PolicySize(p: Policy): nat {
    2 + ScopeSize(p.scope) + StringSize(p.sender) + 1 + 8 + 8 + 8 + Sum(p.charges, ChargeSize)
  }
  function TombstoneBytes(ts: seq<Tombstone>): nat { 8 + Sum(ts, TombstoneSize) }
  function PolicyBytes(ps: seq<Policy>): nat { 8 + Sum(ps, PolicySize) }

  predicate RecordLe(a: Record, b: Record) { StringLe(a.id, b.id) }
  predicate TombstoneLe(a: Tombstone, b: Tombstone) { StringLe(a.id, b.id) }
  predicate ChargeLe(a: Charge, b: Charge) { StringLe(a.id, b.id) }

  // ----- what the validator accepts -----

  predicate ValidEventId(id: string) {
    && 0 < |id| <= MAX_EVENT_ID_LEN
    && forall c | c in id ::
         '0' <= c <= '9' || 'a' <= c <= 'z' || 'A' <= c <= 'Z' || c == '-' || c == '_' || c == ':'
  }

  predicate ValidHex32(s: string) {
    |s| == 64 && forall c | c in s :: HexDigitValue(c).Some?
  }

  predicate ValidScope(scope: Scope) {
    ValidHex32(scope.capsuleId) && ValidHex32(scope.endpoint) && scope.network <= 1
  }

  predicate RecordHeaderOk(r: Record, scope: Scope) {
    && r.schema == SCHEMA_VERSION && r.scope == scope && r.adapter == ADAPTER
    && |r.observedBy| <= MAX_OBSERVATIONS
    && r.expiresAt == SatAdd(r.firstObservedAt, PAYLOAD_RETENTION_SECS)
  }

  predicate RecordOk(r: Record, scope: Scope) {
    RecordHeaderOk(r, scope) && ValidEventId(r.id) && ValidHex32(r.sender)
  }

  ghost predicate ValidRecords(rs: seq<Record>, scope: Scope) {
    && |rs| <= MAX_RECORDS
    && (forall r | r in rs :: RecordOk(r, scope))
    && UniqueBy(rs, RecordId)
    && (forall sender :: Sum(rs, FromSender(sender)) <= MAX_RECORDS_PER_SENDER)
    && Sum(rs, CipherSize) <= MAX_CIPHERTEXT_BYTES
  }

  predicate TombstoneHeaderOk(t: Tombstone, scope: Scope) {
    t.schema == SCHEMA_VERSION && t.scope == scope && t.adapter == ADAPTER
  }

  predicate TombstoneOk(t: Tombstone, scope: Scope) {
    TombstoneHeaderOk(t, scope) && ValidEventId(t.id) && ValidHex32(t.sender)
  }

  ghost predicate ValidTombstones(ts: seq<Tombstone>, scope: Scope) {
    && |ts| <= MAX_TOMBSTONES
    && (forall t | t in ts :: TombstoneOk(t, scope))
    && UniqueBy(ts, TombstoneId)
    && TombstoneBytes(ts) <= MAX_TOMBSTONE_BYTES
  }

  ghost predicate DisjointIds(rs: seq<Record>, ts: seq<Tombstone>) {
    forall r, t | r in rs && t in ts :: r.id != t.id
  }

  predicate PolicyHeaderOk(p: Policy, scope: Scope) {
    && p.schema == SCHEMA_VERSION && p.scope == scope
    && p.permits <= SENDER_POLICY_BURST
    && |p.charges| <= MAX_CHARGE_EVIDENCE_PER_SENDER
  }

  ghost predicate PolicyOk(p: Policy, scope: Scope) {
    && PolicyHeaderOk(p, scope) && ValidHex32(p.sender)
    && (forall c | c in p.charges :: ValidEventId(c.id))
    && UniqueBy(p.charges, ChargeId)
  }

  /** No event id is charged to two senders. */
  ghost predicate ChargesApart(ps: seq<Policy>) {
    forall i, j, a, b | 0 <= i < j < |ps| && 0 <= a < |ps[i].charges| && 0 <= b < |ps[j].charges| ::
      ps[i].charges[a].id != ps[j].charges[b].id
  }

  ghost predicate ValidPolicies(ps: seq<Policy>, scope: Scope) {
    && |ps| <= MAX_POLICY_SENDERS
    && (forall p | p in ps :: PolicyOk(p, scope))
    && UniqueBy(ps, PolicySender)
    && ChargesApart(ps)
    && Sum(ps, ChargeCount) <= MAX_CHARGE_EVIDENCE
    && PolicyBytes(ps) <= MAX_SENDER_POLICY_BYTES
  }

  ghost predicate ValidSnapshot(s: Snapshot, scope: Scope) {
    && s.schema == SCHEMA_VERSION && s.scope == scope
    && ValidRecords(s.records, scope)
    && ValidTombstones(s.tombstones, scope)
    && DisjointIds(s.records, s.tombstones)
    && ValidPolicies(s.policies, scope)
  }

  // ----- operations -----

  predicate OkObservation(v: string) { 0 < |v| <= MAX_ENDPOINT_LEN }

  function Dedup(s: seq<string>): seq<string> {
    if |s| == 0 then []
    else
      var d := Dedup(s[..|s|-1]);
      if s[|s|-1] in d then d else d + [s[|s|-1]]
  }

  function MergeObservations(existing: seq<string>, incoming: seq<string>): (r: seq<string>)
    ensures |r| <= MAX_OBSERVATIONS
  {
    var all := Sort(Dedup(Filter(existing + incoming, OkObservation)), StringLe);
    if |all| <= MAX_OBSERVATIONS then all else all[..MAX_OBSERVATIONS]
  }

  function BoundedReason(reason: string): string {
    if |reason| <= 96 then reason else reason[..96]
  }

  function NewRecord(scope: Scope, id: string, observedBy: seq<string>, envelope: Envelope,
                     reason: string, size: nat, now: u64): Record {
    Record(SCHEMA_VERSION, scope, ADAPTER, id, HexKey(envelope.from),
           MergeObservations([], observedBy), envelope.kind, BoundedReason(reason),
           now, now, SatAdd(now, INITIAL_RETRY_DELAY_SECS), SatAdd(now, PAYLOAD_RETENTION_SECS),
           0, None, Sealed(scope, id, envelope, size))
  }

  /** `size` is the length of the sealed envelope, or `None` when sealing fails. */
  function AppendRecord(s: Snapshot, scope: Scope, id: string, observedBy: seq<string>, envelope: Envelope,
                        reason: string, size: Option<nat>, now: u64): (res: Result<Snapshot, Error>)
    ensures res.Err? ==> res.error == InvalidRecord || res.error == Capacity || res.error == Crypto
  {
    if !ValidEventId(id) then Err(InvalidRecord)
    else
      match Position(s.records, HasRecordId(id))
      case Some(k) =>
        var r := s.records[k];
        if r.sender != HexKey(envelope.from) || r.kind != envelope.kind then Err(InvalidRecord)
        else Ok(s.(records := s.records[k := r.(observedBy := MergeObservations(r.observedBy, observedBy))]))
      case None =>
        if |s.records| >= MAX_RECORDS
           || Sum(s.records, FromSender(HexKey(envelope.from))) >= MAX_RECORDS_PER_SENDER then Err(Capacity)
        else if size.None? then Err(Crypto)
        else if Sum(s.records, CipherSize) + size.value > MAX_CIPHERTEXT_BYTES then Err(Capacity)
        else
          var r := NewRecord(scope, id, observedBy, envelope, reason, size.value, now);
          Ok(s.(records := Sort(s.records + [r], RecordLe)))
  }

  function FreshCharge(now: u64): Charge -> bool {
    (c: Charge) => SatSub(now, c.at) <= CHARGE_EVIDENCE_RETENTION_SECS
  }

  function SatAddU8(a: nat, b: nat): nat { Min(a + b, 255) }

  datatype Bucket = Bucket(permits: nat, refilledAt: u64)

  /** Grants one permit for every full refill interval since the last refill. */
  function Refill(b: Bucket, now: u64): Bucket {
    var refill := SatSub(now, b.refilledAt) / SENDER_POLICY_REFILL_SECS;
    if refill > 0 then
      Bucket(Min(SatAddU8(b.permits, Min(refill, 255)), SENDER_POLICY_BURST),
             SatAdd(b.refilledAt, refill * SENDER_POLICY_REFILL_SECS))
    else b
  }

  function MaintainPolicy(p: Policy, now: u64): Policy {
    var b := Refill(Bucket(p.permits, p.lastRefillAt), now);
    p.(charges := Filter(p.charges, FreshCharge(now)), permits := b.permits, lastRefillAt := b.refilledAt)
  }

  function MaintainPolicies(ps: seq<Policy>, now: u64): seq<Policy> {
    seq(|ps|, i requires 0 <= i < |ps| => MaintainPolicy(ps[i], now))
  }

  predicate HasRecordOf(s: Snapshot, sender: string) {
    exists r | r in s.records :: r.sender == sender
  }

  predicate Removable(s: Snapshot, p: Policy) {
    p.permits == SENDER_POLICY_BURST && p.charges == [] && !HasRecordOf(s, p.sender)
  }

  /** The first least recently active removable policy among the first `k`. */
  function IdlePolicy(s: Snapshot, k: nat): (r: Option<nat>)
    requires k <= |s.policies|
    ensures r.Some? ==> r.value < k && Removable(s, s.policies[r.value])
  {
    if k == 0 then None
    else
      var prev := IdlePolicy(s, k - 1);
      var p := s.policies[k - 1];
      if Removable(s, p) && (prev.None? || p.lastActivityAt < s.policies[prev.value].lastActivityAt)
      then Some(k - 1) else prev
  }

  function MakePolicyCapacity(s: Snapshot): (res: Result<Snapshot, Error>)
    ensures res.Err? ==> res.error == Capacity
  {
    if |s.policies| < MAX_POLICY_SENDERS then Ok(s)
    else
      match IdlePolicy(s, |s.policies|)
      case Some(k) => Ok(s.(policies := s.policies[..k] + s.policies[k+1..]))
      case None => Err(Capacity)
  }

  const CAPACITY_PROBE := Charge("capacity-probe", 0)

  function ChargeCapacityError(ps: seq<Policy>, k: nat): (e: Option<Error>)
    requires k < |ps|
    ensures e.Some? ==> e.value == Capacity
  {
    if Sum(ps, ChargeCount) >= MAX_CHARGE_EVIDENCE || |ps[k].charges| >= MAX_CHARGE_EVIDENCE_PER_SENDER
    then Some(Capacity)
    else if PolicyBytes(ps[k := ps[k].(charges := ps[k].charges + [CAPACITY_PROBE])]) > MAX_SENDER_POLICY_BYTES
    then Some(Capacity)
    else None
  }

  function NewPolicy(scope: Scope, sender: string, now: u64): Policy {
    Policy(SCHEMA_VERSION, scope, sender, SENDER_POLICY_BURST, now, now, [])
  }

  /** The maintained snapshot with a policy for `sender`, and its index. */
  function EnsurePolicy(s: Snapshot, scope: Scope, sender: string, now: u64): (r: Result<(Snapshot, nat), Error>)
    ensures r.Ok? ==> r.value.1 < |r.value.0.policies| && r.value.0.policies[r.value.1].sender == sender
    ensures r.Err? ==> r.error == Capacity
  {
    match Position(s.policies, HasSender(sender))
    case Some(k) => Ok((s, k))
    case None =>
      match MakePolicyCapacity(s)
      case Err(e) => Err(e)
      case Ok(t) => Ok((t.(policies := t.policies + [NewPolicy(scope, sender, now)]), |t.policies|))
  }

  function Touch(s: Snapshot, k: nat, now: u64): Snapshot
    requires k < |s.policies|
  {
    s.(policies := s.policies[k := s.policies[k].(lastActivityAt := now)])
  }

  function ChargePolicy(p: Policy, id: string, now: u64): Policy
    requires p.permits > 0
  {
    p.(permits := p.permits - 1, lastActivityAt := now,
       charges := Sort(p.charges + [Charge(id, now)], ChargeLe))
  }

  const RATE_LIMITED := "sender_rate_limited"

  /** The part of `apply_sender_policy` after the sender's policy is in place. */
  function DecideCharge(s: Snapshot, k: nat, scope: Scope, id: string, observedBy: seq<string>,
                        envelope: Envelope, size: Option<nat>, now: u64): (res: Result<(Snapshot, Decision), Error>)
    requires k < |s.policies|
    ensures res.Err? ==> res.error == InvalidRecord || res.error == Capacity || res.error == Crypto
  {
    var p := s.policies[k];
    if exists c | c in p.charges :: c.id == id then Ok((Touch(s, k, now), AlreadyCharged))
    else if p.permits == 0 then
      match AppendRecord(s, scope, id, observedBy, envelope, RATE_LIMITED, size, now)
      case Err(e) => Err(e)
      case Ok(t) => Ok((t.(policies := Touch(s, k, now).policies), Quarantined))
    else
      match ChargeCapacityError(s.policies, k)
      case Some(e) => Err(e)
      case None => Ok((s.(policies := s.policies[k := ChargePolicy(p, id, now)]), Permit))
  }

  /** The snapshot `apply_sender_policy` installs and the answer it gives once
      that snapshot is durable; on `Err` the current snapshot stays. */
  function ApplyPolicy(s: Snapshot, scope: Scope, id: string, observedBy: seq<string>,
                       envelope: Envelope, size: Option<nat>, now: u64): (res: Result<(Snapshot, Decision), Error>)
    ensures res.Err? ==> res.error == InvalidRecord || res.error == Capacity || res.error == Crypto
  {
    if !ValidEventId(id) then Err(InvalidRecord)
    else
      var m := s.(policies := MaintainPolicies(s.policies, now));
      if exists r | r in m.records :: r.id == id then
        match AppendRecord(m, scope, id, observedBy, envelope, RATE_LIMITED, size, now)
        case Err(e) => Err(e)
        case Ok(t) => Ok((t, Quarantined))
      else
        match EnsurePolicy(m, scope, HexKey(envelope.from), now)
        case Err(e) => Err(e)
        case Ok(pair) => DecideCharge(pair.0, pair.1, scope, id, observedBy, envelope, size, now)
  }

  function FreshTombstone(now: u64): Tombstone -> bool {
    (t: Tombstone) => SatSub(now, t.terminalAt) <= TOMBSTONE_RETENTION_SECS
  }

  function TombstoneOf(r: Record, reason: string, now: u64): Tombstone {
    Tombstone(SCHEMA_VERSION, r.scope, r.adapter, r.id, r.sender, r.kind, reason, r.firstObservedAt, now)
  }

  function AppendTombstone(s: Snapshot, r: Record, reason: string, now: u64): (res: Result<Snapshot, Error>)
    ensures res.Err? ==> res.error == TombstoneCapacity
  {
    if exists t | t in s.tombstones :: t.id == r.id then Ok(s)
    else if |s.tombstones| >= MAX_TOMBSTONES then Err(TombstoneCapacity)
    else
      var t := TombstoneOf(r, reason, now);
      if TombstoneBytes(s.tombstones) + TombstoneSize(t) > MAX_TOMBSTONE_BYTES then Err(TombstoneCapacity)
      else Ok(s.(tombstones := Sort(s.tombstones + [t], TombstoneLe)))
  }

  /** Replaces the record `id` by a tombstone. */
  function Retire(s: Snapshot, id: string, reason: string, now: u64): (res: Result<Snapshot, Error>)
    ensures res.Err? ==> res.error == InvalidRecord || res.error == TombstoneCapacity
  {
    match Position(s.records, HasRecordId(id))
    case None => Err(InvalidRecord)
    case Some(k) =>
      match AppendTombstone(s, s.records[k], reason, now)
      case Err(e) => Err(e)
      case Ok(t) => Ok(t.(records := Filter(t.records, OtherRecordId(id))))
  }

  function PruneTombstones(s: Snapshot, now: u64): Snapshot {
    s.(tombstones := Filter(s.tombstones, FreshTombstone(now)))
  }

  function Due(now: u64): Record -> bool { (r: Record) => r.expiresAt <= now }

  const EXPIRED := "expired"
  const CONSUMED := "consumed"

  /** Retires the first `n` of the due records, in order. */
  function ExpireFirst(s: Snapshot, due: seq<Record>, n: nat, now: u64): Result<Snapshot, Error>
    requires n <= |due|
  {
    if n == 0 then Ok(s)
    else
      match ExpireFirst(s, due, n - 1, now)
      case Err(e) => Err(e)
      case Ok(t) =>
        match Retire(t, due[n-1].id, EXPIRED, now)
        case Err(InvalidRecord) => Err(Corrupt)
        case r => r
  }

  function RetryDelay(attempts: nat): nat {
    Min(INITIAL_RETRY_DELAY_SECS * Pow2(Min(attempts, 6)), MAX_RETRY_DELAY_SECS)
  }

  function Pow2(e: nat): (p: nat)
    ensures p > 0
  {
    if e == 0 then 1 else 2 * Pow2(e - 1)
  }

  function RetryRecord(r: Record, now: u64): Record {
    var attempts := Min(r.attempts + 1, U16_MAX);
    r.(attempts := attempts, lastAttemptAt := Some(now),
       eligibleAfter := Min(SatAdd(now, RetryDelay(attempts)), r.expiresAt))
  }

  function Retry(s: Snapshot, id: string, now: u64): (res: Result<Snapshot, Error>)
    ensures res.Err? ==> res.error == InvalidRecord
  {
    match Position(s.records, HasRecordId(id))
    case None => Err(InvalidRecord)
    case Some(k) => Ok(s.(records := s.records[k := RetryRecord(s.records[k], now)]))
  }

  // ----- recovery order -----

  predicate Eligible(r: Record, now: u64) { r.eligibleAfter <= now < r.expiresAt }

  /** Strictly earlier in the recovery order. */
  predicate Earlier(a: Record, b: Record) {
    || a.eligibleAfter < b.eligibleAfter
    || (a.eligibleAfter == b.eligibleAfter
        && (a.quarantinedAt < b.quarantinedAt
            || (a.quarantinedAt == b.quarantinedAt && !StringLe(b.id, a.id))))
  }

  /** The first earliest eligible record among the first `k`. */
  function EarliestEligible(rs: seq<Record>, k: nat, now: u64): (r: Option<nat>)
    requires k <= |rs|
    ensures r.Some? ==> r.value < k && Eligible(rs[r.value], now)
    ensures r.None? ==> forall i | 0 <= i < k :: !Eligible(rs[i], now)
  {
    if k == 0 then None
    else
      var prev := EarliestEligible(rs, k - 1, now);
      if Eligible(rs[k-1], now) && (prev.None? || Earlier(rs[k-1], rs[prev.value])) then Some(k - 1) else prev
  }

  /** Opens a record's ciphertext under the associated data of this scope. */
  function OpenRecord(r: Record, scope: Scope): Result<Envelope, Error> {
    var c := r.ciphertext;
    if c.scope != scope || c.id != r.id then Err(Crypto)
    else if HexKey(c.envelope.from) != r.sender then Err(Corrupt)
    else if !ValidHex32(scope.endpoint) then Err(InvalidScope)
    else if c.envelope.to != HexValue(scope.endpoint) || c.envelope.kind != r.kind then Err(Corrupt)
    else Ok(c.envelope)
  }

  datatype Recovered = Recovered(id: string, envelope: Envelope)

  function NextEligible(s: Snapshot, scope: Scope, now: u64): Result<Option<Recovered>, Error> {
    match EarliestEligible(s.records, |s.records|, now)
    case None => Ok(None)
    case Some(k) =>
      match OpenRecord(s.records[k], scope)
      case Err(e) => Err(e)
      case Ok(envelope) => Ok(Some(Recovered(s.records[k].id, envelope)))
  }
}
