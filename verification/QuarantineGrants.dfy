/** What a sender gets: the answer to a delivery in numbers, and the permits it is sure to
    obtain. */
module QuarantineGrants {
  import opened Common
  import opened Facts
  import opened QuarantineModel
  import opened QuarantineValidation
  import opened QuarantineInvariant
  import opened QuarantineMachine
  import opened QuarantineRate
  import opened QuarantineLimits
  import opened QuarantineIsolation

  // ----- what a sender has -----

  /** Its permits and one for every fifteen seconds since its last refill; eight for a
      sender without policy. */
  function Available(ps: seq<Policy>, sender: string, now: u64): nat {
    match FindPolicy(ps, sender)
    case Some(p) => p.permits + SatSub(now, p.lastRefillAt) / 15
    case None => 8
  }

  /** Of the sender's evidence, what is at most eight days old. */
  predicate ChargedRecently(ps: seq<Policy>, sender: string, id: string, now: u64) {
    match FindPolicy(ps, sender)
    case Some(p) => exists c | c in p.charges :: c.id == id && SatSub(now, c.at) <= 8 * 24 * 60 * 60
    case None => false
  }

  lemma RefillExactly(b: Bucket, now: u64)
    requires b.permits <= 8 && b.refilledAt <= now
    ensures Refill(b, now) == Bucket(Min(8, b.permits + (now - b.refilledAt) / 15),
                                     b.refilledAt + (now - b.refilledAt) / 15 * 15)
  {
  }

  /** The policy a decision works on, from the one the sender had. */
  lemma PlacedPolicy(s: Snapshot, scope: Scope, sender: string, now: u64)
    requires Orderly(s.policies, now)
    requires EnsurePolicy(s.(policies := MaintainPolicies(s.policies, now)), scope, sender, now).Ok?
    ensures var (t, k) := EnsurePolicy(s.(policies := MaintainPolicies(s.policies, now)), scope, sender, now).value;
            var p := t.policies[k];
            && t == s.(policies := t.policies)
            && p.permits == Min(8, Available(s.policies, sender, now))
            && p.lastRefillAt == RefilledAt(s.policies, sender, now)
            && (forall c :: c in p.charges <==>
                  FindPolicy(s.policies, sender).Some? && c in FindPolicy(s.policies, sender).value.charges
                  && SatSub(now, c.at) <= 8 * 24 * 60 * 60)
  {
    hide MaintainPolicies;
    var m := s.(policies := MaintainPolicies(s.policies, now));
    MaintainFind(s.policies, now, sender);
    FindMember(s.policies, sender);
    EnsureFind(m, scope, sender, now, sender);
    match FindPolicy(s.policies, sender)
    case Some(p) =>
      RefillExactly(Bucket(p.permits, p.lastRefillAt), now);
      FilterMembers(p.charges, FreshCharge(now));
    case None =>
  }

  // ----- room for evidence -----

  /** Fewer charges than 65536 in all and 40960 of the sender, and 30 bytes for the probe. */
  predicate EvidenceRoom(ps: seq<Policy>, k: nat)
    requires k < |ps|
  {
    Sum(ps, ChargeCount) < 65536 && |ps[k].charges| < 40960 && PolicyBytes(ps) + 30 <= 8 * 1024 * 1024
  }

  lemma RoomExactly(ps: seq<Policy>, k: nat)
    requires k < |ps|
    ensures ChargeCapacityError(ps, k).None? <==> EvidenceRoom(ps, k)
  {
    ProbeBytes(ps, k);
  }

  // ----- one decision -----

  /** The start of the refill interval that `now` falls into. */
  function RefilledAt(ps: seq<Policy>, sender: string, now: u64): nat {
    match FindPolicy(ps, sender)
    case Some(p) => p.lastRefillAt + SatSub(now, p.lastRefillAt) / 15 * 15
    case None => now
  }

  /** The sender after paying for `id`: one permit less, the started interval goes on. */
  predicate Paid(ps: seq<Policy>, ps': seq<Policy>, sender: string, id: string, now: u64) {
    var q := FindPolicy(ps', sender);
    q.Some? && q.value.permits == Min(8, Available(ps, sender, now)) - 1 && q.value.lastActivityAt == now
    && q.value.lastRefillAt == RefilledAt(ps, sender, now) && Charge(id, now) in q.value.charges
  }

  /** The sender has this many permits and was active now. */
  predicate Seen(ps: seq<Policy>, sender: string, permits: nat, now: u64) {
    var q := FindPolicy(ps, sender);
    q.Some? && q.value.permits == permits && q.value.lastActivityAt == now
  }

  /** The answer to a delivery whose id is new: neither stored nor charged in the last
      eight days, from a sender that has or gets a place in the table. It is Permit exactly
      when the sender has a permit, refills counted, and there is room for the evidence;
      the sender then has one less of at most eight. Without room it is refused with
      Capacity. Without a permit the delivery is stored, or refused when it cannot be. */
  lemma DecisionExactly(s: Snapshot, scope: Scope, id: string, observedBy: seq<string>, envelope: Envelope,
                        size: Option<nat>, now: u64)
    requires Orderly(s.policies, now) && ValidEventId(id) && forall r | r in s.records :: r.id != id
    requires !ChargedRecently(s.policies, HexKey(envelope.from), id, now)
    requires EnsurePolicy(s.(policies := MaintainPolicies(s.policies, now)), scope, HexKey(envelope.from), now).Ok?
    ensures var sender, res := HexKey(envelope.from), ApplyPolicy(s, scope, id, observedBy, envelope, size, now);
            var (t, k) := EnsurePolicy(s.(policies := MaintainPolicies(s.policies, now)), scope, sender, now).value;
            var have := Available(s.policies, sender, now);
            && ((res.Ok? && res.value.1 == Permit) <==> have > 0 && EvidenceRoom(t.policies, k))
            && (res.Ok? && res.value.1 == Permit ==>
                  Paid(s.policies, res.value.0.policies, sender, id, now) && res.value.0.records == s.records)
            && (have > 0 && !EvidenceRoom(t.policies, k) ==> res == Err(Capacity))
            && (have == 0 ==>
                  var stored := AppendRecord(t, scope, id, observedBy, envelope, RATE_LIMITED, size, now);
                  if stored.Err? then res == Err(stored.error)
                  else && res.Ok? && res.value.1 == Quarantined && res.value.0.records == stored.value.records
                       && Seen(res.value.0.policies, sender, 0, now))
  {
    hide MaintainPolicies, EnsurePolicy, AppendRecord, Available, RefilledAt, Orderly, EvidenceRoom, ChargeCapacityError;
    var sender := HexKey(envelope.from);
    var m := s.(policies := MaintainPolicies(s.policies, now));
    PlacedPolicy(s, scope, sender, now);
    var (t, k) := EnsurePolicy(m, scope, sender, now).value;
    RoomExactly(t.policies, k);
    NotCharged(s.policies, sender, id, now, t.policies[k].charges);
    var res := ApplyPolicy(s, scope, id, observedBy, envelope, size, now);
    assert res == DecideCharge(t, k, scope, id, observedBy, envelope, size, now);
    if res.Ok? {
      MaintainFind(s.policies, now, sender);
      EnsureFind(m, scope, sender, now, sender);
      DecideFind(t, k, scope, id, observedBy, envelope, size, now, sender);
      PushSortMembers(t.policies[k].charges, Charge(id, now), ChargeLe);
    }
  }

  lemma NotCharged(ps: seq<Policy>, sender: string, id: string, now: u64, charges: seq<Charge>)
    requires forall c :: c in charges <==>
               FindPolicy(ps, sender).Some? && c in FindPolicy(ps, sender).value.charges && SatSub(now, c.at) <= 8 * 24 * 60 * 60
    ensures (exists c | c in charges :: c.id == id) <==> ChargedRecently(ps, sender, id, now)
  {
  }

  /** A delivery charged in the last eight days costs nothing more, and one that is stored
      is never permitted. */
  lemma RepeatedDecision(s: Snapshot, scope: Scope, id: string, observedBy: seq<string>, envelope: Envelope,
                         size: Option<nat>, now: u64)
    requires Orderly(s.policies, now) && ValidEventId(id)
    ensures var sender, res := HexKey(envelope.from), ApplyPolicy(s, scope, id, observedBy, envelope, size, now);
            && ((forall r | r in s.records :: r.id != id) && ChargedRecently(s.policies, sender, id, now) ==>
                  && res.Ok? && res.value.1 == AlreadyCharged && res.value.0.records == s.records
                  && Seen(res.value.0.policies, sender, Min(8, Available(s.policies, sender, now)), now))
            && ((exists r | r in s.records :: r.id == id) ==>
                  var stored := AppendRecord(s, scope, id, observedBy, envelope, RATE_LIMITED, size, now);
                  if stored.Err? then res == Err(stored.error)
                  else res.Ok? && res.value.1 == Quarantined && res.value.0.records == stored.value.records)
  {
    hide MaintainPolicies, Available, Orderly, AppendRecord, DecideCharge, ChargedRecently, EnsurePolicy;
    var sender := HexKey(envelope.from);
    if (forall r | r in s.records :: r.id != id) && ChargedRecently(s.policies, sender, id, now) {
      AlreadyPaid(s, scope, id, observedBy, envelope, size, now);
    }
    SameStored(s, scope, id, observedBy, envelope, size, now);
  }

  lemma SameStored(s: Snapshot, scope: Scope, id: string, observedBy: seq<string>, envelope: Envelope, size: Option<nat>, now: u64)
    ensures var stored := AppendRecord(s, scope, id, observedBy, envelope, RATE_LIMITED, size, now);
            var again := AppendRecord(s.(policies := MaintainPolicies(s.policies, now)), scope, id, observedBy, envelope, RATE_LIMITED, size, now);
            if stored.Err? then again == Err(stored.error) else again.Ok? && again.value.records == stored.value.records
  {
  }

  lemma AlreadyPaid(s: Snapshot, scope: Scope, id: string, observedBy: seq<string>, envelope: Envelope, size: Option<nat>, now: u64)
    requires Orderly(s.policies, now) && ValidEventId(id) && forall r | r in s.records :: r.id != id
    requires ChargedRecently(s.policies, HexKey(envelope.from), id, now)
    ensures var sender, res := HexKey(envelope.from), ApplyPolicy(s, scope, id, observedBy, envelope, size, now);
            && res.Ok? && res.value.1 == AlreadyCharged && res.value.0.records == s.records
            && Seen(res.value.0.policies, sender, Min(8, Available(s.policies, sender, now)), now)
  {
    hide MaintainPolicies, Available, Orderly, AppendRecord;
    var sender := HexKey(envelope.from);
    var m := s.(policies := MaintainPolicies(s.policies, now));
    MaintainFind(s.policies, now, sender);
    FindUnfold(m.policies, sender);
    PlacedPolicy(s, scope, sender, now);
    var (t, k) := EnsurePolicy(m, scope, sender, now).value;
    NotCharged(s.policies, sender, id, now, t.policies[k].charges);
    DecideFind(t, k, scope, id, observedBy, envelope, size, now, sender);
  }

  // ----- over runs -----

  /** After 120 seconds without a decision about it, a sender has eight permits, whatever
      else happened, crashes included. */
  lemma RestedSender(st: Store, scope: Scope, calls: seq<Call>, since: u64, sender: string, later: u64)
    requires OrderlyStore(st, since) && ClockOrdered(calls) && since + 120 <= later
    requires forall i | 0 <= i < |calls| :: since <= calls[i].now <= later && OfOthers(calls[i], sender)
    ensures Min(8, Available(Run(st, scope, calls, |calls|).mem.policies, sender, later)) == 8
  {
    hide Run, Available;
    var end := Run(st, scope, calls, |calls|);
    RunLeavesOthers(st, scope, calls, since, sender, later, |calls|);
    RunOrderly(st, scope, calls, since, |calls|);
    var last := if |calls| == 0 then since else calls[|calls|-1].now;
    AvailableIsBucket(st.mem.policies, sender, since, later);
    AvailableIsBucket(st.disk.policies, sender, since, later);
    AvailableIsBucket(end.mem.policies, sender, last, later);
    RestedPolicies(st.mem.policies, sender, since, later);
    RestedPolicies(st.disk.policies, sender, since, later);
  }

  lemma AvailableIsBucket(ps: seq<Policy>, sender: string, since: u64, now: u64)
    requires Orderly(ps, since) && since <= now
    ensures BucketOf(ps, sender, now).permits == Min(8, Available(ps, sender, now))
  {
    FindMember(ps, sender);
    match FindPolicy(ps, sender)
    case Some(p) => RefillExactly(Bucket(p.permits, p.lastRefillAt), now);
    case None =>
  }

  lemma RestedPolicies(ps: seq<Policy>, sender: string, since: u64, later: u64)
    requires Orderly(ps, since) && since + 120 <= later
    ensures Available(ps, sender, later) >= 8
  {
    FindMember(ps, sender);
  }

  /** The call brings a new id of `sender` at time `now`, written without fault, and there
      is a place in the table and room for its evidence. */
  ghost predicate Clear(s: Snapshot, scope: Scope, owner: Ownership, call: Call, sender: string, now: u64) {
    && call.op.PolicyOp? && HexKey(call.op.envelope.from) == sender && call.now == now && call.fault == NoFault
    && Admissible(s, owner, call.op) && ValidEventId(call.op.id)
    && (forall r | r in s.records :: r.id != call.op.id)
    && !ChargedRecently(s.policies, sender, call.op.id, now)
    && var place := EnsurePolicy(s.(policies := MaintainPolicies(s.policies, now)), scope, sender, now);
       place.Ok? && EvidenceRoom(place.value.0.policies, place.value.1)
  }

  lemma ClearIsPermitted(st: Store, scope: Scope, owner: Ownership, call: Call, sender: string, now: u64)
    requires ValidScope(scope) && SoundStore(st, scope, owner) && OrderlyStore(st, now)
    requires Clear(st.mem, scope, owner, call, sender, now) && Available(st.mem.policies, sender, now) > 0
    ensures var (st', a) := Step(st, scope, call);
            && a == Decided(Permit) && SoundStore(st', scope, owner) && OrderlyStore(st', now)
            && Min(8, Available(st'.mem.policies, sender, now)) == Min(8, Available(st.mem.policies, sender, now)) - 1
  {
    hide ApplyPolicy, Validate, Sound, Orderly, EnsurePolicy, EvidenceRoom, ChargedRecently, MaintainPolicies;
    var PolicyOp(id, observedBy, envelope, size) := call.op;
    DecisionExactly(st.mem, scope, id, observedBy, envelope, size, now);
    var next := ApplyPolicy(st.mem, scope, id, observedBy, envelope, size, now).value.0;
    ApplyPolicySound(st.mem, scope, owner, id, observedBy, envelope, size, now);
    CommitSound(st, next, scope, owner, NoFault, Decided(Permit));
    ReopenAccepts(next, scope, owner);
    PolicyEffect(st.mem, scope, id, observedBy, envelope, size, now, sender);
    MaintainBucket(st.mem.policies, now, sender, now);
    AvailableIsBucket(st.mem.policies, sender, now, now);
    AvailableIsBucket(next.policies, sender, now, now);
    PaidBucket(st.mem.policies, next.policies, sender, id, now);
  }

  lemma PaidBucket(ps: seq<Policy>, ps': seq<Policy>, sender: string, id: string, now: u64)
    requires Orderly(ps, now) && Paid(ps, ps', sender, id, now) && Available(ps, sender, now) > 0
    ensures Available(ps', sender, now) == Min(8, Available(ps, sender, now)) - 1
  {
    FindMember(ps, sender);
  }

  /** A sender with `n` permits obtains them: the next `n` new ids it brings at that time,
      each with a place and room and without write faults, are all permitted. */
  lemma {:induction false} AllGranted(st: Store, scope: Scope, owner: Ownership, calls: seq<Call>, sender: string, now: u64, n: nat)
    requires ValidScope(scope) && SoundStore(st, scope, owner) && OrderlyStore(st, now)
    requires n <= |calls| && |calls| <= Min(8, Available(st.mem.policies, sender, now))
    requires forall i | 0 <= i < |calls| :: Clear(Run(st, scope, calls, i).mem, scope, owner, calls[i], sender, now)
    ensures forall i | 0 <= i < n :: AnswerAt(st, scope, calls, i) == Decided(Permit)
    ensures var end := Run(st, scope, calls, n);
            && SoundStore(end, scope, owner) && OrderlyStore(end, now)
            && Min(8, Available(end.mem.policies, sender, now)) == Min(8, Available(st.mem.policies, sender, now)) - n
  {
    hide Step, Clear, Available, SoundStore, OrderlyStore;
    if n > 0 {
      AllGranted(st, scope, owner, calls, sender, now, n - 1);
      ClearIsPermitted(Run(st, scope, calls, n - 1), scope, owner, calls[n-1], sender, now);
    }
  }
}
