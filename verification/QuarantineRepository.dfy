/** The repository object: its methods rewrite the snapshot in memory, validate
    it and write it to the file before they answer. Each one is proved to do
    exactly the step of the machine in `QuarantineMachine`. */
module QuarantineRepository {
  import opened Common
  import opened Facts
  import opened QuarantineModel
  import opened QuarantineValidation
  import opened QuarantineMachine

  /** `append_quarantine_record`, on a snapshot that is being built. */
  method AppendQuarantineRecord(s: Snapshot, scope: Scope, id: string, observedBy: seq<string>, envelope: Envelope,
                                reason: string, size: Option<nat>, now: u64) returns (res: Result<Snapshot, Error>)
    ensures res == AppendRecord(s, scope, id, observedBy, envelope, reason, size, now)
  {
    if !ValidEventId(id) { return Err(InvalidRecord); }
    var sender := HexKey(envelope.from);
    var existing := Position(s.records, HasRecordId(id));
    if existing.Some? {
      var r := s.records[existing.value];
      if r.sender != sender || r.kind != envelope.kind { return Err(InvalidRecord); }
      r := r.(observedBy := MergeObservations(r.observedBy, observedBy));
      return Ok(s.(records := s.records[existing.value := r]));
    }
    if |s.records| >= MAX_RECORDS || Sum(s.records, FromSender(sender)) >= MAX_RECORDS_PER_SENDER {
      return Err(Capacity);
    }
    if size.None? { return Err(Crypto); }
    if Sum(s.records, CipherSize) + size.value > MAX_CIPHERTEXT_BYTES { return Err(Capacity); }
    var records := s.records + [NewRecord(scope, id, observedBy, envelope, reason, size.value, now)];
    res := Ok(s.(records := Sort(records, RecordLe)));
  }

  /** `maintain_sender_policy_state`: policy after policy, in place. */
  method MaintainSenderPolicies(s: Snapshot, now: u64) returns (t: Snapshot)
    ensures t == s.(policies := MaintainPolicies(s.policies, now))
  {
    var ps := s.policies;
    var k := 0;
    while k < |ps|
      invariant 0 <= k <= |ps| == |s.policies|
      invariant forall i | 0 <= i < k :: ps[i] == MaintainPolicy(s.policies[i], now)
      invariant forall i | k <= i < |ps| :: ps[i] == s.policies[i]
    {
      var p := ps[k];
      p := p.(charges := Filter(p.charges, FreshCharge(now)));
      var refill := SatSub(now, p.lastRefillAt) / SENDER_POLICY_REFILL_SECS;
      if refill > 0 {
        p := p.(permits := Min(SatAddU8(p.permits, Min(refill, 255)), SENDER_POLICY_BURST),
                lastRefillAt := SatAdd(p.lastRefillAt, refill * SENDER_POLICY_REFILL_SECS));
      }
      ps := ps[k := p];
      k := k + 1;
    }
    assert ps == MaintainPolicies(s.policies, now);
    t := s.(policies := ps);
  }

  /** `append_tombstone` followed by the removal of the record. */
  method RetireRecord(s: Snapshot, id: string, reason: string, now: u64) returns (res: Result<Snapshot, Error>)
    ensures res == Retire(s, id, reason, now)
  {
    var k := Position(s.records, HasRecordId(id));
    if k.None? { return Err(InvalidRecord); }
    var r := s.records[k.value];
    var t := s;
    if !exists u | u in s.tombstones :: u.id == r.id {
      if |s.tombstones| >= MAX_TOMBSTONES { return Err(TombstoneCapacity); }
      var u := TombstoneOf(r, reason, now);
      if TombstoneBytes(s.tombstones) + TombstoneSize(u) > MAX_TOMBSTONE_BYTES { return Err(TombstoneCapacity); }
      t := t.(tombstones := Sort(t.tombstones + [u], TombstoneLe));
    }
    t := t.(records := Filter(t.records, OtherRecordId(id)));
    res := Ok(t);
  }

  class Repository {
    const scope: Scope
    var snapshot: Snapshot
    /** The contents of the sealed snapshot file. */
    var file: Snapshot

    function Current(): Store
      reads this
    {
      Store(snapshot, file)
    }

    /** `open` on a file the validator accepts. */
    constructor (scope: Scope, contents: Snapshot)
      requires Validate(contents, scope).None?
      ensures this.scope == scope && Current() == Store(contents, contents)
    {
      this.scope := scope;
      snapshot := contents;
      file := contents;
    }

    /** `persist`: nothing reaches the file unless the whole snapshot is valid. */
    method Persist(fault: Fault) returns (error: Option<Error>)
      modifies this`file
      ensures forall next, st: Store, answer | st.disk == old(file) && next == snapshot ::
                Commit(st, next, scope, fault, answer)
                == (Current(), if error.Some? then Failed(error.value) else answer)
    {
      var invalid := ValidateSnapshot(snapshot, scope);
      if invalid.Some? { return invalid; }
      match fault
      case IoFault => return Some(Io);
      case CryptoFault => return Some(Crypto);
      case NoFault =>
        file := snapshot;
        return None;
    }

    method Quarantine(id: string, observedBy: seq<string>, envelope: Envelope, reason: string, size: Option<nat>,
                      now: u64, fault: Fault) returns (answer: Answer)
      modifies this
      ensures (Current(), answer)
           == Step(old(Current()), scope, Call(QuarantineOp(id, observedBy, envelope, reason, size), now, fault))
    {
      hide Commit, AppendRecord;
      var next := AppendQuarantineRecord(snapshot, scope, id, observedBy, envelope, reason, size, now);
      if next.Err? { return Failed(next.error); }
      snapshot := next.value;
      var error := Persist(fault);
      answer := if error.Some? then Failed(error.value) else Done;
      assert Commit(old(Current()), snapshot, scope, fault, Done) == (Current(), answer);
    }

    method ApplySenderPolicy(id: string, observedBy: seq<string>, envelope: Envelope, size: Option<nat>,
                             now: u64, fault: Fault) returns (answer: Answer)
      modifies this
      ensures (Current(), answer)
           == Step(old(Current()), scope, Call(PolicyOp(id, observedBy, envelope, size), now, fault))
    {
      hide Commit, ApplyPolicy;
      var next := DecideSenderPolicy(snapshot, scope, id, observedBy, envelope, size, now);
      if next.Err? { return Failed(next.error); }
      snapshot := next.value.0;
      var error := Persist(fault);
      answer := if error.Some? then Failed(error.value) else Decided(next.value.1);
      assert Commit(old(Current()), snapshot, scope, fault, Decided(next.value.1)) == (Current(), answer);
    }

    method HasTerminalEvidence(id: string) returns (found: bool)
      ensures found <==> exists t | t in snapshot.tombstones :: t.id == id
    {
      found := false;
      var k := 0;
      while k < |snapshot.tombstones|
        invariant 0 <= k <= |snapshot.tombstones|
        invariant found <==> exists i | 0 <= i < k :: snapshot.tombstones[i].id == id
      {
        if snapshot.tombstones[k].id == id { found := true; }
        k := k + 1;
      }
    }

    method ExpireDue(now: u64, fault: Fault) returns (answer: Answer)
      modifies this
      ensures (Current(), answer) == Step(old(Current()), scope, Call(ExpireOp, now, fault))
    {
      hide Commit, Retire;
      var before := |snapshot.tombstones|;
      FilterAll(snapshot.tombstones, FreshTombstone(now));
      snapshot := snapshot.(tombstones := Filter(snapshot.tombstones, FreshTombstone(now)));
      var due := Filter(snapshot.records, Due(now));
      if due == [] && |snapshot.tombstones| == before { return ExpiredCount(0); }
      var next := snapshot;
      var k := 0;
      while k < |due|
        invariant 0 <= k <= |due|
        invariant snapshot == PruneTombstones(old(snapshot), now) && file == old(file)
        invariant ExpireFirst(snapshot, due, k, now) == Ok(next)
      {
        var retired := RetireRecord(next, due[k].id, EXPIRED, now);
        if retired.Err? {
          var error := if retired.error == InvalidRecord then Corrupt else retired.error;
          ExpireErrStays(snapshot, due, k + 1, |due|, now);
          return Failed(error);
        }
        next := retired.value;
        k := k + 1;
      }
      snapshot := next;
      var error := Persist(fault);
      answer := if error.Some? then Failed(error.value) else ExpiredCount(|due|);
      assert Commit(old(Current()), snapshot, scope, fault, ExpiredCount(|due|)) == (Current(), answer);
    }

    method MarkConsumed(id: string, now: u64, fault: Fault) returns (answer: Answer)
      modifies this
      ensures (Current(), answer) == Step(old(Current()), scope, Call(ConsumeOp(id), now, fault))
    {
      hide Commit, Retire;
      var next := RetireRecord(snapshot, id, CONSUMED, now);
      if next.Err? { return Failed(next.error); }
      snapshot := next.value;
      var error := Persist(fault);
      answer := if error.Some? then Failed(error.value) else Done;
      assert Commit(old(Current()), snapshot, scope, fault, Done) == (Current(), answer);
    }

    method MarkRetry(id: string, now: u64, fault: Fault) returns (answer: Answer)
      modifies this
      ensures (Current(), answer) == Step(old(Current()), scope, Call(RetryOp(id), now, fault))
    {
      hide Commit;
      var k := Position(snapshot.records, HasRecordId(id));
      if k.None? { return Failed(InvalidRecord); }
      var r := snapshot.records[k.value];
      r := r.(attempts := Min(r.attempts + 1, U16_MAX), lastAttemptAt := Some(now));
      r := r.(eligibleAfter := Min(SatAdd(now, RetryDelay(r.attempts)), r.expiresAt));
      snapshot := snapshot.(records := snapshot.records[k.value := r]);
      var error := Persist(fault);
      answer := if error.Some? then Failed(error.value) else Done;
      assert Commit(old(Current()), snapshot, scope, fault, Done) == (Current(), answer);
    }

    /** A crash and `open` on what the file holds. */
    method Reopen() returns (answer: Answer)
      modifies this`snapshot
      ensures forall now, fault :: (Current(), answer) == Step(old(Current()), scope, Call(ReopenOp, now, fault))
    {
      var invalid := ValidateSnapshot(file, scope);
      if invalid.Some? { return Failed(invalid.value); }
      snapshot := file;
      answer := Done;
    }

    /** `next_eligible`: one scan for the earliest eligible record. */
    method NextEligibleRecord(now: u64) returns (res: Result<Option<Recovered>, Error>)
      ensures res == NextEligible(snapshot, scope, now)
    {
      var best: Option<nat> := None;
      var k := 0;
      while k < |snapshot.records|
        invariant 0 <= k <= |snapshot.records|
        invariant best == EarliestEligible(snapshot.records, k, now)
      {
        var r := snapshot.records[k];
        if Eligible(r, now) && (best.None? || Earlier(r, snapshot.records[best.value])) { best := Some(k); }
        k := k + 1;
      }
      if best.None? { return Ok(None); }
      var envelope := OpenRecord(snapshot.records[best.value], scope);
      if envelope.Err? { return Err(envelope.error); }
      res := Ok(Some(Recovered(snapshot.records[best.value].id, envelope.value)));
    }
  }

  lemma {:induction false} ExpireErrStays(s: Snapshot, due: seq<Record>, k: nat, n: nat, now: u64)
    requires k <= n <= |due| && ExpireFirst(s, due, k, now).Err?
    ensures ExpireFirst(s, due, n, now) == ExpireFirst(s, due, k, now)
  {
    hide Retire;
    if k < n { ExpireErrStays(s, due, k, n - 1, now); }
  }

  /** `apply_sender_policy` up to the point where the snapshot is installed. */
  method DecideSenderPolicy(s: Snapshot, scope: Scope, id: string, observedBy: seq<string>, envelope: Envelope,
                            size: Option<nat>, now: u64) returns (res: Result<(Snapshot, Decision), Error>)
    ensures res == ApplyPolicy(s, scope, id, observedBy, envelope, size, now)
  {
    hide AppendRecord, DecideCharge;
    if !ValidEventId(id) { return Err(InvalidRecord); }
    var sender := HexKey(envelope.from);
    var next := MaintainSenderPolicies(s, now);
    if exists r | r in next.records :: r.id == id {
      var appended := AppendQuarantineRecord(next, scope, id, observedBy, envelope, RATE_LIMITED, size, now);
      if appended.Err? { return Err(appended.error); }
      return Ok((appended.value, Quarantined));
    }
    var found := Position(next.policies, HasSender(sender));
    var k;
    if found.Some? {
      k := found.value;
    } else {
      var room := MakePolicyCapacity(next);
      if room.Err? { return Err(room.error); }
      next := room.value.(policies := room.value.policies + [NewPolicy(scope, sender, now)]);
      k := |next.policies| - 1;
    }
    res := DecideOnPolicy(next, k, scope, id, observedBy, envelope, size, now);
  }

  /** The decision itself, once the sender has a policy at index `k`. */
  method DecideOnPolicy(next: Snapshot, k: nat, scope: Scope, id: string, observedBy: seq<string>,
                        envelope: Envelope, size: Option<nat>, now: u64)
    returns (res: Result<(Snapshot, Decision), Error>)
    requires k < |next.policies|
    ensures res == DecideCharge(next, k, scope, id, observedBy, envelope, size, now)
  {
    hide AppendRecord, ChargeCapacityError;
    var p := next.policies[k];
    if exists c | c in p.charges :: c.id == id {
      return Ok((next.(policies := next.policies[k := p.(lastActivityAt := now)]), AlreadyCharged));
    }
    if p.permits == 0 {
      var appended := AppendQuarantineRecord(next, scope, id, observedBy, envelope, RATE_LIMITED, size, now);
      if appended.Err? { return Err(appended.error); }
      return Ok((appended.value.(policies := next.policies[k := p.(lastActivityAt := now)]), Quarantined));
    }
    var full := ChargeCapacityError(next.policies, k);
    if full.Some? { return Err(full.value); }
    p := p.(permits := p.permits - 1, lastActivityAt := now);
    p := p.(charges := Sort(p.charges + [Charge(id, now)], ChargeLe));
    res := Ok((next.(policies := next.policies[k := p]), Permit));
  }
}
