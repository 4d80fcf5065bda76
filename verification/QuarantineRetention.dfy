/** What becomes of a stored delivery: the retry backoff and its bound, how long
    a record and then its tombstone stay, and when recovery can fail. */
module QuarantineRetention {
  import opened Common
  import opened Facts
  import opened QuarantineModel
  import opened QuarantineValidation
  import opened QuarantineInvariant
  import opened QuarantineMachine

  // ----- a property of every record, over every run -----

  /** A record property that new and re-observed records have is kept by every
      operation except possibly a retry. */
  ghost predicate All(s: Snapshot, p: Record -> bool) {
    UniqueBy(s.records, RecordId) && forall r | r in s.records :: p(r)
  }

  ghost predicate AllStore(st: Store, p: Record -> bool) { All(st.mem, p) && All(st.disk, p) }

  lemma AppendAll(s: Snapshot, scope: Scope, id: string, observedBy: seq<string>, envelope: Envelope,
                  reason: string, size: Option<nat>, now: u64, p: Record -> bool)
    requires All(s, p) && (forall r: Record, obs: seq<string> :: p(r) ==> p(r.(observedBy := obs)))
    requires size.Some? ==> p(NewRecord(scope, id, observedBy, envelope, reason, size.value, now))
    ensures var res := AppendRecord(s, scope, id, observedBy, envelope, reason, size, now);
            res.Ok? ==> All(res.value, p)
  {
    var res := AppendRecord(s, scope, id, observedBy, envelope, reason, size, now);
    if res.Ok? {
      match Position(s.records, HasRecordId(id))
      case Some(k) =>
        var r := s.records[k];
        assert r in s.records;
        UpdateAll(s.records, k, r.(observedBy := MergeObservations(r.observedBy, observedBy)), p);
      case None =>
        var r := NewRecord(scope, id, observedBy, envelope, reason, size.value, now);
        forall q | q in s.records ensures RecordId(q) != RecordId(r) {
          var i :| 0 <= i < |s.records| && s.records[i] == q;
          assert !HasRecordId(id)(s.records[i]);
        }
        PushSortMembers(s.records, r, RecordLe);
        PushSortUnique(s.records, r, RecordLe, RecordId);
    }
  }

  lemma UpdateAll(rs: seq<Record>, k: nat, r: Record, p: Record -> bool)
    requires UniqueBy(rs, RecordId) && (forall q | q in rs :: p(q))
    requires k < |rs| && r.id == rs[k].id && p(r)
    ensures UniqueBy(rs[k := r], RecordId) && forall q | q in rs[k := r] :: p(q)
  {
    var qs := rs[k := r];
    forall i, j | 0 <= i < j < |qs| ensures RecordId(qs[i]) != RecordId(qs[j]) {
      assert RecordId(rs[i]) != RecordId(rs[j]);
    }
    forall q | q in qs ensures p(q) {
      if q != r { assert q in rs; }
    }
  }

  lemma RetireAll(s: Snapshot, id: string, reason: string, now: u64, p: Record -> bool)
    requires All(s, p)
    ensures var res := Retire(s, id, reason, now); res.Ok? ==> All(res.value, p)
  {
    FilterMembers(s.records, OtherRecordId(id));
    UniqueFilter(s.records, OtherRecordId(id), RecordId);
  }

  lemma {:induction false} ExpireAll(s: Snapshot, due: seq<Record>, n: nat, now: u64, p: Record -> bool)
    requires All(s, p) && n <= |due|
    ensures var res := ExpireFirst(s, due, n, now); res.Ok? ==> All(res.value, p)
  {
    hide All, Retire;
    if n > 0 {
      ExpireAll(s, due, n - 1, now, p);
      var prev := ExpireFirst(s, due, n - 1, now);
      if prev.Ok? { RetireAll(prev.value, due[n-1].id, EXPIRED, now, p); }
    }
  }

  lemma EnsureKeepsRecords(s: Snapshot, scope: Scope, sender: string, now: u64)
    ensures var res := EnsurePolicy(s, scope, sender, now);
            res.Ok? ==> res.value.0 == s.(policies := res.value.0.policies)
  {
  }

  lemma SameRecordsAll(s: Snapshot, p: Record -> bool)
    ensures forall t: Snapshot :: t.records == s.records ==> All(t, p) == All(s, p)
  {
  }

  lemma PolicyAll(s: Snapshot, scope: Scope, id: string, observedBy: seq<string>, envelope: Envelope,
                  size: Option<nat>, now: u64, p: Record -> bool)
    requires All(s, p) && (forall r: Record, obs: seq<string> :: p(r) ==> p(r.(observedBy := obs)))
    requires size.Some? ==> p(NewRecord(scope, id, observedBy, envelope, RATE_LIMITED, size.value, now))
    ensures var res := ApplyPolicy(s, scope, id, observedBy, envelope, size, now);
            res.Ok? ==> All(res.value.0, p)
  {
    hide AppendRecord, All, EnsurePolicy;
    EnsureKeepsRecords(s.(policies := MaintainPolicies(s.policies, now)), scope, HexKey(envelope.from), now);
    SameRecordsAll(s, p);
    var m := s.(policies := MaintainPolicies(s.policies, now));
    AppendAll(m, scope, id, observedBy, envelope, RATE_LIMITED, size, now, p);
    var e := EnsurePolicy(m, scope, HexKey(envelope.from), now);
    if e.Ok? {
      AppendAll(e.value.0, scope, id, observedBy, envelope, RATE_LIMITED, size, now, p);
      var res := AppendRecord(e.value.0, scope, id, observedBy, envelope, RATE_LIMITED, size, now);
      if res.Ok? { SameRecordsAll(res.value, p); }
    }
  }

  /** What a call must guarantee for `p` to hold of every record afterwards. */
  ghost predicate CallKeeps(st: Store, scope: Scope, call: Call, p: Record -> bool) {
    match call.op
    case QuarantineOp(id, observedBy, envelope, reason, size) =>
      size.Some? ==> p(NewRecord(scope, id, observedBy, envelope, reason, size.value, call.now))
    case PolicyOp(id, observedBy, envelope, size) =>
      size.Some? ==> p(NewRecord(scope, id, observedBy, envelope, RATE_LIMITED, size.value, call.now))
    case RetryOp(id) => forall r | r in st.mem.records && r.id == id && p(r) :: p(RetryRecord(r, call.now))
    case _ => true
  }

  lemma CommitAll(st: Store, next: Snapshot, scope: Scope, fault: Fault, answer: Answer, p: Record -> bool)
    requires AllStore(st, p) && All(next, p)
    ensures AllStore(Commit(st, next, scope, fault, answer).0, p)
  {
    hide All, Validate;
  }

  lemma StepExpireAll(st: Store, scope: Scope, now: u64, fault: Fault, p: Record -> bool)
    requires AllStore(st, p)
    ensures AllStore(StepExpire(st, scope, now, fault).0, p)
  {
    hide Commit, ExpireFirst;
    var pruned := PruneTombstones(st.mem, now);
    var due := DueRecords(pruned, now);
    ExpireAll(pruned, due, |due|, now, p);
    var res := ExpireFirst(pruned, due, |due|, now);
    if res.Ok? { CommitAll(st, res.value, scope, fault, ExpiredCount(|due|), p); }
  }

  lemma StepAll(st: Store, scope: Scope, call: Call, p: Record -> bool)
    requires AllStore(st, p) && CallKeeps(st, scope, call, p)
    requires forall r: Record, obs: seq<string> :: p(r) ==> p(r.(observedBy := obs))
    ensures AllStore(Step(st, scope, call).0, p)
  {
    hide All, AppendRecord, ApplyPolicy, Retire, Retry, StepExpire, Commit, Validate;
    var now, fault := call.now, call.fault;
    match call.op
    case QuarantineOp(id, observedBy, envelope, reason, size) =>
      AppendAll(st.mem, scope, id, observedBy, envelope, reason, size, now, p);
      var res := AppendRecord(st.mem, scope, id, observedBy, envelope, reason, size, now);
      if res.Ok? { CommitAll(st, res.value, scope, fault, Done, p); }
    case PolicyOp(id, observedBy, envelope, size) =>
      PolicyAll(st.mem, scope, id, observedBy, envelope, size, now, p);
      var res := ApplyPolicy(st.mem, scope, id, observedBy, envelope, size, now);
      if res.Ok? { CommitAll(st, res.value.0, scope, fault, Decided(res.value.1), p); }
    case ExpireOp => StepExpireAll(st, scope, now, fault, p);
    case ConsumeOp(id) =>
      RetireAll(st.mem, id, CONSUMED, now, p);
      var res := Retire(st.mem, id, CONSUMED, now);
      if res.Ok? { CommitAll(st, res.value, scope, fault, Done, p); }
    case RetryOp(id) =>
      RetryAll(st.mem, id, now, p);
      var res := Retry(st.mem, id, now);
      if res.Ok? { CommitAll(st, res.value, scope, fault, Done, p); }
    case ReopenOp =>
  }

  lemma RetryAll(s: Snapshot, id: string, now: u64, p: Record -> bool)
    requires All(s, p) && forall r | r in s.records && r.id == id && p(r) :: p(RetryRecord(r, now))
    ensures var res := Retry(s, id, now); res.Ok? ==> All(res.value, p)
  {
    var k := Position(s.records, HasRecordId(id));
    if k.Some? {
      assert s.records[k.value] in s.records;
      UpdateAll(s.records, k.value, RetryRecord(s.records[k.value], now), p);
    }
  }

  // ----- backoff -----

  /** The least time from first observation to the next attempt, after `attempts`
      attempts that each came as early as allowed. */
  function EarliestNext(attempts: nat): nat {
    if attempts == 0 then INITIAL_RETRY_DELAY_SECS
    else EarliestNext(attempts - 1) + RetryDelay(attempts)
  }

  const MAX_ATTEMPTS: nat := 292

  predicate Paced(r: Record) {
    && r.expiresAt == SatAdd(r.firstObservedAt, PAYLOAD_RETENTION_SECS)
    && r.eligibleAfter <= r.expiresAt
    && r.attempts <= MAX_ATTEMPTS
    && Min(r.firstObservedAt + EarliestNext(r.attempts), r.expiresAt) <= r.eligibleAfter
  }

  /** 30, 60, 120, 240 and 480 seconds, then fifteen minutes each time. */
  lemma DelayTable(n: nat)
    ensures RetryDelay(n) == (if n == 0 then 15 else if n == 1 then 30 else if n == 2 then 60
                              else if n == 3 then 120 else if n == 4 then 240 else if n == 5 then 480 else 900)
  {
    assert Pow2(0) == 1;
    assert Pow2(1) == 2;
    assert Pow2(2) == 4;
    assert Pow2(3) == 8;
    assert Pow2(4) == 16;
    assert Pow2(5) == 32;
    assert Pow2(6) == 64;
  }

  lemma {:induction false} EarliestNextGrows(n: nat)
    ensures n >= 5 ==> EarliestNext(n) == 945 + 900 * (n - 5)
    ensures n < 5 ==> EarliestNext(n) < 945
  {
    DelayTable(n);
    if n > 0 { EarliestNextGrows(n - 1); }
    if n == 5 {
      DelayTable(4); DelayTable(3); DelayTable(2); DelayTable(1);
      assert EarliestNext(4) == 465 by {
        assert EarliestNext(1) == 45;
        assert EarliestNext(2) == 105;
        assert EarliestNext(3) == 225;
      }
    } else if n < 5 {
      DelayTable(3); DelayTable(2); DelayTable(1);
      assert EarliestNext(1) == 45;
      assert EarliestNext(2) == 105;
    }
  }

  /** An attempt on an eligible record keeps the pace: a 293rd attempt would come
      after the record has expired. */
  lemma RetryPaced(r: Record, now: u64)
    requires Paced(r) && Eligible(r, now)
    ensures Paced(RetryRecord(r, now))
  {
    EarliestNextGrows(r.attempts);
    EarliestNextGrows(MAX_ATTEMPTS);
    assert r.firstObservedAt + EarliestNext(r.attempts) <= now;
    assert r.attempts < MAX_ATTEMPTS;
    assert EarliestNext(r.attempts + 1) == EarliestNext(r.attempts) + RetryDelay(r.attempts + 1);
  }

  /** Retries come from recovery: the record was chosen at the same clock value. */
  ghost predicate Driven(st: Store, scope: Scope, call: Call) {
    call.op.RetryOp? ==>
      var next := NextEligible(st.mem, scope, call.now);
      next.Ok? && next.value.Some? && next.value.value.id == call.op.id
  }

  lemma ChosenIsEligible(s: Snapshot, scope: Scope, now: u64, id: string, r: Record)
    requires UniqueBy(s.records, RecordId) && r in s.records && r.id == id
    requires var next := NextEligible(s, scope, now); next.Ok? && next.value.Some? && next.value.value.id == id
    ensures Eligible(r, now)
  {
    var k := EarliestEligible(s.records, |s.records|, now).value;
    UniqueMember(s.records, s.records[k], r, RecordId);
  }

  lemma StepPaced(st: Store, scope: Scope, call: Call)
    requires AllStore(st, Paced) && Driven(st, scope, call)
    ensures AllStore(Step(st, scope, call).0, Paced)
  {
    hide Step, NextEligible;
    assert CallKeeps(st, scope, call, Paced) by {
      match call.op
      case RetryOp(id) =>
        forall r | r in st.mem.records && r.id == id && Paced(r) ensures Paced(RetryRecord(r, call.now)) {
          ChosenIsEligible(st.mem, scope, call.now, id, r);
          RetryPaced(r, call.now);
        }
      case _ =>
        assert EarliestNext(0) == INITIAL_RETRY_DELAY_SECS;
    }
    StepAll(st, scope, call, Paced);
  }

  /** For every schedule of calls, even with a clock that jumps, a record is never
      eligible after it expires and is attempted at most 292 times. */
  lemma {:induction false} BackoffBound(st: Store, scope: Scope, calls: seq<Call>, n: nat)
    requires AllStore(st, Paced) && n <= |calls|
    requires forall i | 0 <= i < |calls| :: Driven(Run(st, scope, calls, i), scope, calls[i])
    ensures AllStore(Run(st, scope, calls, n), Paced)
    ensures forall r | r in Run(st, scope, calls, n).mem.records ::
              r.eligibleAfter <= r.expiresAt && r.attempts <= MAX_ATTEMPTS
  {
    hide Step, Driven;
    if n > 0 {
      BackoffBound(st, scope, calls, n - 1);
      StepPaced(Run(st, scope, calls, n - 1), scope, calls[n-1]);
    }
  }

  // ----- recovery -----

  /** The sealed envelope is the one the record describes. */
  predicate Describes(r: Record, scope: Scope) {
    && r.ciphertext.scope == scope && r.ciphertext.id == r.id
    && HexKey(r.ciphertext.envelope.from) == r.sender && r.ciphertext.envelope.kind == r.kind
  }

  function Openable(scope: Scope): Record -> bool { (r: Record) => Describes(r, scope) }

  lemma {:induction false} RunOpenable(st: Store, scope: Scope, calls: seq<Call>, n: nat)
    requires AllStore(st, Openable(scope)) && n <= |calls|
    ensures AllStore(Run(st, scope, calls, n), Openable(scope))
  {
    hide Step;
    if n > 0 {
      RunOpenable(st, scope, calls, n - 1);
      var prev := Run(st, scope, calls, n - 1);
      assert CallKeeps(prev, scope, calls[n-1], Openable(scope));
      StepAll(prev, scope, calls[n-1], Openable(scope));
    }
  }

  predicate Addressed(scope: Scope, to: Key) {
    ValidHex32(scope.endpoint) && to == HexValue(scope.endpoint)
  }

  /** Recovery fails exactly when the earliest eligible envelope is not addressed
      to the scope's own endpoint, which nothing checks when it is stored. */
  lemma RecoveryFailsExactly(st: Store, scope: Scope, calls: seq<Call>, n: nat, now: u64)
    requires ValidScope(scope) && AllStore(st, Openable(scope)) && n <= |calls|
    ensures var s := Run(st, scope, calls, n).mem;
            var k := EarliestEligible(s.records, |s.records|, now);
            var next := NextEligible(s, scope, now);
            && (next.Err? <==> k.Some? && !Addressed(scope, s.records[k.value].ciphertext.envelope.to))
            && (next.Err? ==> next.error == Corrupt)
            && (next.Ok? && next.value.Some? ==>
                  next.value.value == Recovered(s.records[k.value].id, s.records[k.value].ciphertext.envelope))
  {
    RunOpenable(st, scope, calls, n);
    var s := Run(st, scope, calls, n).mem;
    var k := EarliestEligible(s.records, |s.records|, now);
    if k.Some? {
      assert s.records[k.value] in s.records;
      assert Openable(scope)(s.records[k.value]);
    }
  }

  /** One stored envelope with another address is enough: fifteen seconds later
      recovery answers `Corrupt`. */
  lemma MisaddressedBlocksRecovery(scope: Scope, id: string, envelope: Envelope, now: u64)
    requires ValidScope(scope) && ValidEventId(id) && !Addressed(scope, envelope.to)
    requires now + PAYLOAD_RETENTION_SECS <= U64_MAX
    ensures var st := Store(EmptySnapshot(scope), EmptySnapshot(scope));
            var (st', a) := Step(st, scope, Call(QuarantineOp(id, [], envelope, "route_retry", Some(1)), now, NoFault));
            a == Done && NextEligible(st'.mem, scope, now + 15) == Err(Corrupt)
  {
    var empty := EmptySnapshot(scope);
    var r := NewRecord(scope, id, [], envelope, "route_retry", 1, now);
    var next := AppendRecord(empty, scope, id, [], envelope, "route_retry", Some(1), now).value;
    assert [] + [r] == [r] && Sort([], RecordLe) == [];
    assert next.records == [r] by { assert [r][..0] == []; }
    AppendRecordSound(empty, scope, id, [], envelope, "route_retry", Some(1), now);
    ValidateIsExact(next, scope);
    assert Eligible(r, now + 15);
    assert EarliestEligible([r], 1, now + 15) == Some(0);
  }

  function AddressedRecord(scope: Scope): Record -> bool {
    (r: Record) => Describes(r, scope) && Addressed(scope, r.ciphertext.envelope.to)
  }

  /** If every envelope offered to the store is addressed to the endpoint, then
      recovery never fails, in any run. */
  lemma {:induction false} RecoveryNeverFails(st: Store, scope: Scope, calls: seq<Call>, n: nat, now: u64)
    requires ValidScope(scope) && AllStore(st, AddressedRecord(scope)) && n <= |calls|
    requires forall i | 0 <= i < |calls| && (calls[i].op.QuarantineOp? || calls[i].op.PolicyOp?) ::
               Addressed(scope, calls[i].op.envelope.to)
    ensures AllStore(Run(st, scope, calls, n), AddressedRecord(scope))
    ensures NextEligible(Run(st, scope, calls, n).mem, scope, now).Ok?
  {
    hide Step;
    var end := Run(st, scope, calls, n);
    if n > 0 {
      RecoveryNeverFails(st, scope, calls, n - 1, now);
      var prev := Run(st, scope, calls, n - 1);
      assert CallKeeps(prev, scope, calls[n-1], AddressedRecord(scope));
      StepAll(prev, scope, calls[n-1], AddressedRecord(scope));
    }
    var k := EarliestEligible(end.mem.records, |end.mem.records|, now);
    if k.Some? {
      assert end.mem.records[k.value] in end.mem.records;
      assert AddressedRecord(scope)(end.mem.records[k.value]);
    }
  }

  /** The record chosen for recovery is eligible and no eligible record comes
      before it in the recovery order. */
  lemma {:induction false} EarliestIsFirst(rs: seq<Record>, k: nat, now: u64)
    requires k <= |rs|
    ensures var best := EarliestEligible(rs, k, now);
            best.Some? ==> forall i | 0 <= i < k && Eligible(rs[i], now) :: !Earlier(rs[i], rs[best.value])
  {
    if k > 0 {
      EarliestIsFirst(rs, k - 1, now);
      var prev := EarliestEligible(rs, k - 1, now);
      if prev.Some? && Eligible(rs[k-1], now) && Earlier(rs[k-1], rs[prev.value]) {
        forall i | 0 <= i < k && Eligible(rs[i], now) ensures !Earlier(rs[i], rs[k-1]) {
          if i < k - 1 { EarlierTransitive(rs[i], rs[k-1], rs[prev.value]); } else { EarlierIrreflexive(rs[i]); }
        }
      } else if prev.None? && Eligible(rs[k-1], now) {
        EarlierIrreflexive(rs[k-1]);
      }
    }
  }

  lemma EarlierIrreflexive(a: Record)
    ensures !Earlier(a, a)
  {
    StringLeTotal(a.id, a.id);
  }

  lemma EarlierTransitive(a: Record, b: Record, c: Record)
    requires Earlier(b, c)
    ensures Earlier(a, b) ==> Earlier(a, c)
  {
    StringLeTotal(a.id, b.id);
    StringLeTotal(b.id, c.id);
    if Earlier(a, b) && StringLe(c.id, a.id) && StringLe(a.id, b.id) {
      StringLeTransitive(c.id, a.id, b.id);
    }
  }

  // ----- retention -----

  /** `id` is stored and expires at `expiry`. */
  ghost predicate Stored(s: Snapshot, id: string, expiry: u64) {
    exists r | r in s.records :: r.id == id && r.expiresAt == expiry
  }

  lemma AppendKeepsStored(s: Snapshot, scope: Scope, id: string, observedBy: seq<string>, envelope: Envelope,
                          reason: string, size: Option<nat>, now: u64, kept: string, expiry: u64)
    requires Stored(s, kept, expiry)
    ensures var res := AppendRecord(s, scope, id, observedBy, envelope, reason, size, now);
            res.Ok? ==> Stored(res.value, kept, expiry)
  {
    var res := AppendRecord(s, scope, id, observedBy, envelope, reason, size, now);
    if res.Ok? {
      var r :| r in s.records && r.id == kept && r.expiresAt == expiry;
      match Position(s.records, HasRecordId(id))
      case Some(k) =>
        var i :| 0 <= i < |s.records| && s.records[i] == r;
        assert res.value.records[i] in res.value.records;
      case None =>
        PushSortMembers(s.records, NewRecord(scope, id, observedBy, envelope, reason, size.value, now), RecordLe);
        assert r in res.value.records;
    }
  }

  lemma PolicyKeepsStored(s: Snapshot, scope: Scope, id: string, observedBy: seq<string>, envelope: Envelope,
                          size: Option<nat>, now: u64, kept: string, expiry: u64)
    requires Stored(s, kept, expiry)
    ensures var res := ApplyPolicy(s, scope, id, observedBy, envelope, size, now);
            res.Ok? ==> Stored(res.value.0, kept, expiry)
  {
    hide AppendRecord, EnsurePolicy;
    var m := s.(policies := MaintainPolicies(s.policies, now));
    AppendKeepsStored(m, scope, id, observedBy, envelope, RATE_LIMITED, size, now, kept, expiry);
    EnsureKeepsRecords(m, scope, HexKey(envelope.from), now);
    var e := EnsurePolicy(m, scope, HexKey(envelope.from), now);
    if e.Ok? {
      AppendKeepsStored(e.value.0, scope, id, observedBy, envelope, RATE_LIMITED, size, now, kept, expiry);
    }
  }

  lemma RetryKeepsStored(s: Snapshot, id: string, now: u64, kept: string, expiry: u64)
    requires Stored(s, kept, expiry)
    ensures var res := Retry(s, id, now); res.Ok? ==> Stored(res.value, kept, expiry)
  {
    var res := Retry(s, id, now);
    if res.Ok? {
      var r :| r in s.records && r.id == kept && r.expiresAt == expiry;
      var i :| 0 <= i < |s.records| && s.records[i] == r;
      assert res.value.records[i] in res.value.records;
    }
  }

  /** Consumption moves its own id to the tombstones and keeps every other. */
  lemma RetireFate(s: Snapshot, scope: Scope, id: string, now: u64, kept: string, expiry: u64)
    requires Consistent(s, scope) && Stored(s, kept, expiry)
    ensures var res := Retire(s, id, CONSUMED, now);
            res.Ok? ==> if id == kept then Buried(res.value, kept, now) else Stored(res.value, kept, expiry)
  {
    hide Retire, Consistent;
    if Retire(s, id, CONSUMED, now).Ok? {
      RetireSound(s, scope, id, CONSUMED, now);
      var r :| r in s.records && r.id == kept && r.expiresAt == expiry;
    }
  }

  lemma ExpireFate(s: Snapshot, scope: Scope, owner: Ownership, now: u64, kept: string, expiry: u64)
    requires Sound(s, scope, owner) && Stored(s, kept, expiry)
    ensures var due := DueRecords(s, now);
            var res := ExpireFirst(s, due, |due|, now);
            res.Ok? ==> if expiry <= now then Buried(res.value, kept, now) else Stored(res.value, kept, expiry)
  {
    hide ExpireFirst;
    var due := DueRecords(s, now);
    DueRecordsOk(s, now);
    ExpireAllSound(s, scope, owner, due, now);
    var res := ExpireFirst(s, due, |due|, now);
    var r :| r in s.records && r.id == kept && r.expiresAt == expiry;
    if res.Ok? {
      if expiry <= now {
        assert r in due;
        var i :| 0 <= i < |due| && due[i] == r;
      } else {
        forall i | 0 <= i < |due| ensures due[i].id != kept {
          if due[i].id == kept {
            assert due[i] in due;
            UniqueMember(s.records, due[i], r, RecordId);
          }
        }
        assert !Among(due, |due|, r.id);
      }
    }
  }

  /** Anywhere a call leaves the memory or the file, a stored id is still stored,
      or it has become a tombstone of this very moment because the call consumed
      it or found it expired. */
  ghost predicate Fate(s: Snapshot, call: Call, kept: string, expiry: u64) {
    || Stored(s, kept, expiry)
    || (&& Buried(s, kept, call.now)
        && (call.op == ConsumeOp(kept) || (call.op.ExpireOp? && expiry <= call.now)))
  }

  lemma CommitFate(st: Store, next: Snapshot, scope: Scope, call: Call, answer: Answer, kept: string, expiry: u64)
    requires Stored(st.mem, kept, expiry) && Stored(st.disk, kept, expiry) && Fate(next, call, kept, expiry)
    ensures var st' := Commit(st, next, scope, call.fault, answer).0;
            Fate(st'.mem, call, kept, expiry) && Fate(st'.disk, call, kept, expiry)
  {
    hide Validate, Stored, Buried;
  }

  lemma StoredFate(st: Store, scope: Scope, owner: Ownership, call: Call, kept: string, expiry: u64)
    requires SoundStore(st, scope, owner) && Stored(st.mem, kept, expiry) && Stored(st.disk, kept, expiry)
    ensures var st' := Step(st, scope, call).0;
            Fate(st'.mem, call, kept, expiry) && Fate(st'.disk, call, kept, expiry)
  {
    hide Stored, Buried, AppendRecord, ApplyPolicy, Retire, Retry, Commit, Validate, Sound, ExpireFirst;
    var now := call.now;
    match call.op
    case QuarantineOp(id, observedBy, envelope, reason, size) =>
      AppendKeepsStored(st.mem, scope, id, observedBy, envelope, reason, size, now, kept, expiry);
      var res := AppendRecord(st.mem, scope, id, observedBy, envelope, reason, size, now);
      if res.Ok? { CommitFate(st, res.value, scope, call, Done, kept, expiry); }
    case PolicyOp(id, observedBy, envelope, size) =>
      PolicyKeepsStored(st.mem, scope, id, observedBy, envelope, size, now, kept, expiry);
      var res := ApplyPolicy(st.mem, scope, id, observedBy, envelope, size, now);
      if res.Ok? { CommitFate(st, res.value.0, scope, call, Decided(res.value.1), kept, expiry); }
    case ExpireOp =>
      var pruned := PruneTombstones(st.mem, now);
      PruneSound(st.mem, scope, owner, now);
      PruneKeepsStored(st.mem, now, kept, expiry);
      ExpireFate(pruned, scope, owner, now, kept, expiry);
      var due := DueRecords(pruned, now);
      var res := ExpireFirst(pruned, due, |due|, now);
      if res.Ok? { CommitFate(st, res.value, scope, call, ExpiredCount(|due|), kept, expiry); }
    case ConsumeOp(id) =>
      SoundIsConsistent(st.mem, scope, owner);
      RetireFate(st.mem, scope, id, now, kept, expiry);
      var res := Retire(st.mem, id, CONSUMED, now);
      if res.Ok? { CommitFate(st, res.value, scope, call, Done, kept, expiry); }
    case RetryOp(id) =>
      RetryKeepsStored(st.mem, id, now, kept, expiry);
      var res := Retry(st.mem, id, now);
      if res.Ok? { CommitFate(st, res.value, scope, call, Done, kept, expiry); }
    case ReopenOp =>
  }

  lemma SoundIsConsistent(s: Snapshot, scope: Scope, owner: Ownership)
    requires Sound(s, scope, owner)
    ensures Consistent(s, scope)
  {
  }

  lemma PruneKeepsStored(s: Snapshot, now: u64, kept: string, expiry: u64)
    ensures Stored(PruneTombstones(s, now), kept, expiry) == Stored(s, kept, expiry)
  {
  }

  /** A durable record outlives every run of calls, crashes included, that neither
      consumes it nor reaches its expiry. */
  lemma {:induction false} StoredUntilRetired(st: Store, scope: Scope, owner: Ownership, calls: seq<Call>, n: nat,
                                              kept: string, expiry: u64)
    requires ValidScope(scope) && SoundStore(st, scope, owner) && AdmissibleRun(st, scope, owner, calls)
    requires Stored(st.mem, kept, expiry) && Stored(st.disk, kept, expiry)
    requires n <= |calls|
    requires forall i | 0 <= i < n :: calls[i].op != ConsumeOp(kept) && calls[i].now < expiry
    ensures Stored(Run(st, scope, calls, n).mem, kept, expiry)
    ensures Stored(Run(st, scope, calls, n).disk, kept, expiry)
  {
    hide Step, Stored, Buried, SoundStore, Admissible;
    if n > 0 {
      StoredUntilRetired(st, scope, owner, calls, n - 1, kept, expiry);
      NeverCorrupt(st, scope, owner, calls, n - 1);
      StoredFate(Run(st, scope, calls, n - 1), scope, owner, calls[n-1], kept, expiry);
    }
  }

  // ----- terminal evidence -----

  lemma {:induction false} ExpireKeepsTombstone(s: Snapshot, due: seq<Record>, n: nat, now: u64, t: Tombstone)
    requires t in s.tombstones && n <= |due|
    ensures var res := ExpireFirst(s, due, n, now); res.Ok? ==> t in res.value.tombstones
  {
    hide Retire;
    if n > 0 {
      ExpireKeepsTombstone(s, due, n - 1, now, t);
      var prev := ExpireFirst(s, due, n - 1, now);
      if prev.Ok? { RetireKeepsTombstone(prev.value, due[n-1].id, EXPIRED, now, t); }
    }
  }

  lemma RetireKeepsTombstone(s: Snapshot, id: string, reason: string, now: u64, t: Tombstone)
    requires t in s.tombstones
    ensures var res := Retire(s, id, reason, now); res.Ok? ==> t in res.value.tombstones
  {
    var k := Position(s.records, HasRecordId(id));
    if k.Some? {
      PushSortMembers(s.tombstones, TombstoneOf(s.records[k.value], reason, now), TombstoneLe);
    }
  }

  lemma AppendKeepsTombstones(s: Snapshot, scope: Scope, id: string, observedBy: seq<string>, envelope: Envelope,
                              reason: string, size: Option<nat>, now: u64)
    ensures var res := AppendRecord(s, scope, id, observedBy, envelope, reason, size, now);
            res.Ok? ==> res.value.tombstones == s.tombstones
  {
  }

  lemma PolicyKeepsTombstones(s: Snapshot, scope: Scope, id: string, observedBy: seq<string>, envelope: Envelope,
                              size: Option<nat>, now: u64)
    ensures var res := ApplyPolicy(s, scope, id, observedBy, envelope, size, now);
            res.Ok? ==> res.value.0.tombstones == s.tombstones
  {
    hide AppendRecord, EnsurePolicy;
    var m := s.(policies := MaintainPolicies(s.policies, now));
    AppendKeepsTombstones(m, scope, id, observedBy, envelope, RATE_LIMITED, size, now);
    EnsureKeepsRecords(m, scope, HexKey(envelope.from), now);
    var e := EnsurePolicy(m, scope, HexKey(envelope.from), now);
    if e.Ok? {
      AppendKeepsTombstones(e.value.0, scope, id, observedBy, envelope, RATE_LIMITED, size, now);
    }
  }

  lemma CommitTombstone(st: Store, next: Snapshot, scope: Scope, fault: Fault, answer: Answer, t: Tombstone)
    requires t in st.mem.tombstones && t in st.disk.tombstones && t in next.tombstones
    ensures var st' := Commit(st, next, scope, fault, answer).0; t in st'.mem.tombstones && t in st'.disk.tombstones
  {
    hide Validate;
  }

  lemma StepKeepsTombstone(st: Store, scope: Scope, call: Call, t: Tombstone)
    requires t in st.mem.tombstones && t in st.disk.tombstones
    requires SatSub(call.now, t.terminalAt) <= TOMBSTONE_RETENTION_SECS
    ensures var st' := Step(st, scope, call).0; t in st'.mem.tombstones && t in st'.disk.tombstones
  {
    hide AppendRecord, ApplyPolicy, Retire, Commit, Validate, ExpireFirst;
    var now, fault := call.now, call.fault;
    match call.op
    case QuarantineOp(id, observedBy, envelope, reason, size) =>
      AppendKeepsTombstones(st.mem, scope, id, observedBy, envelope, reason, size, now);
      var res := AppendRecord(st.mem, scope, id, observedBy, envelope, reason, size, now);
      if res.Ok? { CommitTombstone(st, res.value, scope, fault, Done, t); }
    case PolicyOp(id, observedBy, envelope, size) =>
      PolicyKeepsTombstones(st.mem, scope, id, observedBy, envelope, size, now);
      var res := ApplyPolicy(st.mem, scope, id, observedBy, envelope, size, now);
      if res.Ok? { CommitTombstone(st, res.value.0, scope, fault, Decided(res.value.1), t); }
    case ExpireOp =>
      var pruned := PruneTombstones(st.mem, now);
      FilterMembers(st.mem.tombstones, FreshTombstone(now));
      var due := DueRecords(pruned, now);
      ExpireKeepsTombstone(pruned, due, |due|, now, t);
      var res := ExpireFirst(pruned, due, |due|, now);
      if res.Ok? { CommitTombstone(st, res.value, scope, fault, ExpiredCount(|due|), t); }
    case ConsumeOp(id) =>
      RetireKeepsTombstone(st.mem, id, CONSUMED, now, t);
      var res := Retire(st.mem, id, CONSUMED, now);
      if res.Ok? { CommitTombstone(st, res.value, scope, fault, Done, t); }
    case RetryOp(id) =>
      var res := Retry(st.mem, id, now);
      if res.Ok? { CommitTombstone(st, res.value, scope, fault, Done, t); }
    case ReopenOp =>
  }

  /** A durable tombstone answers replays for thirty days, in every run. */
  lemma {:induction false} TombstoneLasts(st: Store, scope: Scope, calls: seq<Call>, n: nat, t: Tombstone)
    requires t in st.mem.tombstones && t in st.disk.tombstones && n <= |calls|
    requires forall i | 0 <= i < n :: SatSub(calls[i].now, t.terminalAt) <= TOMBSTONE_RETENTION_SECS
    ensures t in Run(st, scope, calls, n).mem.tombstones && t in Run(st, scope, calls, n).disk.tombstones
  {
    hide Step;
    if n > 0 {
      TombstoneLasts(st, scope, calls, n - 1, t);
      StepKeepsTombstone(Run(st, scope, calls, n - 1), scope, calls[n-1], t);
    }
  }
}
