/** Every quarantine operation turns a snapshot the validator accepts into one it
    accepts again, given that an event id belongs to one sender, is at most 64
    bytes long, and is not quarantined again while it is tombstoned. */
module QuarantineInvariant {
  import opened Common
  import opened Facts
  import opened QuarantineModel

  /** The sender that an adapter event id was authenticated for. */
  type Ownership = string -> string

  const MAX_WIRE_ID_LEN: nat := 64

  ghost predicate OwnedPolicy(p: Policy, owner: Ownership) {
    forall c | c in p.charges :: |c.id| <= MAX_WIRE_ID_LEN && owner(c.id) == p.sender
  }

  /** The policy part of the invariant, free of cross-policy conditions. */
  ghost predicate LocalPolicies(ps: seq<Policy>, scope: Scope, owner: Ownership) {
    && |ps| <= MAX_POLICY_SENDERS
    && (forall p | p in ps :: PolicyOk(p, scope) && OwnedPolicy(p, owner))
    && UniqueBy(ps, PolicySender)
    && Sum(ps, ChargeCount) <= MAX_CHARGE_EVIDENCE
  }

  /** The invariant of a running repository. */
  ghost predicate Sound(s: Snapshot, scope: Scope, owner: Ownership) {
    && ValidSnapshot(s, scope)
    && forall p | p in s.policies :: OwnedPolicy(p, owner)
  }

  // ----- policies -----

  lemma {:induction false} PolicyBytesBound(ps: seq<Policy>)
    requires forall p | p in ps :: PolicySize(p) <= 244 + 80 * |p.charges|
    ensures Sum(ps, PolicySize) <= 244 * |ps| + 80 * Sum(ps, ChargeCount)
  {
    if |ps| > 0 {
      var p := ps[|ps|-1];
      assert p in ps;
      PolicyBytesBound(ps[..|ps|-1]);
    }
  }

  lemma PolicySizeBound(p: Policy, scope: Scope, owner: Ownership)
    requires ValidScope(scope) && PolicyOk(p, scope) && OwnedPolicy(p, owner)
    ensures PolicySize(p) <= 244 + 80 * |p.charges|
  {
    SumBound(p.charges, ChargeSize, 80);
  }

  /** Ownership keeps the charges of different senders apart, and short ids keep
      the policies far below their byte limit: 1024 * 244 + 65536 * 80 + 8 bytes. */
  lemma LocalIsValid(ps: seq<Policy>, scope: Scope, owner: Ownership)
    requires ValidScope(scope) && LocalPolicies(ps, scope, owner)
    ensures ValidPolicies(ps, scope)
  {
    forall i, j, a, b | 0 <= i < j < |ps| && 0 <= a < |ps[i].charges| && 0 <= b < |ps[j].charges|
      ensures ps[i].charges[a].id != ps[j].charges[b].id
    {
      assert ps[i] in ps && ps[j] in ps;
      assert ps[i].charges[a] in ps[i].charges && ps[j].charges[b] in ps[j].charges;
      assert PolicySender(ps[i]) != PolicySender(ps[j]);
    }
    forall p | p in ps ensures PolicySize(p) <= 244 + 80 * |p.charges| {
      PolicySizeBound(p, scope, owner);
    }
    PolicyBytesBound(ps);
  }

  lemma MaintainPolicyOk(p: Policy, now: u64, scope: Scope, owner: Ownership)
    requires PolicyOk(p, scope) && OwnedPolicy(p, owner)
    ensures PolicyOk(MaintainPolicy(p, now), scope) && OwnedPolicy(MaintainPolicy(p, now), owner)
    ensures |MaintainPolicy(p, now).charges| <= |p.charges|
  {
    FilterMembers(p.charges, FreshCharge(now));
    UniqueFilter(p.charges, FreshCharge(now), ChargeId);
  }

  lemma MaintainLocal(ps: seq<Policy>, now: u64, scope: Scope, owner: Ownership)
    requires LocalPolicies(ps, scope, owner)
    ensures LocalPolicies(MaintainPolicies(ps, now), scope, owner)
  {
    var qs := MaintainPolicies(ps, now);
    forall i | 0 <= i < |ps|
      ensures PolicyOk(qs[i], scope) && OwnedPolicy(qs[i], owner) && |qs[i].charges| <= |ps[i].charges|
    {
      assert ps[i] in ps;
      MaintainPolicyOk(ps[i], now, scope, owner);
    }
    SumPointwise(qs, ps, ChargeCount);
    forall i, j | 0 <= i < j < |qs| ensures PolicySender(qs[i]) != PolicySender(qs[j]) {
      assert PolicySender(ps[i]) != PolicySender(ps[j]);
    }
  }

  lemma RemovePolicyLocal(ps: seq<Policy>, k: nat, scope: Scope, owner: Ownership)
    requires LocalPolicies(ps, scope, owner) && k < |ps|
    ensures LocalPolicies(ps[..k] + ps[k+1..], scope, owner)
  {
    SumRemoveAt(ps, k, ChargeCount);
    var qs := ps[..k] + ps[k+1..];
    forall i, j | 0 <= i < j < |qs| ensures PolicySender(qs[i]) != PolicySender(qs[j]) {
      var i', j' := if i < k then i else i + 1, if j < k then j else j + 1;
      assert PolicySender(ps[i']) != PolicySender(ps[j']);
    }
  }

  lemma AddPolicyLocal(ps: seq<Policy>, sender: string, now: u64, scope: Scope, owner: Ownership)
    requires LocalPolicies(ps, scope, owner) && |ps| < MAX_POLICY_SENDERS && ValidHex32(sender)
    requires forall p | p in ps :: p.sender != sender
    ensures LocalPolicies(ps + [NewPolicy(scope, sender, now)], scope, owner)
  {
    SumAppend(ps, NewPolicy(scope, sender, now), ChargeCount);
    UniqueAppend(ps, NewPolicy(scope, sender, now), PolicySender);
  }

  lemma UpdatePolicyLocal(ps: seq<Policy>, k: nat, p: Policy, scope: Scope, owner: Ownership)
    requires LocalPolicies(ps, scope, owner) && k < |ps|
    requires PolicyOk(p, scope) && OwnedPolicy(p, owner) && p.sender == ps[k].sender
    requires Sum(ps, ChargeCount) + |p.charges| <= MAX_CHARGE_EVIDENCE + |ps[k].charges|
    ensures LocalPolicies(ps[k := p], scope, owner)
  {
    SumUpdate(ps, k, p, ChargeCount);
    forall q | q in ps[k := p] ensures PolicyOk(q, scope) && OwnedPolicy(q, owner) {
      if q != p { assert q in ps; }
    }
    var qs := ps[k := p];
    forall i, j | 0 <= i < j < |qs| ensures PolicySender(qs[i]) != PolicySender(qs[j]) {
      assert PolicySender(ps[i]) != PolicySender(ps[j]);
    }
  }

  lemma ChargePolicyOk(p: Policy, id: string, now: u64, scope: Scope, owner: Ownership)
    requires PolicyOk(p, scope) && OwnedPolicy(p, owner)
    requires p.permits > 0 && |p.charges| < MAX_CHARGE_EVIDENCE_PER_SENDER
    requires ValidEventId(id) && |id| <= MAX_WIRE_ID_LEN && owner(id) == p.sender
    requires forall c | c in p.charges :: c.id != id
    ensures PolicyOk(ChargePolicy(p, id, now), scope) && OwnedPolicy(ChargePolicy(p, id, now), owner)
    ensures |ChargePolicy(p, id, now).charges| == |p.charges| + 1
  {
    PushSortUnique(p.charges, Charge(id, now), ChargeLe, ChargeId);
    PushSortMembers(p.charges, Charge(id, now), ChargeLe);
  }

  lemma EnsurePolicyLocal(s: Snapshot, scope: Scope, sender: string, now: u64, owner: Ownership)
    requires LocalPolicies(s.policies, scope, owner) && ValidHex32(sender)
    requires EnsurePolicy(s, scope, sender, now).Ok?
    ensures var t := EnsurePolicy(s, scope, sender, now).value.0;
            LocalPolicies(t.policies, scope, owner) && t == s.(policies := t.policies)
  {
    if Position(s.policies, HasSender(sender)).None? {
      var t := MakePolicyCapacity(s).value;
      if |s.policies| >= MAX_POLICY_SENDERS {
        var k := IdlePolicy(s, |s.policies|).value;
        RemovePolicyLocal(s.policies, k, scope, owner);
      }
      forall p | p in t.policies ensures p.sender != sender {
        assert p in s.policies;
      }
      AddPolicyLocal(t.policies, sender, now, scope, owner);
    }
  }

  // ----- records -----

  lemma PushSenderLimit(rs: seq<Record>, r: Record, sender: string)
    requires Sum(rs, FromSender(sender)) <= MAX_RECORDS_PER_SENDER
    requires Sum(rs, FromSender(r.sender)) < MAX_RECORDS_PER_SENDER
    ensures Sum(Sort(rs + [r], RecordLe), FromSender(sender)) <= MAX_RECORDS_PER_SENDER
  {
    PushSortSum(rs, r, RecordLe, FromSender(sender));
  }

  lemma PushRecordOk(rs: seq<Record>, r: Record, scope: Scope)
    requires (forall q | q in rs :: RecordOk(q, scope)) && RecordOk(r, scope)
    ensures |Sort(rs + [r], RecordLe)| == |rs| + 1
    ensures forall q | q in Sort(rs + [r], RecordLe) :: RecordOk(q, scope)
  {
    PushSortMembers(rs, r, RecordLe);
  }

  lemma AppendRecordValid(rs: seq<Record>, r: Record, scope: Scope)
    requires ValidRecords(rs, scope) && RecordOk(r, scope)
    requires forall q | q in rs :: q.id != r.id
    requires |rs| < MAX_RECORDS && Sum(rs, FromSender(r.sender)) < MAX_RECORDS_PER_SENDER
    requires Sum(rs, CipherSize) + r.ciphertext.size <= MAX_CIPHERTEXT_BYTES
    ensures ValidRecords(Sort(rs + [r], RecordLe), scope)
  {
    PushRecordOk(rs, r, scope);
    PushSortUnique(rs, r, RecordLe, RecordId);
    forall sender ensures Sum(Sort(rs + [r], RecordLe), FromSender(sender)) <= MAX_RECORDS_PER_SENDER {
      PushSenderLimit(rs, r, sender);
    }
    PushSortSum(rs, r, RecordLe, CipherSize);
  }

  /** Rewriting a record's observations or retry fields keeps the list valid. */
  lemma UpdateRecordValid(rs: seq<Record>, k: nat, r: Record, scope: Scope)
    requires ValidRecords(rs, scope) && k < |rs|
    requires RecordOk(r, scope) && r.id == rs[k].id && r.sender == rs[k].sender && r.ciphertext == rs[k].ciphertext
    ensures ValidRecords(rs[k := r], scope)
  {
    var qs := rs[k := r];
    forall q | q in qs ensures RecordOk(q, scope) {
      if q != r { assert q in rs; }
    }
    forall i, j | 0 <= i < j < |qs| ensures RecordId(qs[i]) != RecordId(qs[j]) {
      assert RecordId(rs[i]) != RecordId(rs[j]);
    }
    forall sender ensures Sum(qs, FromSender(sender)) <= MAX_RECORDS_PER_SENDER {
      SumUpdate(rs, k, r, FromSender(sender));
    }
    SumUpdate(rs, k, r, CipherSize);
  }

  lemma FilterRecordsValid(rs: seq<Record>, p: Record -> bool, scope: Scope)
    requires ValidRecords(rs, scope)
    ensures ValidRecords(Filter(rs, p), scope)
  {
    FilterMembers(rs, p);
    UniqueFilter(rs, p, RecordId);
    forall sender ensures Sum(Filter(rs, p), FromSender(sender)) <= MAX_RECORDS_PER_SENDER {
      SumFilter(rs, p, FromSender(sender));
    }
    SumFilter(rs, p, CipherSize);
  }

  lemma AppendRecordSound(s: Snapshot, scope: Scope, id: string, observedBy: seq<string>, envelope: Envelope,
                          reason: string, size: Option<nat>, now: u64)
    requires s.scope == scope && ValidRecords(s.records, scope) && DisjointIds(s.records, s.tombstones)
    requires forall t | t in s.tombstones :: t.id != id
    requires AppendRecord(s, scope, id, observedBy, envelope, reason, size, now).Ok?
    ensures var t := AppendRecord(s, scope, id, observedBy, envelope, reason, size, now).value;
            && t == s.(records := t.records)
            && ValidRecords(t.records, scope) && DisjointIds(t.records, s.tombstones)
            && exists r | r in t.records :: r.id == id
  {
    var t := AppendRecord(s, scope, id, observedBy, envelope, reason, size, now).value;
    match Position(s.records, HasRecordId(id))
    case Some(k) =>
      var r := s.records[k];
      assert r in s.records;
      var r' := r.(observedBy := MergeObservations(r.observedBy, observedBy));
      UpdateRecordValid(s.records, k, r', scope);
      assert t.records[k] == r';
      forall q, u | q in t.records && u in s.tombstones ensures q.id != u.id {
        if q != r' { assert q in s.records; }
      }
    case None =>
      var r := NewRecord(scope, id, observedBy, envelope, reason, size.value, now);
      forall q | q in s.records ensures q.id != r.id {
        var i :| 0 <= i < |s.records| && s.records[i] == q;
        assert !HasRecordId(id)(s.records[i]);
      }
      AppendRecordValid(s.records, r, scope);
      PushSortMembers(s.records, r, RecordLe);
      assert r in t.records;
  }

  // ----- tombstones -----

  lemma PruneValid(s: Snapshot, scope: Scope, now: u64)
    requires ValidTombstones(s.tombstones, scope) && DisjointIds(s.records, s.tombstones)
    ensures ValidTombstones(PruneTombstones(s, now).tombstones, scope)
    ensures DisjointIds(s.records, PruneTombstones(s, now).tombstones)
  {
    FilterMembers(s.tombstones, FreshTombstone(now));
    UniqueFilter(s.tombstones, FreshTombstone(now), TombstoneId);
    SumFilter(s.tombstones, FreshTombstone(now), TombstoneSize);
  }

  lemma AppendTombstoneValid(ts: seq<Tombstone>, t: Tombstone, scope: Scope)
    requires ValidTombstones(ts, scope) && TombstoneOk(t, scope)
    requires forall u | u in ts :: u.id != t.id
    requires |ts| < MAX_TOMBSTONES && TombstoneBytes(ts) + TombstoneSize(t) <= MAX_TOMBSTONE_BYTES
    ensures ValidTombstones(Sort(ts + [t], TombstoneLe), scope)
  {
    PushSortMembers(ts, t, TombstoneLe);
    PushSortUnique(ts, t, TombstoneLe, TombstoneId);
    PushSortSum(ts, t, TombstoneLe, TombstoneSize);
  }

  predicate Among(due: seq<Record>, n: nat, id: string)
    requires n <= |due|
  {
    exists i | 0 <= i < n :: due[i].id == id
  }

  ghost predicate Buried(s: Snapshot, id: string, now: u64) {
    exists u | u in s.tombstones :: u.id == id && u.terminalAt == now
  }

  ghost predicate Consistent(s: Snapshot, scope: Scope) {
    && s.scope == scope && ValidRecords(s.records, scope)
    && ValidTombstones(s.tombstones, scope) && DisjointIds(s.records, s.tombstones)
  }

  /** `t` is `s` with the record `id` turned into a tombstone. */
  ghost predicate Moved(s: Snapshot, t: Snapshot, id: string, now: u64) {
    && t == s.(records := t.records, tombstones := t.tombstones)
    && (forall r :: r in t.records <==> r in s.records && r.id != id)
    && (forall u | u in s.tombstones :: u in t.tombstones)
    && Buried(t, id, now)
  }

  /** Retiring a record moves exactly its id from the records to the tombstones. */
  lemma RetireSound(s: Snapshot, scope: Scope, id: string, reason: string, now: u64)
    requires Consistent(s, scope) && Retire(s, id, reason, now).Ok?
    ensures Consistent(Retire(s, id, reason, now).value, scope)
    ensures Moved(s, Retire(s, id, reason, now).value, id, now)
  {
    var k := Position(s.records, HasRecordId(id)).value;
    var r := s.records[k];
    assert r in s.records;
    var u := TombstoneOf(r, reason, now);
    var t := Retire(s, id, reason, now).value;
    AppendTombstoneValid(s.tombstones, u, scope);
    PushSortMembers(s.tombstones, u, TombstoneLe);
    FilterRecordsValid(s.records, OtherRecordId(id), scope);
    FilterMembers(s.records, OtherRecordId(id));
    assert u in t.tombstones;
  }

  /** `t` is `s` with the first `n` due records turned into tombstones. */
  ghost predicate Expired(s: Snapshot, t: Snapshot, due: seq<Record>, n: nat, now: u64)
    requires n <= |due|
  {
    && t == s.(records := t.records, tombstones := t.tombstones)
    && (forall r :: r in t.records <==> r in s.records && !Among(due, n, r.id))
    && (forall u | u in s.tombstones :: u in t.tombstones)
    && (forall i | 0 <= i < n :: Buried(t, due[i].id, now))
  }

  lemma ExpireOneMore(s: Snapshot, t: Snapshot, t': Snapshot, due: seq<Record>, n: nat, now: u64)
    requires 0 < n <= |due| && Expired(s, t, due, n - 1, now) && Moved(t, t', due[n-1].id, now)
    ensures Expired(s, t', due, n, now)
  {
    forall r ensures r in t'.records <==> r in s.records && !Among(due, n, r.id) {
      assert r in t'.records <==> r in t.records && r.id != due[n-1].id;
      assert Among(due, n, r.id) <==> Among(due, n - 1, r.id) || r.id == due[n-1].id;
    }
    forall i | 0 <= i < n - 1 ensures Buried(t', due[i].id, now) {
      assert Buried(t, due[i].id, now);
    }
  }

  lemma FoundAt(rs: seq<Record>, r: Record)
    requires r in rs
    ensures Position(rs, HasRecordId(r.id)).Some?
  {
    var j :| 0 <= j < |rs| && rs[j] == r;
    assert HasRecordId(r.id)(rs[j]);
  }

  ghost predicate ExpiredOr(s: Snapshot, res: Result<Snapshot, Error>, scope: Scope, due: seq<Record>, n: nat, now: u64)
    requires n <= |due|
  {
    if res.Ok? then Consistent(res.value, scope) && Expired(s, res.value, due, n, now)
    else res.error == TombstoneCapacity
  }

  lemma RetireOutcome(t: Snapshot, r: Record, now: u64)
    requires r in t.records
    ensures var res := Retire(t, r.id, EXPIRED, now); res.Err? ==> res.error == TombstoneCapacity
  {
    FoundAt(t.records, r);
  }

  lemma {:induction false} ExpireFirstSound(s: Snapshot, scope: Scope, due: seq<Record>, n: nat, now: u64)
    requires Consistent(s, scope)
    requires n <= |due| && UniqueBy(due, RecordId) && forall r | r in due :: r in s.records
    ensures ExpiredOr(s, ExpireFirst(s, due, n, now), scope, due, n, now)
  {
    if n > 0 {
      ExpireFirstSound(s, scope, due, n - 1, now);
      var prev := ExpireFirst(s, due, n - 1, now);
      if prev.Ok? {
        var t, r := prev.value, due[n-1];
        assert r in due;
        assert forall i | 0 <= i < n - 1 :: RecordId(due[i]) != RecordId(due[n-1]);
        assert !Among(due, n - 1, r.id);
        RetireOutcome(t, r, now);
        var res := Retire(t, r.id, EXPIRED, now);
        assert ExpireFirst(s, due, n, now) == res;
        if res.Ok? {
          RetireSound(t, scope, r.id, EXPIRED, now);
          ExpireOneMore(s, t, res.value, due, n, now);
        }
      }
    }
  }

  // ----- the operations -----

  lemma QuarantineSound(s: Snapshot, scope: Scope, owner: Ownership, id: string, observedBy: seq<string>,
                        envelope: Envelope, reason: string, size: Option<nat>, now: u64)
    requires Sound(s, scope, owner) && forall t | t in s.tombstones :: t.id != id
    requires AppendRecord(s, scope, id, observedBy, envelope, reason, size, now).Ok?
    ensures Sound(AppendRecord(s, scope, id, observedBy, envelope, reason, size, now).value, scope, owner)
  {
    AppendRecordSound(s, scope, id, observedBy, envelope, reason, size, now);
  }

  lemma ConsumeSound(s: Snapshot, scope: Scope, owner: Ownership, id: string, now: u64)
    requires Sound(s, scope, owner) && Retire(s, id, CONSUMED, now).Ok?
    ensures Sound(Retire(s, id, CONSUMED, now).value, scope, owner)
  {
    RetireSound(s, scope, id, CONSUMED, now);
  }

  lemma PruneSound(s: Snapshot, scope: Scope, owner: Ownership, now: u64)
    requires Sound(s, scope, owner)
    ensures Sound(PruneTombstones(s, now), scope, owner)
  {
    PruneValid(s, scope, now);
  }

  lemma ExpireAllSound(s: Snapshot, scope: Scope, owner: Ownership, due: seq<Record>, now: u64)
    requires Sound(s, scope, owner) && UniqueBy(due, RecordId) && forall r | r in due :: r in s.records
    ensures var res := ExpireFirst(s, due, |due|, now);
            if res.Ok? then Sound(res.value, scope, owner) && Expired(s, res.value, due, |due|, now)
            else res.error == TombstoneCapacity
  {
    ExpireFirstSound(s, scope, due, |due|, now);
  }

  lemma ApplyPolicySound(s: Snapshot, scope: Scope, owner: Ownership, id: string, observedBy: seq<string>,
                         envelope: Envelope, size: Option<nat>, now: u64)
    requires ValidScope(scope) && Sound(s, scope, owner)
    requires |id| <= MAX_WIRE_ID_LEN && owner(id) == HexKey(envelope.from)
    requires forall t | t in s.tombstones :: t.id != id
    requires ApplyPolicy(s, scope, id, observedBy, envelope, size, now).Ok?
    ensures Sound(ApplyPolicy(s, scope, id, observedBy, envelope, size, now).value.0, scope, owner)
  {
    var m := s.(policies := MaintainPolicies(s.policies, now));
    MaintainLocal(s.policies, now, scope, owner);
    LocalIsValid(m.policies, scope, owner);
    if exists r | r in m.records :: r.id == id {
      AppendRecordSound(m, scope, id, observedBy, envelope, RATE_LIMITED, size, now);
    } else {
      var sender := HexKey(envelope.from);
      EnsurePolicyLocal(m, scope, sender, now, owner);
      var pair := EnsurePolicy(m, scope, sender, now).value;
      DecideChargeSound(pair.0, pair.1, scope, owner, id, observedBy, envelope, size, now);
    }
  }

  lemma DecideChargeSound(s: Snapshot, k: nat, scope: Scope, owner: Ownership, id: string,
                          observedBy: seq<string>, envelope: Envelope, size: Option<nat>, now: u64)
    requires s.schema == SCHEMA_VERSION && s.scope == scope && ValidScope(scope)
    requires ValidRecords(s.records, scope) && ValidTombstones(s.tombstones, scope)
    requires DisjointIds(s.records, s.tombstones) && LocalPolicies(s.policies, scope, owner)
    requires k < |s.policies| && s.policies[k].sender == HexKey(envelope.from) == owner(id)
    requires ValidEventId(id) && |id| <= MAX_WIRE_ID_LEN
    requires forall t | t in s.tombstones :: t.id != id
    requires DecideCharge(s, k, scope, id, observedBy, envelope, size, now).Ok?
    ensures Sound(DecideCharge(s, k, scope, id, observedBy, envelope, size, now).value.0, scope, owner)
  {
    var p := s.policies[k];
    assert p in s.policies;
    var t := DecideCharge(s, k, scope, id, observedBy, envelope, size, now).value.0;
    if (exists c | c in p.charges :: c.id == id) || p.permits == 0 {
      UpdatePolicyLocal(s.policies, k, p.(lastActivityAt := now), scope, owner);
      if !(exists c | c in p.charges :: c.id == id) {
        AppendRecordSound(s, scope, id, observedBy, envelope, RATE_LIMITED, size, now);
      }
    } else {
      ChargePolicyOk(p, id, now, scope, owner);
      UpdatePolicyLocal(s.policies, k, ChargePolicy(p, id, now), scope, owner);
    }
    LocalIsValid(t.policies, scope, owner);
  }

  lemma RetrySound(s: Snapshot, scope: Scope, owner: Ownership, id: string, now: u64)
    requires Sound(s, scope, owner) && Retry(s, id, now).Ok?
    ensures Sound(Retry(s, id, now).value, scope, owner)
  {
    var k := Position(s.records, HasRecordId(id)).value;
    assert s.records[k] in s.records;
    var r := RetryRecord(s.records[k], now);
    UpdateRecordValid(s.records, k, r, scope);
    forall q, u | q in s.records[k := r] && u in s.tombstones ensures q.id != u.id {
      if q != r { assert q in s.records; }
    }
  }
}
