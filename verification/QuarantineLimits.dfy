/** Why the 64-byte bound on event ids matters. The store itself admits ids of up
    to 128 bytes and probes the policy size with a 14-byte placeholder, so with
    long ids a charge can be installed that the validator then refuses. */
module QuarantineLimits {
  import opened Common
  import opened Facts
  import opened QuarantineModel
  import opened QuarantineValidation
  import opened QuarantineInvariant
  import opened QuarantineMachine

  lemma AddedChargeBytes(ps: seq<Policy>, k: nat, cs: seq<Charge>, c: Charge)
    requires k < |ps| && Sum(cs, ChargeSize) == Sum(ps[k].charges, ChargeSize) + ChargeSize(c)
    ensures forall p: Policy | p == ps[k].(charges := cs, permits := p.permits, lastActivityAt := p.lastActivityAt) ::
              PolicyBytes(ps[k := p]) == PolicyBytes(ps) + ChargeSize(c)
  {
    forall p: Policy | p == ps[k].(charges := cs, permits := p.permits, lastActivityAt := p.lastActivityAt)
      ensures PolicyBytes(ps[k := p]) == PolicyBytes(ps) + ChargeSize(c)
    {
      SumUpdate(ps, k, p, PolicySize);
    }
  }

  lemma ChargedBytes(ps: seq<Policy>, k: nat, id: string, now: u64)
    requires k < |ps| && ps[k].permits > 0
    ensures PolicyBytes(ps[k := ChargePolicy(ps[k], id, now)]) == PolicyBytes(ps) + 16 + |id|
  {
    var c := Charge(id, now);
    PushSortSum(ps[k].charges, c, ChargeLe, ChargeSize);
    AddedChargeBytes(ps, k, ChargePolicy(ps[k], id, now).charges, c);
  }

  /** A granted charge keeps the policies valid exactly when the real id, not the
      probe, fits in the byte limit. */
  lemma ProbeGap(s: Snapshot, k: nat, scope: Scope, id: string, observedBy: seq<string>,
                 envelope: Envelope, size: Option<nat>, now: u64)
    requires ValidSnapshot(s, scope) && k < |s.policies| && ValidEventId(id)
    requires forall p, c | p in s.policies && c in p.charges :: c.id != id
    requires var res := DecideCharge(s, k, scope, id, observedBy, envelope, size, now);
             res.Ok? && res.value.1 == Permit
    ensures var t := DecideCharge(s, k, scope, id, observedBy, envelope, size, now).value.0;
            Validate(t, scope).None? <==> PolicyBytes(s.policies) + 16 + |id| <= MAX_SENDER_POLICY_BYTES
  {
    var t := DecideCharge(s, k, scope, id, observedBy, envelope, size, now).value.0;
    var ps, p := s.policies, s.policies[k];
    assert p in ps;
    ChargedBytes(ps, k, id, now);
    ValidateIsExact(t, scope);
    if PolicyBytes(ps) + 16 + |id| <= MAX_SENDER_POLICY_BYTES {
      ChargeKeepsValid(ps, k, id, now, scope);
    }
  }

  lemma ChargeKeepsValid(ps: seq<Policy>, k: nat, id: string, now: u64, scope: Scope)
    requires ValidPolicies(ps, scope) && k < |ps| && ValidEventId(id) && ps[k].permits > 0
    requires forall p, c | p in ps && c in p.charges :: c.id != id
    requires Sum(ps, ChargeCount) < MAX_CHARGE_EVIDENCE && |ps[k].charges| < MAX_CHARGE_EVIDENCE_PER_SENDER
    requires PolicyBytes(ps) + 16 + |id| <= MAX_SENDER_POLICY_BYTES
    ensures ValidPolicies(ps[k := ChargePolicy(ps[k], id, now)], scope)
  {
    var p, c := ps[k], Charge(id, now);
    var q := ChargePolicy(p, id, now);
    var qs := ps[k := q];
    assert p in ps;
    PushSortUnique(p.charges, c, ChargeLe, ChargeId);
    PushSortMembers(p.charges, c, ChargeLe);
    ChargedBytes(ps, k, id, now);
    SumUpdate(ps, k, q, ChargeCount);
    forall i, j | 0 <= i < j < |qs| ensures PolicySender(qs[i]) != PolicySender(qs[j]) {
      assert PolicySender(ps[i]) != PolicySender(ps[j]);
    }
    forall x | x in qs ensures PolicyOk(x, scope) {
      if x != q { assert x in ps; }
    }
    forall i, j, a, b | 0 <= i < j < |qs| && 0 <= a < |qs[i].charges| && 0 <= b < |qs[j].charges|
      ensures qs[i].charges[a].id != qs[j].charges[b].id
    {
      ChargesStayApart(ps, k, q, c, i, j, qs[i].charges[a], qs[j].charges[b]);
    }
  }

  lemma ChargesStayApart(ps: seq<Policy>, k: nat, q: Policy, c: Charge, i: nat, j: nat, x: Charge, y: Charge)
    requires ChargesApart(ps) && k < |ps| && i < j < |ps|
    requires forall z :: z in q.charges <==> z in ps[k].charges || z == c
    requires forall p, z | p in ps && z in p.charges :: z.id != c.id
    requires x in ps[k := q][i].charges && y in ps[k := q][j].charges
    ensures x.id != y.id
  {
    assert ps[i] in ps && ps[j] in ps;
    if x in ps[i].charges && y in ps[j].charges {
      var a :| 0 <= a < |ps[i].charges| && ps[i].charges[a] == x;
      var b :| 0 <= b < |ps[j].charges| && ps[j].charges[b] == y;
    }
  }

  // ----- a full store of 128-byte ids -----

  lemma {:induction false} SumConst<T(!new)>(s: seq<T>, f: T -> nat, c: nat)
    requires forall x | x in s :: f(x) == c
    ensures Sum(s, f) == |s| * c
  {
    if |s| > 0 {
      SumConst(s[..|s|-1], f, c);
      assert s[|s|-1] in s;
      assert |s| * c == (|s| - 1) * c + c;
    }
  }

  function LongId(i: nat): string { HexDigits(i, 64) + HexDigits(0, 64) }

  lemma LongIdOk(i: nat)
    ensures |LongId(i)| == 128 && ValidEventId(LongId(i))
  {
  }

  lemma {:induction false} Pow16Grows(e: nat)
    requires e >= 4
    ensures Pow16(e) >= 65_536
  {
    if e == 4 {
      assert Pow16(2) == 256;
    } else {
      Pow16Grows(e - 1);
    }
  }

  lemma LongIdsDiffer(i: nat, j: nat)
    requires i < 65_536 && j < 65_536 && i != j
    ensures LongId(i) != LongId(j)
  {
    Pow16Grows(64);
    HexRoundTrip(i, 64);
    HexRoundTrip(j, 64);
    assert LongId(i)[..64] == HexDigits(i, 64);
    assert LongId(j)[..64] == HexDigits(j, 64);
  }

  function LongCharges(from: nat, n: nat): seq<Charge> { seq(n, i requires 0 <= i => Charge(LongId(from + i), 0)) }

  lemma LongChargesOk(from: nat, n: nat)
    requires from + n <= 65_536
    ensures forall c | c in LongCharges(from, n) :: ValidEventId(c.id) && ChargeSize(c) == 144 && c.at == 0
    ensures UniqueBy(LongCharges(from, n), ChargeId)
    ensures Sum(LongCharges(from, n), ChargeSize) == n * 144
  {
    var cs := LongCharges(from, n);
    forall c | c in cs ensures ValidEventId(c.id) && ChargeSize(c) == 144 && c.at == 0 {
      var i :| 0 <= i < |cs| && cs[i] == c;
      LongIdOk(from + i);
    }
    forall i, j | 0 <= i < j < |cs| ensures ChargeId(cs[i]) != ChargeId(cs[j]) {
      LongIdsDiffer(from + i, from + j);
    }
    SumConst(cs, ChargeSize, 144);
  }

  lemma KeyInRange(k: nat)
    requires k < 65_536
    ensures k < Pow16(64)
  {
    Pow16Grows(64);
  }

  function FullScope(): Scope { KeyInRange(0); Scope(HexKey(0), 0, HexKey(0)) }

  function FullPolicy(sender: Key, from: nat, n: nat): Policy {
    Policy(SCHEMA_VERSION, FullScope(), HexKey(sender), SENDER_POLICY_BURST, 0, 0, LongCharges(from, n))
  }

  const FIRST: nat := 40_960
  const SECOND: nat := 17_290

  /** Two senders with 58250 long ids between them: 8388496 of 8388608 bytes. */
  function FullStore(): Snapshot {
    KeyInRange(1); KeyInRange(2);
    Snapshot(SCHEMA_VERSION, FullScope(), [], [], [FullPolicy(1, 0, FIRST), FullPolicy(2, FIRST, SECOND)])
  }

  lemma FullPolicyOk(sender: Key, from: nat, n: nat)
    requires from + n <= 65_536 && n <= MAX_CHARGE_EVIDENCE_PER_SENDER
    ensures var p := FullPolicy(sender, from, n);
            && PolicyOk(p, FullScope()) && PolicySize(p) == 244 + 144 * n && |p.charges| == n
            && MaintainPolicy(p, 0) == p
  {
    LongChargesOk(from, n);
    FilterAll(LongCharges(from, n), FreshCharge(0));
  }

  lemma TwoPoliciesValid(p: Policy, q: Policy, scope: Scope)
    requires PolicyOk(p, scope) && PolicyOk(q, scope) && p.sender != q.sender
    requires forall a, b | a in p.charges && b in q.charges :: a.id != b.id
    requires |p.charges| + |q.charges| <= MAX_CHARGE_EVIDENCE
    requires 8 + PolicySize(p) + PolicySize(q) <= MAX_SENDER_POLICY_BYTES
    ensures ValidPolicies([p, q], scope)
    ensures PolicyBytes([p, q]) == 8 + PolicySize(p) + PolicySize(q)
    ensures Sum([p, q], ChargeCount) == |p.charges| + |q.charges|
  {
    hide PolicySize, PolicyOk;
    PairSum(p, q, PolicySize);
    PairSum(p, q, ChargeCount);
    var ps := [p, q];
    forall i, j, a, b | 0 <= i < j < |ps| && 0 <= a < |ps[i].charges| && 0 <= b < |ps[j].charges|
      ensures ps[i].charges[a].id != ps[j].charges[b].id
    {
      assert ps[i].charges[a] in p.charges && ps[j].charges[b] in q.charges;
    }
  }

  lemma LongChargesApart(a: Charge, b: Charge)
    requires a in LongCharges(0, FIRST) && b in LongCharges(FIRST, SECOND)
    ensures a.id != b.id
  {
    var i :| 0 <= i < FIRST && LongCharges(0, FIRST)[i] == a;
    var j :| 0 <= j < SECOND && LongCharges(FIRST, SECOND)[j] == b;
    LongIdsDiffer(i, FIRST + j);
  }

  lemma SendersDiffer()
    ensures 1 < Pow16(64) && 2 < Pow16(64) && HexKey(1) != HexKey(2)
  {
    KeyInRange(1);
    KeyInRange(2);
    HexRoundTrip(1, 64);
    HexRoundTrip(2, 64);
  }

  lemma FullStoreValid()
    ensures ValidSnapshot(FullStore(), FullScope())
    ensures PolicyBytes(FullStore().policies) == 8_388_496
    ensures Sum(FullStore().policies, ChargeCount) == FIRST + SECOND
    ensures MaintainPolicies(FullStore().policies, 0) == FullStore().policies
  {
    hide PolicyOk, PolicySize, MaintainPolicy, LongCharges, HexDigits, ValidPolicies;
    SendersDiffer();
    var p, q := FullPolicy(1, 0, FIRST), FullPolicy(2, FIRST, SECOND);
    FullPolicyOk(1, 0, FIRST);
    FullPolicyOk(2, FIRST, SECOND);
    forall a, b | a in p.charges && b in q.charges ensures a.id != b.id { LongChargesApart(a, b); }
    TwoPoliciesValid(p, q, FullScope());
  }

  lemma PairSum(p: Policy, q: Policy, f: Policy -> nat)
    ensures Sum([p, q], f) == f(p) + f(q)
  {
    SumAppend([p], q, f);
    SumAppend([], p, f);
    assert [] + [p] == [p] && [p] + [q] == [p, q];
  }

  lemma FullStoreHasRoom()
    ensures |FullStore().policies| == 2
    ensures ChargeCapacityError(FullStore().policies, 1) == None
  {
    hide LongCharges, HexDigits, ValidSnapshot, PolicySize, MaintainPolicies;
    FullStoreValid();
    SendersDiffer();
    ProbeBytes(FullStore().policies, 1);
    FullPolicyOk(2, FIRST, SECOND);
  }

  lemma FullStoreSender()
    ensures 2 < Pow16(64) && Position(FullStore().policies, HasSender(HexKey(2))) == Some(1)
  {
    hide LongCharges, HexDigits;
    SendersDiffer();
    var ps := FullStore().policies;
    assert HasSender(HexKey(2))(ps[1]) && !HasSender(HexKey(2))(ps[0]);
  }

  lemma LongIdIsCharged(envelope: Envelope, size: Option<nat>)
    ensures |FullStore().policies| == 2
    ensures var res := DecideCharge(FullStore(), 1, FullScope(), LongId(FIRST + SECOND), [], envelope, size, 0);
            res.Ok? && res.value.1 == Permit
  {
    hide LongCharges, HexDigits, AppendRecord, ChargeCapacityError, LongId;
    FullStoreHasRoom();
    SendersDiffer();
    var p := FullStore().policies[1];
    forall c | c in p.charges ensures c.id != LongId(FIRST + SECOND) { FreshLongId(p, c); }
  }

  lemma LongIdIsPermitted(envelope: Envelope, size: Option<nat>)
    requires envelope.from == 2
    ensures |FullStore().policies| == 2
    ensures var res := ApplyPolicy(FullStore(), FullScope(), LongId(FIRST + SECOND), [], envelope, size, 0);
            && res.Ok? && res.value.1 == Permit
            && res == DecideCharge(FullStore(), 1, FullScope(), LongId(FIRST + SECOND), [], envelope, size, 0)
  {
    hide LongCharges, HexDigits, AppendRecord, DecideCharge, ValidSnapshot, MaintainPolicies, LongId, PolicyBytes;
    FullStoreValid();
    FullStoreSender();
    LongIdOk(FIRST + SECOND);
    LongIdIsCharged(envelope, size);
  }

  /** From a valid store, a charge with a 128-byte id passes the probe, is
      installed in memory, and is then refused by the validator: the call fails
      and the memory is no longer valid. */
  lemma LongIdBreaksStore(envelope: Envelope, size: Option<nat>)
    requires envelope.from == 2
    ensures var st := Store(FullStore(), FullStore());
            var call := Call(PolicyOp(LongId(FIRST + SECOND), [], envelope, size), 0, NoFault);
            var (st', a) := Step(st, FullScope(), call);
            a.Failed? && !ValidSnapshot(st'.mem, FullScope())
  {
    hide LongCharges, HexDigits, ValidSnapshot, AppendRecord, ApplyPolicy, DecideCharge, Validate, StepExpire,
         Retire, Retry, PolicySize, FullStore, FullScope;
    FullStoreValid();
    LongIdOk(FIRST + SECOND);
    LongIdIsPermitted(envelope, size);
    var s, id := FullStore(), LongId(FIRST + SECOND);
    forall p, c | p in s.policies && c in p.charges ensures c.id != id { FreshLongId(p, c); }
    ProbeGap(s, 1, FullScope(), id, [], envelope, size, 0);
    ValidateIsExact(ApplyPolicy(s, FullScope(), id, [], envelope, size, 0).value.0, FullScope());
  }

  lemma FreshLongId(p: Policy, c: Charge)
    requires p in FullStore().policies && c in p.charges
    ensures c.id != LongId(FIRST + SECOND)
  {
    var i :| 0 <= i < |p.charges| && p.charges[i] == c;
    if p == FullStore().policies[0] {
      LongIdsDiffer(i, FIRST + SECOND);
    } else {
      LongIdsDiffer(FIRST + i, FIRST + SECOND);
    }
  }

  lemma ProbeBytes(ps: seq<Policy>, k: nat)
    requires k < |ps|
    ensures PolicyBytes(ps[k := ps[k].(charges := ps[k].charges + [CAPACITY_PROBE])]) == PolicyBytes(ps) + 30
  {
    SumAppend(ps[k].charges, CAPACITY_PROBE, ChargeSize);
    SumUpdate(ps, k, ps[k].(charges := ps[k].charges + [CAPACITY_PROBE]), PolicySize);
  }
}
