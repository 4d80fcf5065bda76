/** The sender policy over whole runs: how many permits one sender can obtain in
    a window of time, how often one event can be charged, and what one sender's
    traffic does to another's permits. */
module QuarantineRate {
  import opened Common
  import opened Facts
  import opened QuarantineModel
  import opened QuarantineValidation
  import opened QuarantineMachine

  // ----- one bucket -----

  /** Refilling at an intermediate time gives the same bucket as refilling once. */
  lemma RefillCompose(b: Bucket, t: u64, t': u64)
    requires b.permits <= SENDER_POLICY_BURST && t <= t'
    ensures Refill(Refill(b, t), t') == Refill(b, t')
  {
    if b.refilledAt <= t {
      var k := (t - b.refilledAt) / 15;
      var total := (t' - b.refilledAt) / 15;
      assert Refill(b, t).refilledAt == b.refilledAt + 15 * k;
      assert (t' - (b.refilledAt + 15 * k)) / 15 == total - k;
    }
  }

  /** Permits a bucket can still give until `end`, if nothing caps it. */
  function Potential(b: Bucket, end: u64): nat {
    b.permits + SatSub(end, b.refilledAt) / SENDER_POLICY_REFILL_SECS
  }

  lemma RefillPotential(b: Bucket, now: u64, end: u64)
    requires b.permits <= SENDER_POLICY_BURST && now <= end
    ensures Potential(Refill(b, now), end) <= Potential(b, end)
  {
    if b.refilledAt <= now {
      var k := (now - b.refilledAt) / 15;
      assert (end - (b.refilledAt + 15 * k)) / 15 == (end - b.refilledAt) / 15 - k;
    }
  }

  function Ceil(secs: nat): nat { (secs + 14) / SENDER_POLICY_REFILL_SECS }

  lemma RefillBound(b: Bucket, now: u64, end: u64)
    requires b.permits <= SENDER_POLICY_BURST && now <= end
    ensures Potential(Refill(b, now), end) <= SENDER_POLICY_BURST + Ceil(end - now)
  {
    var r: nat := Refill(b, now).refilledAt;
    if b.refilledAt <= now {
      assert now < r + 15;
      assert end - r <= end - now + 14;
    }
  }

  // ----- the policy of one sender -----

  function FindPolicy(ps: seq<Policy>, sender: string): Option<Policy> {
    var k := Position(ps, HasSender(sender));
    if k.Some? then Some(ps[k.value]) else None
  }

  lemma FindMember(ps: seq<Policy>, sender: string)
    requires UniqueBy(ps, PolicySender)
    ensures forall p | p in ps && p.sender == sender :: FindPolicy(ps, sender) == Some(p)
    ensures FindPolicy(ps, sender).Some? ==>
              FindPolicy(ps, sender).value in ps && FindPolicy(ps, sender).value.sender == sender
  {
    forall p | p in ps && p.sender == sender ensures FindPolicy(ps, sender) == Some(p) {
      var i :| 0 <= i < |ps| && ps[i] == p;
      assert HasSender(sender)(ps[i]);
      UniqueMember(ps, ps[Position(ps, HasSender(sender)).value], p, PolicySender);
    }
  }

  /** Policies as every run keeps them, up to clock value `now`. */
  ghost predicate Orderly(ps: seq<Policy>, now: u64) {
    && UniqueBy(ps, PolicySender)
    && forall p | p in ps :: p.permits <= SENDER_POLICY_BURST && p.lastRefillAt <= now
  }

  /** The sender's bucket as the next decision at `now` will see it. */
  function BucketOf(ps: seq<Policy>, sender: string, now: u64): Bucket {
    match FindPolicy(ps, sender)
    case Some(p) => Refill(Bucket(p.permits, p.lastRefillAt), now)
    case None => Bucket(SENDER_POLICY_BURST, now)
  }

  function Credit(ps: seq<Policy>, sender: string, now: u64, end: u64): nat {
    Potential(BucketOf(ps, sender, now), end)
  }

  lemma CreditBound(ps: seq<Policy>, sender: string, now: u64, end: u64)
    requires Orderly(ps, now) && now <= end
    ensures Credit(ps, sender, now, end) <= SENDER_POLICY_BURST + Ceil(end - now)
  {
    FindMember(ps, sender);
    match FindPolicy(ps, sender)
    case Some(p) => RefillBound(Bucket(p.permits, p.lastRefillAt), now, end);
    case None =>
  }

  lemma CreditAges(ps: seq<Policy>, sender: string, t: u64, t': u64, end: u64)
    requires Orderly(ps, t) && t <= t' <= end
    ensures Credit(ps, sender, t', end) <= Credit(ps, sender, t, end)
  {
    FindMember(ps, sender);
    match FindPolicy(ps, sender)
    case Some(p) =>
      var b := Bucket(p.permits, p.lastRefillAt);
      RefillCompose(b, t, t');
      RefillPotential(Refill(b, t), t', end);
    case None =>
  }

  // ----- what one policy decision does to each sender -----

  lemma MaintainFind(ps: seq<Policy>, now: u64, sender: string)
    requires Orderly(ps, now)
    ensures Orderly(MaintainPolicies(ps, now), now)
    ensures match FindPolicy(ps, sender)
            case Some(p) => FindPolicy(MaintainPolicies(ps, now), sender) == Some(MaintainPolicy(p, now))
            case None => FindPolicy(MaintainPolicies(ps, now), sender) == None
  {
    var qs := MaintainPolicies(ps, now);
    forall i, j | 0 <= i < j < |qs| ensures PolicySender(qs[i]) != PolicySender(qs[j]) {
      assert PolicySender(ps[i]) != PolicySender(ps[j]);
    }
    forall q | q in qs ensures q.permits <= SENDER_POLICY_BURST && q.lastRefillAt <= now {
      var i :| 0 <= i < |qs| && qs[i] == q;
      assert ps[i] in ps;
    }
    var k := Position(ps, HasSender(sender));
    if k.Some? {
      assert HasSender(sender)(qs[k.value]);
      assert forall i | 0 <= i < k.value :: !HasSender(sender)(ps[i]);
      assert forall i | 0 <= i < k.value :: !HasSender(sender)(qs[i]);
    } else {
      assert forall i | 0 <= i < |ps| :: !HasSender(sender)(ps[i]);
      assert forall i | 0 <= i < |qs| :: !HasSender(sender)(qs[i]);
    }
  }

  lemma MaintainBucket(ps: seq<Policy>, now: u64, sender: string, t: u64)
    requires Orderly(ps, now) && now <= t
    ensures BucketOf(MaintainPolicies(ps, now), sender, t) == BucketOf(ps, sender, t)
  {
    MaintainFind(ps, now, sender);
    FindMember(ps, sender);
    match FindPolicy(ps, sender)
    case Some(p) => RefillCompose(Bucket(p.permits, p.lastRefillAt), now, t);
    case None =>
  }

  lemma RemoveFind(ps: seq<Policy>, k: nat, now: u64, sender: string)
    requires Orderly(ps, now) && k < |ps|
    ensures Orderly(ps[..k] + ps[k+1..], now)
    ensures FindPolicy(ps[..k] + ps[k+1..], sender)
         == if ps[k].sender == sender then None else FindPolicy(ps, sender)
  {
    var qs := ps[..k] + ps[k+1..];
    forall i, j | 0 <= i < j < |qs| ensures PolicySender(qs[i]) != PolicySender(qs[j]) {
      var i', j' := if i < k then i else i + 1, if j < k then j else j + 1;
      assert PolicySender(ps[i']) != PolicySender(ps[j']);
    }
    forall q | q in qs ensures q in ps && q.sender != ps[k].sender {
      var i :| 0 <= i < |qs| && qs[i] == q;
      var i' := if i < k then i else i + 1;
      assert q == ps[i'];
      assert PolicySender(ps[i']) != PolicySender(ps[k]);
    }
    FindMember(ps, sender);
    FindMember(qs, sender);
    assert ps[k] in ps;
    if ps[k].sender != sender && FindPolicy(ps, sender).Some? {
      var p := FindPolicy(ps, sender).value;
      var i :| 0 <= i < |ps| && ps[i] == p;
      assert p in qs by { assert qs[if i < k then i else i - 1] == p; }
    }
  }

  lemma AppendFind(ps: seq<Policy>, p: Policy, now: u64, sender: string)
    requires Orderly(ps, now) && p.permits <= SENDER_POLICY_BURST && p.lastRefillAt <= now
    requires FindPolicy(ps, p.sender).None?
    ensures Orderly(ps + [p], now)
    ensures FindPolicy(ps + [p], sender) == if p.sender == sender then Some(p) else FindPolicy(ps, sender)
  {
    FindMember(ps, p.sender);
    UniqueAppend(ps, p, PolicySender);
    FindMember(ps, sender);
    FindMember(ps + [p], sender);
    assert p in ps + [p];
    if p.sender != sender && FindPolicy(ps, sender).Some? {
      assert FindPolicy(ps, sender).value in ps + [p];
    }
  }

  lemma UpdateFind(ps: seq<Policy>, k: nat, p: Policy, now: u64, sender: string)
    requires Orderly(ps, now) && k < |ps|
    requires p.sender == ps[k].sender && p.permits <= SENDER_POLICY_BURST && p.lastRefillAt <= now
    ensures Orderly(ps[k := p], now)
    ensures FindPolicy(ps[k := p], sender) == if p.sender == sender then Some(p) else FindPolicy(ps, sender)
  {
    var qs := ps[k := p];
    forall i, j | 0 <= i < j < |qs| ensures PolicySender(qs[i]) != PolicySender(qs[j]) {
      assert PolicySender(ps[i]) != PolicySender(ps[j]);
    }
    forall q | q in qs && q != p ensures q in ps { }
    FindMember(ps, sender);
    FindMember(qs, sender);
    assert qs[k] == p;
    if p.sender != sender && FindPolicy(ps, sender).Some? {
      var r := FindPolicy(ps, sender).value;
      var i :| 0 <= i < |ps| && ps[i] == r;
      assert qs[i] == r;
    }
  }

  lemma FindUnfold(ps: seq<Policy>, sender: string)
    ensures var k := Position(ps, HasSender(sender));
            FindPolicy(ps, sender) == if k.Some? then Some(ps[k.value]) else None
  {
  }

  lemma RemovableFind(s: Snapshot, i: nat, now: u64)
    requires Orderly(s.policies, now) && i < |s.policies|
    ensures FindPolicy(s.policies, s.policies[i].sender) == Some(s.policies[i])
  {
    FindMember(s.policies, s.policies[i].sender);
    assert s.policies[i] in s.policies;
  }

  /** Installing the sender's policy can only evict a sender that is idle with a
      full bucket. */
  lemma EnsureFind(s: Snapshot, scope: Scope, owner: string, now: u64, sender: string)
    requires Orderly(s.policies, now) && EnsurePolicy(s, scope, owner, now).Ok?
    ensures var (t, k) := EnsurePolicy(s, scope, owner, now).value;
            && Orderly(t.policies, now)
            && FindPolicy(t.policies, owner) == Some(t.policies[k])
            && (if sender == owner then
                  t.policies[k] == (if FindPolicy(s.policies, owner).Some? then FindPolicy(s.policies, owner).value
                                    else NewPolicy(scope, owner, now))
                else
                  || FindPolicy(t.policies, sender) == FindPolicy(s.policies, sender)
                  || (&& FindPolicy(t.policies, sender).None?
                      && FindPolicy(s.policies, sender).Some?
                      && Removable(s, FindPolicy(s.policies, sender).value)))
  {
    hide Orderly, IdlePolicy, FindPolicy;
    var (t, k) := EnsurePolicy(s, scope, owner, now).value;
    FindUnfold(s.policies, owner);
    if Position(s.policies, HasSender(owner)).None? {
      var u := MakePolicyCapacity(s).value;
      if |s.policies| >= MAX_POLICY_SENDERS {
        var i := IdlePolicy(s, |s.policies|).value;
        RemoveFind(s.policies, i, now, owner);
        RemoveFind(s.policies, i, now, sender);
        RemovableFind(s, i, now);
      }
      AppendFind(u.policies, NewPolicy(scope, owner, now), now, sender);
      AppendFind(u.policies, NewPolicy(scope, owner, now), now, owner);
    }
  }

  /** The policies `DecideCharge` leaves behind, and its answer. */
  lemma DecideFind(s: Snapshot, k: nat, scope: Scope, id: string, observedBy: seq<string>,
                   envelope: Envelope, size: Option<nat>, now: u64, sender: string)
    requires Orderly(s.policies, now) && k < |s.policies|
    requires DecideCharge(s, k, scope, id, observedBy, envelope, size, now).Ok?
    ensures var (t, d) := DecideCharge(s, k, scope, id, observedBy, envelope, size, now).value;
            var p := s.policies[k];
            && Orderly(t.policies, now)
            && (d == Permit ==> p.permits > 0 && (forall c | c in p.charges :: c.id != id))
            && FindPolicy(t.policies, sender)
               == if p.sender != sender then FindPolicy(s.policies, sender)
                  else Some(if d == Permit then ChargePolicy(p, id, now) else p.(lastActivityAt := now))
  {
    var (t, d) := DecideCharge(s, k, scope, id, observedBy, envelope, size, now).value;
    var p := s.policies[k];
    assert p in s.policies;
    if d == Permit {
      UpdateFind(s.policies, k, ChargePolicy(p, id, now), now, sender);
    } else {
      UpdateFind(s.policies, k, p.(lastActivityAt := now), now, sender);
    }
  }

  /** Everything one decision does to the policies, sender by sender: its own
      sender pays one permit if and only if the answer is `Permit`; any other
      sender keeps its policy up to maintenance, or is evicted with a full bucket. */
  lemma PolicyEffect(s: Snapshot, scope: Scope, id: string, observedBy: seq<string>,
                     envelope: Envelope, size: Option<nat>, now: u64, sender: string)
    requires Orderly(s.policies, now)
    requires ApplyPolicy(s, scope, id, observedBy, envelope, size, now).Ok?
    ensures var (t, d) := ApplyPolicy(s, scope, id, observedBy, envelope, size, now).value;
            var m := FindPolicy(MaintainPolicies(s.policies, now), sender);
            var f := FindPolicy(t.policies, sender);
            && Orderly(t.policies, now)
            && (if sender != HexKey(envelope.from) then
                  f == m || (f.None? && m.Some? && m.value.permits == SENDER_POLICY_BURST && m.value.charges == [])
                else
                  var q := if m.Some? then m.value else NewPolicy(scope, sender, now);
                  if d == Permit then
                    q.permits > 0 && (forall c | c in q.charges :: c.id != id) && f == Some(ChargePolicy(q, id, now))
                  else f == m || f == Some(q.(lastActivityAt := now)))
  {
    hide AppendRecord, DecideCharge, EnsurePolicy, MaintainPolicy;
    var m := s.(policies := MaintainPolicies(s.policies, now));
    MaintainFind(s.policies, now, sender);
    if exists r | r in m.records :: r.id == id {
      AppendKeepsPolicies(m, scope, id, observedBy, envelope, RATE_LIMITED, size, now);
    } else {
      var from := HexKey(envelope.from);
      EnsureFind(m, scope, from, now, sender);
      var (u, k) := EnsurePolicy(m, scope, from, now).value;
      DecideFind(u, k, scope, id, observedBy, envelope, size, now, sender);
    }
  }

  lemma AppendKeepsPolicies(s: Snapshot, scope: Scope, id: string, observedBy: seq<string>, envelope: Envelope,
                            reason: string, size: Option<nat>, now: u64)
    ensures var res := AppendRecord(s, scope, id, observedBy, envelope, reason, size, now);
            res.Ok? ==> res.value.policies == s.policies
  {
  }

  // ----- the rate bound -----

  ghost predicate OrderlyStore(st: Store, now: u64) {
    Orderly(st.mem.policies, now) && Orderly(st.disk.policies, now)
  }

  lemma PolicyCredit(s: Snapshot, scope: Scope, id: string, observedBy: seq<string>,
                     envelope: Envelope, size: Option<nat>, now: u64, sender: string, end: u64)
    requires Orderly(s.policies, now) && now <= end
    requires ApplyPolicy(s, scope, id, observedBy, envelope, size, now).Ok?
    ensures var (t, d) := ApplyPolicy(s, scope, id, observedBy, envelope, size, now).value;
            && Orderly(t.policies, now)
            && Credit(t.policies, sender, now, end)
               + (if d == Permit && sender == HexKey(envelope.from) then 1 else 0)
               <= Credit(s.policies, sender, now, end)
  {
    hide ApplyPolicy, MaintainPolicies, ChargePolicy;
    var (t, d) := ApplyPolicy(s, scope, id, observedBy, envelope, size, now).value;
    PolicyEffect(s, scope, id, observedBy, envelope, size, now, sender);
    MaintainBucket(s.policies, now, sender, now);
    MaintainFind(s.policies, now, sender);
    var m := FindPolicy(MaintainPolicies(s.policies, now), sender);
    FindMember(MaintainPolicies(s.policies, now), sender);
    var q := if m.Some? then m.value else NewPolicy(scope, sender, now);
    if d == Permit && sender == HexKey(envelope.from) {
      ChargeBucket(q, id, now, now, end);
    }
  }

  lemma ChargeBucket(p: Policy, id: string, at: u64, now: u64, end: u64)
    requires 0 < p.permits <= SENDER_POLICY_BURST && p.lastRefillAt <= now <= end
    ensures var c := ChargePolicy(p, id, at);
            && c.lastRefillAt == p.lastRefillAt && c.permits == p.permits - 1
            && (now - p.lastRefillAt < 15 ==>
                 Potential(Refill(Bucket(c.permits, c.lastRefillAt), now), end) + 1
                 == Potential(Refill(Bucket(p.permits, p.lastRefillAt), now), end))
  {
  }

  /** The better of what memory and file can still grant: a crash can bring back
      the file's bucket. */
  function StoreCredit(st: Store, sender: string, now: u64, end: u64): nat {
    Max(Credit(st.mem.policies, sender, now, end), Credit(st.disk.policies, sender, now, end))
  }

  predicate PermitTo(call: Call, answer: Answer, sender: string) {
    call.op.PolicyOp? && HexKey(call.op.envelope.from) == sender && answer == Decided(Permit)
  }

  /** Only a policy decision touches the policies. */
  lemma OtherOpsKeepPolicies(st: Store, scope: Scope, call: Call)
    requires !call.op.PolicyOp?
    ensures var (st', a) := Step(st, scope, call);
            && (st'.mem.policies == st.mem.policies || st'.mem.policies == st.disk.policies)
            && (st'.disk.policies == st.disk.policies || st'.disk.policies == st.mem.policies)
            && !a.Decided?
  {
    hide Validate, AppendRecord, Retire, ExpireFirst;
    var now := call.now;
    match call.op
    case QuarantineOp(id, observedBy, envelope, reason, size) =>
      AppendKeepsPolicies(st.mem, scope, id, observedBy, envelope, reason, size, now);
    case ExpireOp =>
      var pruned := PruneTombstones(st.mem, now);
      var due := DueRecords(pruned, now);
      ExpireKeepsPolicies(pruned, due, |due|, now);
    case ConsumeOp(id) =>
      RetireKeepsPolicies(st.mem, id, CONSUMED, now);
    case _ =>
  }

  lemma RetireKeepsPolicies(s: Snapshot, id: string, reason: string, now: u64)
    ensures var res := Retire(s, id, reason, now); res.Ok? ==> res.value.policies == s.policies
  {
  }

  lemma {:induction false} ExpireKeepsPolicies(s: Snapshot, due: seq<Record>, n: nat, now: u64)
    requires n <= |due|
    ensures var res := ExpireFirst(s, due, n, now); res.Ok? ==> res.value.policies == s.policies
  {
    if n > 0 {
      ExpireKeepsPolicies(s, due, n - 1, now);
      var prev := ExpireFirst(s, due, n - 1, now);
      if prev.Ok? { RetireKeepsPolicies(prev.value, due[n-1].id, EXPIRED, now); }
    }
  }

  /** A policy call installs the decided snapshot in memory, and in the file
      before it answers. */
  lemma PolicyStep(st: Store, scope: Scope, call: Call)
    requires call.op.PolicyOp?
    ensures var (st', a) := Step(st, scope, call);
            var res := ApplyPolicy(st.mem, scope, call.op.id, call.op.observedBy, call.op.envelope, call.op.size, call.now);
            || (res.Err? && st' == st && a == Failed(res.error))
            || (res.Ok? && st' == st.(mem := res.value.0) && a.Failed?)
            || (res.Ok? && st' == Store(res.value.0, res.value.0) && a == Decided(res.value.1))
  {
    hide ApplyPolicy, Validate, AppendRecord, Retire, Retry, StepExpire;
  }

  lemma PolicyStepCredit(st: Store, scope: Scope, call: Call, sender: string, end: u64)
    requires call.op.PolicyOp? && OrderlyStore(st, call.now) && call.now <= end
    ensures var (st', a) := Step(st, scope, call);
            && OrderlyStore(st', call.now)
            && StoreCredit(st', sender, call.now, end) + (if PermitTo(call, a, sender) then 1 else 0)
               <= StoreCredit(st, sender, call.now, end)
  {
    hide Step, ApplyPolicy, Credit, Orderly;
    PolicyStep(st, scope, call);
    var PolicyOp(id, observedBy, envelope, size) := call.op;
    if ApplyPolicy(st.mem, scope, id, observedBy, envelope, size, call.now).Ok? {
      PolicyCredit(st.mem, scope, id, observedBy, envelope, size, call.now, sender, end);
    }
  }

  /** A call never raises the credit, and a permit costs one. */
  lemma StepCredit(st: Store, scope: Scope, call: Call, sender: string, end: u64)
    requires OrderlyStore(st, call.now) && call.now <= end
    ensures var (st', a) := Step(st, scope, call);
            && OrderlyStore(st', call.now)
            && StoreCredit(st', sender, call.now, end) + (if PermitTo(call, a, sender) then 1 else 0)
               <= StoreCredit(st, sender, call.now, end)
  {
    hide Step, Credit, Orderly;
    if call.op.PolicyOp? {
      PolicyStepCredit(st, scope, call, sender, end);
    } else {
      OtherOpsKeepPolicies(st, scope, call);
    }
  }

  ghost predicate ClockOrdered(calls: seq<Call>) {
    forall i, j | 0 <= i <= j < |calls| :: calls[i].now <= calls[j].now
  }

  /** Permit answers for `sender` among the first `n` calls, at times in the window. */
  function Permits(st: Store, scope: Scope, calls: seq<Call>, sender: string, start: u64, end: u64, n: nat): nat
    requires n <= |calls|
  {
    if n == 0 then 0
    else
      Permits(st, scope, calls, sender, start, end, n - 1)
      + (if start <= calls[n-1].now <= end && PermitTo(calls[n-1], AnswerAt(st, scope, calls, n - 1), sender)
         then 1 else 0)
  }

  lemma {:induction false} NoPermitsBefore(st: Store, scope: Scope, calls: seq<Call>, sender: string,
                                           start: u64, end: u64, n: nat)
    requires n <= |calls| && forall i | 0 <= i < n :: calls[i].now < start
    ensures Permits(st, scope, calls, sender, start, end, n) == 0
  {
    if n > 0 { NoPermitsBefore(st, scope, calls, sender, start, end, n - 1); }
  }

  lemma {:induction false} RunOrderly(st: Store, scope: Scope, calls: seq<Call>, since: u64, n: nat)
    requires OrderlyStore(st, since) && ClockOrdered(calls) && n <= |calls|
    requires forall i | 0 <= i < |calls| :: since <= calls[i].now
    ensures OrderlyStore(Run(st, scope, calls, n), if n == 0 then since else calls[n-1].now)
  {
    hide Step;
    if n > 0 {
      RunOrderly(st, scope, calls, since, n - 1);
      var prev := Run(st, scope, calls, n - 1);
      assert n > 1 ==> calls[n-2].now <= calls[n-1].now;
      StepCredit(prev, scope, calls[n-1], "", U64_MAX);
    }
  }

  lemma CreditOnArrival(st: Store, sender: string, since: u64, now: u64, end: u64)
    requires OrderlyStore(st, since) && since <= now <= end
    ensures OrderlyStore(st, now)
    ensures StoreCredit(st, sender, now, end) <= StoreCredit(st, sender, since, end)
    ensures StoreCredit(st, sender, now, end) <= SENDER_POLICY_BURST + Ceil(end - now)
  {
    CreditAges(st.mem.policies, sender, since, now, end);
    CreditAges(st.disk.policies, sender, since, now, end);
    CreditBound(st.mem.policies, sender, now, end);
    CreditBound(st.disk.policies, sender, now, end);
  }

  /** Inside the window, permits so far plus remaining credit stay within the bound. */
  lemma {:induction false} WindowCredit(st: Store, scope: Scope, calls: seq<Call>, since: u64, sender: string,
                                        start: u64, end: u64, n: nat)
    requires OrderlyStore(st, since) && ClockOrdered(calls) && n <= |calls| && start <= end
    requires forall i | 0 <= i < |calls| :: since <= calls[i].now
    ensures Permits(st, scope, calls, sender, start, end, n) <= SENDER_POLICY_BURST + Ceil(end - start)
    ensures n > 0 && start <= calls[n-1].now <= end ==>
              Permits(st, scope, calls, sender, start, end, n)
              + StoreCredit(Run(st, scope, calls, n), sender, calls[n-1].now, end)
              <= SENDER_POLICY_BURST + Ceil(end - start)
  {
    hide Step, StoreCredit, OrderlyStore;
    if n > 0 {
      WindowCredit(st, scope, calls, since, sender, start, end, n - 1);
      RunOrderly(st, scope, calls, since, n - 1);
      var now := calls[n-1].now;
      if start <= now <= end {
        var prev := Run(st, scope, calls, n - 1);
        var last := if n == 1 then since else calls[n-2].now;
        CreditOnArrival(prev, sender, last, now, end);
        StepCredit(prev, scope, calls[n-1], sender, end);
        if last < start || n == 1 {
          assert forall i | 0 <= i < n - 1 :: calls[i].now <= calls[n-2].now;
          NoPermitsBefore(st, scope, calls, sender, start, end, n - 1);
          assert Ceil(end - now) <= Ceil(end - start);
        }
      }
    }
  }

  /** Over every run with a clock that does not go back, across failed writes,
      crashes, reopenings and evictions, one sender gets at most
      8 + ceil((end - start) / 15) permits with clock values in [start, end]. */
  lemma RateBound(st: Store, scope: Scope, calls: seq<Call>, since: u64, sender: string, start: u64, end: u64)
    requires OrderlyStore(st, since) && ClockOrdered(calls) && start <= end
    requires forall i | 0 <= i < |calls| :: since <= calls[i].now
    ensures Permits(st, scope, calls, sender, start, end, |calls|) <= SENDER_POLICY_BURST + Ceil(end - start)
  {
    WindowCredit(st, scope, calls, since, sender, start, end, |calls|);
  }

  // ----- isolation between senders -----

  /** No decision about one sender lowers, or raises, the permits another sender
      will find at any later time. */
  lemma OtherSendersUnaffected(s: Snapshot, scope: Scope, id: string, observedBy: seq<string>,
                               envelope: Envelope, size: Option<nat>, now: u64, sender: string, later: u64)
    requires Orderly(s.policies, now) && now <= later && sender != HexKey(envelope.from)
    requires ApplyPolicy(s, scope, id, observedBy, envelope, size, now).Ok?
    ensures var t := ApplyPolicy(s, scope, id, observedBy, envelope, size, now).value.0;
            BucketOf(t.policies, sender, later).permits == BucketOf(s.policies, sender, later).permits
  {
    hide ApplyPolicy, MaintainPolicies;
    PolicyEffect(s, scope, id, observedBy, envelope, size, now, sender);
    MaintainBucket(s.policies, now, sender, later);
  }
}
