/** Exactly-once charging: a charge leaves evidence that survives restarts and
    evictions for eight days, so the same event is not charged twice in that time. */
module QuarantineCharging {
  import opened Common
  import opened Facts
  import opened QuarantineModel
  import opened QuarantineValidation
  import opened QuarantineMachine
  import opened QuarantineRate

  /** The sender's policy holds evidence that `id` was charged at time `at`. */
  ghost predicate Evidence(ps: seq<Policy>, sender: string, id: string, at: u64) {
    FindPolicy(ps, sender).Some? && Charge(id, at) in FindPolicy(ps, sender).value.charges
  }

  ghost predicate StoreEvidence(st: Store, sender: string, id: string, at: u64) {
    Evidence(st.mem.policies, sender, id, at) && Evidence(st.disk.policies, sender, id, at)
  }

  lemma MaintainKeepsEvidence(ps: seq<Policy>, now: u64, sender: string, id: string, at: u64)
    requires Orderly(ps, now) && Evidence(ps, sender, id, at)
    requires SatSub(now, at) <= CHARGE_EVIDENCE_RETENTION_SECS
    ensures Evidence(MaintainPolicies(ps, now), sender, id, at)
  {
    MaintainFind(ps, now, sender);
    FilterMembers(FindPolicy(ps, sender).value.charges, FreshCharge(now));
  }

  lemma ChargeAddsEvidence(p: Policy, id: string, now: u64)
    requires p.permits > 0
    ensures forall c :: c in ChargePolicy(p, id, now).charges <==> c in p.charges || c == Charge(id, now)
  {
    PushSortMembers(p.charges, Charge(id, now), ChargeLe);
  }

  /** Evidence not older than eight days survives every decision, and rules out
      another permit for the same event and sender. */
  lemma DecisionKeepsEvidence(s: Snapshot, scope: Scope, id: string, observedBy: seq<string>, envelope: Envelope,
                              size: Option<nat>, now: u64, sender: string, charged: string, at: u64)
    requires Orderly(s.policies, now) && Evidence(s.policies, sender, charged, at)
    requires SatSub(now, at) <= CHARGE_EVIDENCE_RETENTION_SECS
    requires ApplyPolicy(s, scope, id, observedBy, envelope, size, now).Ok?
    ensures var (t, d) := ApplyPolicy(s, scope, id, observedBy, envelope, size, now).value;
            && Evidence(t.policies, sender, charged, at)
            && !(d == Permit && sender == HexKey(envelope.from) && id == charged)
  {
    hide ApplyPolicy, MaintainPolicies, ChargePolicy, Orderly;
    MaintainKeepsEvidence(s.policies, now, sender, charged, at);
    PolicyEffect(s, scope, id, observedBy, envelope, size, now, sender);
    var p := FindPolicy(MaintainPolicies(s.policies, now), sender).value;
    if sender == HexKey(envelope.from) && p.permits > 0 {
      ChargeAddsEvidence(p, id, now);
    }
  }

  lemma PermitLeavesEvidence(st: Store, scope: Scope, call: Call, sender: string)
    requires OrderlyStore(st, call.now) && PermitTo(call, Step(st, scope, call).1, sender)
    ensures StoreEvidence(Step(st, scope, call).0, sender, call.op.id, call.now)
  {
    hide Step, ApplyPolicy, MaintainPolicies, ChargePolicy;
    PolicyStep(st, scope, call);
    var PolicyOp(id, observedBy, envelope, size) := call.op;
    PolicyEffect(st.mem, scope, id, observedBy, envelope, size, call.now, sender);
    var m := FindPolicy(MaintainPolicies(st.mem.policies, call.now), sender);
    ChargeAddsEvidence(if m.Some? then m.value else NewPolicy(scope, sender, call.now), id, call.now);
  }

  lemma StepKeepsEvidence(st: Store, scope: Scope, call: Call, sender: string, charged: string, at: u64)
    requires OrderlyStore(st, call.now) && StoreEvidence(st, sender, charged, at)
    requires SatSub(call.now, at) <= CHARGE_EVIDENCE_RETENTION_SECS
    ensures var (st', a) := Step(st, scope, call);
            && StoreEvidence(st', sender, charged, at)
            && !(PermitTo(call, a, sender) && call.op.id == charged)
  {
    hide Step, ApplyPolicy, Evidence, Orderly;
    if call.op.PolicyOp? {
      PolicyStep(st, scope, call);
      var PolicyOp(id, observedBy, envelope, size) := call.op;
      if ApplyPolicy(st.mem, scope, id, observedBy, envelope, size, call.now).Ok? {
        DecisionKeepsEvidence(st.mem, scope, id, observedBy, envelope, size, call.now, sender, charged, at);
      }
    } else {
      OtherOpsKeepPolicies(st, scope, call);
    }
  }

  lemma {:induction false} EvidenceLasts(st: Store, scope: Scope, calls: seq<Call>, since: u64, sender: string,
                                         i: nat, n: nat)
    requires OrderlyStore(st, since) && ClockOrdered(calls) && forall k | 0 <= k < |calls| :: since <= calls[k].now
    requires i < n <= |calls| && PermitTo(calls[i], AnswerAt(st, scope, calls, i), sender)
    requires calls[n-1].now - calls[i].now <= CHARGE_EVIDENCE_RETENTION_SECS
    ensures StoreEvidence(Run(st, scope, calls, n), sender, calls[i].op.id, calls[i].now)
    decreases n
  {
    hide Step, OrderlyStore, StoreEvidence;
    RunOrderly(st, scope, calls, since, n - 1);
    var prev := Run(st, scope, calls, n - 1);
    CreditOnArrival(prev, sender, if n == 1 then since else calls[n-2].now, calls[n-1].now, U64_MAX);
    if i == n - 1 {
      PermitLeavesEvidence(prev, scope, calls[n-1], sender);
    } else {
      EvidenceLasts(st, scope, calls, since, sender, i, n - 1);
      StepKeepsEvidence(prev, scope, calls[n-1], sender, calls[i].op.id, calls[i].now);
    }
  }

  /** Two permits for one event and sender are more than eight days apart, over
      every run with a clock that does not go back, whatever crashes, failed
      writes, reopenings and evictions lie between them. */
  lemma ChargedOnce(st: Store, scope: Scope, calls: seq<Call>, since: u64, sender: string, i: nat, j: nat)
    requires OrderlyStore(st, since) && ClockOrdered(calls) && forall k | 0 <= k < |calls| :: since <= calls[k].now
    requires i < j < |calls|
    requires PermitTo(calls[i], AnswerAt(st, scope, calls, i), sender)
    requires PermitTo(calls[j], AnswerAt(st, scope, calls, j), sender)
    requires calls[i].op.id == calls[j].op.id
    ensures calls[j].now - calls[i].now > CHARGE_EVIDENCE_RETENTION_SECS
  {
    hide Step, OrderlyStore, StoreEvidence;
    if calls[j].now - calls[i].now <= CHARGE_EVIDENCE_RETENTION_SECS {
      EvidenceLasts(st, scope, calls, since, sender, i, j);
      RunOrderly(st, scope, calls, since, j);
      var prev := Run(st, scope, calls, j);
      CreditOnArrival(prev, sender, calls[j-1].now, calls[j].now, U64_MAX);
      StepKeepsEvidence(prev, scope, calls[j], sender, calls[i].op.id, calls[i].now);
    }
  }
}
