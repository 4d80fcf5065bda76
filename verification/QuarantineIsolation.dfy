/** Senders and each other: over whole runs no traffic of others changes the permits a
    sender will find, in memory or on disk. What others can do is fill the policy table. */
module QuarantineIsolation {
  import opened Common
  import opened Facts
  import opened QuarantineModel
  import opened QuarantineMachine
  import opened QuarantineRate

  /** The permits `sender` would find in this snapshot at time `later`. */
  function PermitsIn(s: Snapshot, sender: string, later: u64): nat { BucketOf(s.policies, sender, later).permits }

  /** The call is not a decision about `sender`. */
  predicate OfOthers(call: Call, sender: string) {
    call.op.PolicyOp? ==> HexKey(call.op.envelope.from) != sender
  }

  /** Each snapshot now holds what one of them held before. */
  predicate SamePermits(st: Store, st': Store, sender: string, later: u64) {
    PermitsIn(st'.mem, sender, later) in {PermitsIn(st.mem, sender, later), PermitsIn(st.disk, sender, later)}
    && PermitsIn(st'.disk, sender, later) in {PermitsIn(st.mem, sender, later), PermitsIn(st.disk, sender, later)}
  }

  lemma StepLeavesOthers(st: Store, scope: Scope, call: Call, sender: string, later: u64)
    requires OrderlyStore(st, call.now) && call.now <= later && OfOthers(call, sender)
    ensures SamePermits(st, Step(st, scope, call).0, sender, later)
  {
    hide Step, ApplyPolicy, BucketOf, Orderly;
    if call.op.PolicyOp? {
      PolicyStep(st, scope, call);
      var PolicyOp(id, observedBy, envelope, size) := call.op;
      if ApplyPolicy(st.mem, scope, id, observedBy, envelope, size, call.now).Ok? {
        OtherSendersUnaffected(st.mem, scope, id, observedBy, envelope, size, call.now, sender, later);
      }
    } else {
      OtherOpsKeepPolicies(st, scope, call);
    }
  }

  /** Over every run of calls that decide nothing about `sender`, with failed writes,
      crashes and reopenings, memory and file each give the sender the permits that one of
      them gave at the start; so exactly the same permits when they agreed. */
  lemma {:induction false} RunLeavesOthers(st: Store, scope: Scope, calls: seq<Call>, since: u64, sender: string,
                                           later: u64, n: nat)
    requires OrderlyStore(st, since) && ClockOrdered(calls) && n <= |calls|
    requires forall i | 0 <= i < |calls| :: since <= calls[i].now <= later && OfOthers(calls[i], sender)
    ensures SamePermits(st, Run(st, scope, calls, n), sender, later)
  {
    hide Step, OrderlyStore, PermitsIn;
    if n > 0 {
      RunLeavesOthers(st, scope, calls, since, sender, later, n - 1);
      RunOrderly(st, scope, calls, since, n - 1);
      var prev := Run(st, scope, calls, n - 1);
      CreditOnArrival(prev, sender, if n == 1 then since else calls[n-2].now, calls[n-1].now, U64_MAX);
      StepLeavesOthers(prev, scope, calls[n-1], sender, later);
    }
  }

  // ----- the policy table -----

  lemma {:induction false} IdleExists(s: Snapshot, k: nat)
    requires k <= |s.policies|
    ensures IdlePolicy(s, k).None? <==> forall i | 0 <= i < k :: !Removable(s, s.policies[i])
  {
    if k > 0 { IdleExists(s, k - 1); }
  }

  /** A sender without policy finds no place, and is refused with Capacity, exactly when
      the table is full of policies that are in use: spent permits, fresh evidence or a
      stored record. This is the one way in which others keep a new sender out. */
  lemma FullTableRefuses(s: Snapshot, scope: Scope, id: string, observedBy: seq<string>, envelope: Envelope,
                         size: Option<nat>, now: u64)
    requires ValidEventId(id) && forall r | r in s.records :: r.id != id
    requires var m := s.(policies := MaintainPolicies(s.policies, now));
             Position(m.policies, HasSender(HexKey(envelope.from))).None?
    ensures var m := s.(policies := MaintainPolicies(s.policies, now));
            var full := |m.policies| >= MAX_POLICY_SENDERS && forall i | 0 <= i < |m.policies| :: !Removable(m, m.policies[i]);
            && (full <==> EnsurePolicy(m, scope, HexKey(envelope.from), now).Err?)
            && (full ==> ApplyPolicy(s, scope, id, observedBy, envelope, size, now) == Err(Capacity))
  {
    hide MaintainPolicies, DecideCharge, Removable;
    var m := s.(policies := MaintainPolicies(s.policies, now));
    IdleExists(m, |m.policies|);
  }

  /** The policy that makes room for a new sender is, of those not in use, the one idle
      longest, and the first of these. */
  lemma {:induction false} EvictsIdlest(s: Snapshot, n: nat)
    requires n <= |s.policies| && IdlePolicy(s, n).Some?
    ensures var k := IdlePolicy(s, n).value;
            && Removable(s, s.policies[k])
            && (forall j | 0 <= j < n && Removable(s, s.policies[j]) :: s.policies[k].lastActivityAt <= s.policies[j].lastActivityAt)
            && (forall j | 0 <= j < k && Removable(s, s.policies[j]) :: s.policies[k].lastActivityAt < s.policies[j].lastActivityAt)
  {
    hide Removable;
    IdleExists(s, n - 1);
    if IdlePolicy(s, n - 1).Some? { EvictsIdlest(s, n - 1); }
  }

  /** A policy is not in use when it has all eight permits, no evidence, and its sender no
      stored record. A place in the table costs at most the idlest such policy. */
  lemma PlaceExactly(s: Snapshot, scope: Scope, sender: string, now: u64)
    requires Position(s.policies, HasSender(sender)).None? && EnsurePolicy(s, scope, sender, now).Ok?
    ensures var (t, k) := EnsurePolicy(s, scope, sender, now).value;
            && t == s.(policies := t.policies) && k == |t.policies| - 1
            && t.policies[k] == Policy(SCHEMA_VERSION, scope, sender, 8, now, now, [])
            && (if |s.policies| < 1024 then t.policies[..k] == s.policies
                else exists i | 0 <= i < |s.policies| ::
                  && t.policies[..k] == s.policies[..i] + s.policies[i+1..]
                  && s.policies[i].permits == 8 && s.policies[i].charges == []
                  && (forall r | r in s.records :: r.sender != s.policies[i].sender)
                  && forall j | 0 <= j < |s.policies| && Removable(s, s.policies[j]) ::
                       s.policies[i].lastActivityAt <= s.policies[j].lastActivityAt)
  {
    if |s.policies| >= MAX_POLICY_SENDERS { EvictsIdlest(s, |s.policies|); }
  }
}
