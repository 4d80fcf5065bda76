/** What receive passes guarantee: what they acknowledge is safe, and the calls they
    make to the quarantine repository keep every rule its own guarantees rest on. */
module ReceiveSafety {
  import opened Common
  import opened Facts
  import opened QuarantineModel
  import opened QuarantineValidation
  import opened QuarantineInvariant
  import opened QuarantineMachine
  import opened QuarantineRate
  import opened QuarantineRetention
  import Lookup
  import Router
  import opened Receive

  // ----- passes are runs of the repository -----

  function RunAll(st: Store, scope: Scope, calls: seq<Call>): Store { Run(st, scope, calls, |calls|) }

  /** Each call is one the repository's guarantees allow for: a new id is short, is
      its sender's and has no tombstone; a retried one was just chosen. */
  ghost predicate Proper(st: Store, scope: Scope, owner: Ownership, calls: seq<Call>) {
    forall i | 0 <= i < |calls| ::
      && Admissible(Run(st, scope, calls, i).mem, owner, calls[i].op)
      && Driven(Run(st, scope, calls, i), scope, calls[i])
  }

  lemma {:induction false} RunPrefix(st: Store, scope: Scope, a: seq<Call>, b: seq<Call>, n: nat)
    requires n <= |a|
    ensures Run(st, scope, a + b, n) == Run(st, scope, a, n)
  {
    hide Step;
    if n > 0 { RunPrefix(st, scope, a, b, n - 1); }
  }

  lemma {:induction false} RunConcat(st: Store, scope: Scope, a: seq<Call>, b: seq<Call>, n: nat)
    requires n <= |b|
    ensures Run(st, scope, a + b, |a| + n) == Run(RunAll(st, scope, a), scope, b, n)
  {
    hide Step;
    if n == 0 {
      RunPrefix(st, scope, a, b, |a|);
    } else {
      RunConcat(st, scope, a, b, n - 1);
    }
  }

  /** Proper runs compose. */
  lemma ProperConcat(st: Store, scope: Scope, owner: Ownership, a: seq<Call>, b: seq<Call>)
    requires Proper(st, scope, owner, a) && Proper(RunAll(st, scope, a), scope, owner, b)
    ensures Proper(st, scope, owner, a + b)
    ensures RunAll(st, scope, a + b) == RunAll(RunAll(st, scope, a), scope, b)
  {
    hide Admissible, Driven, Run;
    forall i | 0 <= i < |a + b|
      ensures Admissible(Run(st, scope, a + b, i).mem, owner, (a + b)[i].op)
      ensures Driven(Run(st, scope, a + b, i), scope, (a + b)[i])
    {
      if i < |a| {
        RunPrefix(st, scope, a, b, i);
      } else {
        RunConcat(st, scope, a, b, i - |a|);
      }
    }
    RunConcat(st, scope, a, b, |b|);
  }

  lemma OneCall(st: Store, scope: Scope, owner: Ownership, call: Call)
    requires Admissible(st.mem, owner, call.op) && Driven(st, scope, call)
    ensures Proper(st, scope, owner, [call]) && RunAll(st, scope, [call]) == Step(st, scope, call).0
  {
    hide Step, Admissible, Driven;
    assert Run(st, scope, [call], 0) == st;
  }

  lemma TwoCalls(st: Store, scope: Scope, owner: Ownership, x: Call, y: Call)
    requires Admissible(st.mem, owner, x.op) && Driven(st, scope, x)
    requires Admissible(Step(st, scope, x).0.mem, owner, y.op) && Driven(Step(st, scope, x).0, scope, y)
    ensures Proper(st, scope, owner, [x, y])
    ensures RunAll(st, scope, [x, y]) == Step(Step(st, scope, x).0, scope, y).0
  {
    hide Step, Admissible, Driven, Proper;
    OneCall(st, scope, owner, x);
    OneCall(Step(st, scope, x).0, scope, owner, y);
    ProperConcat(st, scope, owner, [x], [y]);
    assert [x] + [y] == [x, y];
  }

  /** Ids on the wire are short and each belongs to one sender. */
  ghost predicate Identified(owner: Ownership, item: Inbound) {
    item.Delivered? ==> |item.id| <= MAX_WIRE_ID_LEN && owner(item.id) == HexKey(item.envelope.from)
  }

  ghost predicate IdentifiedPass(owner: Ownership, p: Pass) {
    forall item | item in p.items :: Identified(owner, item)
  }

  /** A policy decision leaves the tombstones alone, so an id that had none before it
      has none after it. */
  lemma PolicyLeavesTombstones(st: Store, scope: Scope, item: Inbound, k: Conditions, now: u64)
    requires item.Delivered?
    ensures Step(st, scope, PolicyCall(item, k, now)).0.mem.tombstones == st.mem.tombstones
  {
    hide ApplyPolicy;
    PolicyKeepsTombstones(st.mem, scope, item.id, item.observedBy, item.envelope, k.size, now);
  }

  lemma ItemIsProper(scope: Scope, c: Router.Capsule, owner: Ownership, w: World, item: Inbound, k: Conditions, now: u64)
    requires Identified(owner, item)
    ensures Proper(w.store, scope, owner, ItemCalls(scope, c, w, item, k, now))
    ensures RunAll(w.store, scope, ItemCalls(scope, c, w, item, k, now)) == ReceiveItem(scope, c, w, item, k, now).0.store
  {
    hide Step, Router.Route, Proper, Run;
    if item.Refused? || HasTombstone(w.store.mem, item.id) {
      NoCalls(w.store, scope, owner);
    } else {
      PolicyLeavesTombstones(w.store, scope, item, k, now);
      var x, y := PolicyCall(item, k, now), StoreCall(item, k, now);
      OneCall(w.store, scope, owner, x);
      TwoCalls(w.store, scope, owner, x, y);
    }
  }

  lemma NoCalls(st: Store, scope: Scope, owner: Ownership)
    ensures Proper(st, scope, owner, []) && RunAll(st, scope, []) == st
  {
  }

  lemma RecoverIsProper(scope: Scope, c: Router.Capsule, owner: Ownership, w: World, k: RecoveryConditions, now: u64)
    ensures Proper(w.store, scope, owner, RecoverCalls(scope, c, w, k, now))
    ensures RunAll(w.store, scope, RecoverCalls(scope, c, w, k, now)) == Recover(scope, c, w, k, now).0.store
  {
    hide Step, Router.Route, Proper, Run, NextEligible;
    var expire := Call(ExpireOp, now, k.expireFault);
    OneCall(w.store, scope, owner, expire);
    var (st, a) := Step(w.store, scope, expire);
    var next := NextEligible(st.mem, scope, now);
    if !a.Failed? && next.Ok? && next.value.Some? {
      var routed := Router.Route(c, w.ledger, next.value.value.envelope, k.turn).1;
      TwoCalls(w.store, scope, owner, expire, MarkCall(next.value.value.id, routed, k, now));
    }
  }

  lemma {:induction false} BatchIsProper(
    scope: Scope, c: Router.Capsule, owner: Ownership, w: World, items: seq<Inbound>, ks: seq<Conditions>, now: u64, n: nat)
    requires n <= |items| == |ks| && forall item | item in items :: Identified(owner, item)
    ensures Proper(w.store, scope, owner, BatchCalls(scope, c, w, items, ks, now, n))
    ensures RunAll(w.store, scope, BatchCalls(scope, c, w, items, ks, now, n))
         == ReceiveFirst(scope, c, w, items, ks, now, n).store
  {
    hide Proper, Run, RunAll, ReceiveItem, ItemCalls, Identified;
    if n == 0 {
      NoCalls(w.store, scope, owner);
    } else {
      BatchIsProper(scope, c, owner, w, items, ks, now, n - 1);
      var before := ReceiveFirst(scope, c, w, items, ks, now, n - 1);
      ItemIsProper(scope, c, owner, before, items[n-1], ks[n-1], now);
      ProperConcat(w.store, scope, owner, BatchCalls(scope, c, w, items, ks, now, n - 1),
                   ItemCalls(scope, c, before, items[n-1], ks[n-1], now));
    }
  }

  lemma PassIsProper(scope: Scope, c: Router.Capsule, owner: Ownership, w: World, p: Pass)
    requires Matched(p) && IdentifiedPass(owner, p)
    ensures Proper(w.store, scope, owner, PassCalls(scope, c, w, p))
    ensures RunAll(w.store, scope, PassCalls(scope, c, w, p)) == DoPass(scope, c, w, p).store
  {
    hide Step, Proper, RunAll, Recover, RecoverCalls, BatchCalls, ReceiveFirst;
    OneCall(w.store, scope, owner, ReopenCall(p.now));
    var (st, a) := Step(w.store, scope, ReopenCall(p.now));
    if !a.Failed? {
      var ready := World(st, w.ledger);
      var first, more := [ReopenCall(p.now)], RecoverCalls(scope, c, ready, p.recovery, p.now);
      RecoverIsProper(scope, c, owner, ready, p.recovery, p.now);
      ProperConcat(w.store, scope, owner, first, more);
      var (recovered, error) := Recover(scope, c, ready, p.recovery, p.now);
      if error.None? {
        BatchIsProper(scope, c, owner, recovered, p.items, p.conditions, p.now, |p.items|);
        ProperConcat(w.store, scope, owner, first + more,
                     BatchCalls(scope, c, recovered, p.items, p.conditions, p.now, |p.items|));
      }
    }
  }

  /** Any sequence of receive passes is a proper run of the repository. */
  lemma {:induction false} PassesAreProper(scope: Scope, c: Router.Capsule, owner: Ownership, w: World, ps: seq<Pass>)
    requires forall p | p in ps :: Matched(p) && IdentifiedPass(owner, p)
    ensures Proper(w.store, scope, owner, AllCalls(scope, c, w, ps))
    ensures RunAll(w.store, scope, AllCalls(scope, c, w, ps)) == DoPasses(scope, c, w, ps).store
  {
    hide Proper, RunAll, DoPass, PassCalls;
    if ps == [] {
      NoCalls(w.store, scope, owner);
    } else {
      var less := ps[..|ps|-1];
      PassesAreProper(scope, c, owner, w, less);
      PassIsProper(scope, c, owner, DoPasses(scope, c, w, less), ps[|ps|-1]);
      ProperConcat(w.store, scope, owner, AllCalls(scope, c, w, less),
                   PassCalls(scope, c, DoPasses(scope, c, w, less), ps[|ps|-1]));
    }
  }

  /** So, from an empty quarantine, through any number of passes with faults anywhere:
      both snapshots stay valid, no call ever answers Corrupt, and no delivery is
      attempted more than 292 times or kept waiting past its expiry. */
  lemma PassesAreSafe(scope: Scope, c: Router.Capsule, owner: Ownership, ledger: seq<Event>, ps: seq<Pass>)
    requires ValidScope(scope) && forall p | p in ps :: Matched(p) && IdentifiedPass(owner, p)
    ensures var w := World(Store(EmptySnapshot(scope), EmptySnapshot(scope)), ledger);
            var calls, end := AllCalls(scope, c, w, ps), DoPasses(scope, c, w, ps).store;
            && SoundStore(end, scope, owner)
            && (forall i | 0 <= i < |calls| :: AnswerAt(w.store, scope, calls, i) != Failed(Corrupt))
            && (forall r | r in end.mem.records :: r.eligibleAfter <= r.expiresAt && r.attempts <= MAX_ATTEMPTS)
  {
    hide Run, SoundStore, AnswerAt, AllCalls, DoPasses, Admissible, Driven, IdentifiedPass;
    var w := World(Store(EmptySnapshot(scope), EmptySnapshot(scope)), ledger);
    var calls := AllCalls(scope, c, w, ps);
    PassesAreProper(scope, c, owner, w, ps);
    EmptyIsSound(scope, owner);
    NeverCorrupt(w.store, scope, owner, calls, |calls|);
    BackoffBound(w.store, scope, calls, |calls|);
  }

  // ----- recovery -----

  /** The adapter's guard refuses envelopes for other recipients before they are
      delivered, so what is delivered is addressed to the endpoint. */
  predicate Guarded(scope: Scope, item: Inbound) {
    item.Delivered? ==> Addressed(scope, item.envelope.to)
  }

  predicate GuardedPass(scope: Scope, p: Pass) { forall item | item in p.items :: Guarded(scope, item) }

  /** What the calls bring into the store is addressed to the endpoint. */
  predicate CallsGuarded(scope: Scope, calls: seq<Call>) {
    forall i | 0 <= i < |calls| && (calls[i].op.QuarantineOp? || calls[i].op.PolicyOp?) ::
      Addressed(scope, calls[i].op.envelope.to)
  }

  lemma CallsGuardedConcat(scope: Scope, a: seq<Call>, b: seq<Call>)
    requires CallsGuarded(scope, a) && CallsGuarded(scope, b)
    ensures CallsGuarded(scope, a + b)
  {
  }

  lemma {:induction false} BatchGuarded(
    scope: Scope, c: Router.Capsule, w: World, items: seq<Inbound>, ks: seq<Conditions>, now: u64, n: nat)
    requires n <= |items| == |ks| && forall item | item in items :: Guarded(scope, item)
    ensures CallsGuarded(scope, BatchCalls(scope, c, w, items, ks, now, n))
  {
    hide Step, Router.Route, ReceiveFirst, Addressed;
    if n > 0 {
      BatchGuarded(scope, c, w, items, ks, now, n - 1);
      assert items[n-1] in items;
      CallsGuardedConcat(scope, BatchCalls(scope, c, w, items, ks, now, n - 1),
                         ItemCalls(scope, c, ReceiveFirst(scope, c, w, items, ks, now, n - 1), items[n-1], ks[n-1], now));
    }
  }

  lemma PassGuarded(scope: Scope, c: Router.Capsule, w: World, p: Pass)
    requires Matched(p) && GuardedPass(scope, p)
    ensures CallsGuarded(scope, PassCalls(scope, c, w, p))
  {
    hide Step, Router.Route, ReceiveFirst, NextEligible, BatchCalls, Addressed;
    var ready := World(Step(w.store, scope, ReopenCall(p.now)).0, w.ledger);
    var recovered := Recover(scope, c, ready, p.recovery, p.now).0;
    BatchGuarded(scope, c, recovered, p.items, p.conditions, p.now, |p.items|);
  }

  lemma {:induction false} AllGuarded(scope: Scope, c: Router.Capsule, w: World, ps: seq<Pass>)
    requires forall p | p in ps :: Matched(p) && GuardedPass(scope, p)
    ensures CallsGuarded(scope, AllCalls(scope, c, w, ps))
  {
    hide PassCalls, DoPasses, CallsGuarded, GuardedPass;
    if ps == [] {
      NoneGuarded(scope);
    } else {
      var less := ps[..|ps|-1];
      AllGuarded(scope, c, w, less);
      PassGuarded(scope, c, DoPasses(scope, c, w, less), ps[|ps|-1]);
      CallsGuardedConcat(scope, AllCalls(scope, c, w, less), PassCalls(scope, c, DoPasses(scope, c, w, less), ps[|ps|-1]));
    }
  }

  lemma NoneGuarded(scope: Scope)
    ensures CallsGuarded(scope, [])
  {
  }

  /** Recovery of a sound store whose records are all addressed here never ends in Corrupt. */
  lemma RecoverSafely(scope: Scope, c: Router.Capsule, owner: Ownership, w: World, k: RecoveryConditions, now: u64)
    requires ValidScope(scope) && SoundStore(w.store, scope, owner) && AllStore(w.store, AddressedRecord(scope))
    ensures Recover(scope, c, w, k, now).1 != Some(Corrupt)
  {
    hide Step, Router.Route, NextEligible, SoundStore, AllStore;
    var expire := Call(ExpireOp, now, k.expireFault);
    var (st, a) := Step(w.store, scope, expire);
    StepSound(w.store, scope, owner, expire);
    RecoveryNeverFails(w.store, scope, [expire], 1, now);
    assert Run(w.store, scope, [expire], 0) == w.store;
    var next := NextEligible(st.mem, scope, now);
    if !a.Failed? && next.value.Some? {
      var routed := Router.Route(c, w.ledger, next.value.value.envelope, k.turn).1;
      StepSound(st, scope, owner, MarkCall(next.value.value.id, routed, k, now));
    }
  }

  /** After any number of passes over guarded deliveries the next pass opens the
      repository, and its recovery never ends in Corrupt. */
  lemma RecoveryIsSafe(scope: Scope, c: Router.Capsule, owner: Ownership, ledger: seq<Event>, ps: seq<Pass>,
                       k: RecoveryConditions, now: u64)
    requires ValidScope(scope) && forall p | p in ps :: Matched(p) && IdentifiedPass(owner, p) && GuardedPass(scope, p)
    ensures var w := World(Store(EmptySnapshot(scope), EmptySnapshot(scope)), ledger);
            var end := DoPasses(scope, c, w, ps);
            var (st, a) := Step(end.store, scope, ReopenCall(now));
            a == Done && Recover(scope, c, World(st, end.ledger), k, now).1 != Some(Corrupt)
  {
    hide Step, Run, SoundStore, AllStore, AllCalls, DoPasses, Recover, IdentifiedPass, GuardedPass, AnswerAt;
    var w := World(Store(EmptySnapshot(scope), EmptySnapshot(scope)), ledger);
    var end, calls := DoPasses(scope, c, w, ps), AllCalls(scope, c, w, ps);
    PassesAreProper(scope, c, owner, w, ps);
    PassesAreSafe(scope, c, owner, ledger, ps);
    AllGuarded(scope, c, w, ps);
    NothingStored(scope);
    RecoveryNeverFails(w.store, scope, calls, |calls|, now);
    ReopenedIsDisk(end.store, scope, owner, now);
    RecoverSafely(scope, c, owner, World(Step(end.store, scope, ReopenCall(now)).0, end.ledger), k, now);
  }

  lemma NothingStored(scope: Scope)
    ensures AllStore(Store(EmptySnapshot(scope), EmptySnapshot(scope)), AddressedRecord(scope))
  {
  }

  lemma ReopenedIsDisk(st: Store, scope: Scope, owner: Ownership, now: u64)
    requires SoundStore(st, scope, owner) && AllStore(st, AddressedRecord(scope))
    ensures var (st', a) := Step(st, scope, ReopenCall(now));
            a == Done && SoundStore(st', scope, owner) && AllStore(st', AddressedRecord(scope))
  {
    hide Sound, All;
    ReopenAccepts(st.disk, scope, owner);
  }

  // ----- the rate limit over passes -----

  /** Every call of a pass reads the pass's clock value. */
  lemma {:induction false} BatchOnTime(
    scope: Scope, c: Router.Capsule, w: World, items: seq<Inbound>, ks: seq<Conditions>, now: u64, n: nat)
    requires n <= |items| == |ks|
    ensures forall call | call in BatchCalls(scope, c, w, items, ks, now, n) :: call.now == now
  {
    hide Step, Router.Route, ReceiveFirst;
    if n > 0 { BatchOnTime(scope, c, w, items, ks, now, n - 1); }
  }

  lemma PassOnTime(scope: Scope, c: Router.Capsule, w: World, p: Pass)
    requires Matched(p)
    ensures forall call | call in PassCalls(scope, c, w, p) :: call.now == p.now
  {
    hide Step, Router.Route, ReceiveFirst, NextEligible, BatchCalls;
    var ready := World(Step(w.store, scope, ReopenCall(p.now)).0, w.ledger);
    var recovered := Recover(scope, c, ready, p.recovery, p.now).0;
    BatchOnTime(scope, c, recovered, p.items, p.conditions, p.now, |p.items|);
  }

  /** The passes start at non-decreasing clock values. */
  ghost predicate InTime(ps: seq<Pass>) {
    forall i, j | 0 <= i <= j < |ps| :: ps[i].now <= ps[j].now
  }

  lemma {:induction false} CallsOrdered(scope: Scope, c: Router.Capsule, w: World, ps: seq<Pass>)
    requires InTime(ps) && forall p | p in ps :: Matched(p)
    ensures ClockOrdered(AllCalls(scope, c, w, ps))
    ensures forall call | call in AllCalls(scope, c, w, ps) :: ps != [] && call.now <= ps[|ps|-1].now
  {
    hide PassCalls, DoPasses;
    if ps != [] {
      var less := ps[..|ps|-1];
      CallsOrdered(scope, c, w, less);
      PassOnTime(scope, c, DoPasses(scope, c, w, less), ps[|ps|-1]);
      var a, b := AllCalls(scope, c, w, less), PassCalls(scope, c, DoPasses(scope, c, w, less), ps[|ps|-1]);
      forall i | 0 <= i < |a| ensures a[i].now <= ps[|ps|-1].now { assert a[i] in a; }
      forall i | 0 <= i < |b| ensures b[i].now == ps[|ps|-1].now { assert b[i] in b; }
    }
  }

  /** Through any number of passes at non-decreasing times, one sender is let through to
      the router at most 8 + ceil((end - start) / 15) times in any window. */
  lemma PassesWithinRate(scope: Scope, c: Router.Capsule, ledger: seq<Event>, ps: seq<Pass>, sender: string, start: u64, end: u64)
    requires InTime(ps) && (forall p | p in ps :: Matched(p)) && start <= end
    ensures var w := World(Store(EmptySnapshot(scope), EmptySnapshot(scope)), ledger);
            var calls := AllCalls(scope, c, w, ps);
            Permits(w.store, scope, calls, sender, start, end, |calls|) <= SENDER_POLICY_BURST + Ceil(end - start)
  {
    hide AllCalls, Permits, ClockOrdered;
    var w := World(Store(EmptySnapshot(scope), EmptySnapshot(scope)), ledger);
    CallsOrdered(scope, c, w, ps);
    RateBound(w.store, scope, AllCalls(scope, c, w, ps), 0, sender, start, end);
  }

  // ----- what an answer to the transport means -----

  /** A stored delivery, in memory and on disk. */
  ghost predicate Held(st: Store, id: string) {
    exists expiry: u64 :: Stored(st.mem, id, expiry) && Stored(st.disk, id, expiry)
  }

  lemma AppendStores(s: Snapshot, scope: Scope, id: string, observedBy: seq<string>, envelope: Envelope,
                     reason: string, size: Option<nat>, now: u64)
    ensures var res := AppendRecord(s, scope, id, observedBy, envelope, reason, size, now);
            res.Ok? ==> exists r | r in res.value.records :: r.id == id
  {
    var res := AppendRecord(s, scope, id, observedBy, envelope, reason, size, now);
    if res.Ok? {
      match Position(s.records, HasRecordId(id))
      case Some(k) => assert res.value.records[k] in res.value.records;
      case None =>
        var r := NewRecord(scope, id, observedBy, envelope, reason, size.value, now);
        PushSortMembers(s.records, r, RecordLe);
        assert r in res.value.records;
    }
  }

  lemma PolicyStores(s: Snapshot, scope: Scope, id: string, observedBy: seq<string>, envelope: Envelope,
                     size: Option<nat>, now: u64)
    ensures var res := ApplyPolicy(s, scope, id, observedBy, envelope, size, now);
            res.Ok? && res.value.1 == Quarantined ==> exists r | r in res.value.0.records :: r.id == id
  {
    hide AppendRecord, EnsurePolicy;
    var m := s.(policies := MaintainPolicies(s.policies, now));
    AppendStores(m, scope, id, observedBy, envelope, RATE_LIMITED, size, now);
    var e := EnsurePolicy(m, scope, HexKey(envelope.from), now);
    if e.Ok? { AppendStores(e.value.0, scope, id, observedBy, envelope, RATE_LIMITED, size, now); }
  }

  /** An item answered Quarantined is in the snapshot just written. */
  lemma QuarantinedIsHeld(scope: Scope, c: Router.Capsule, w: World, item: Inbound, k: Conditions, now: u64)
    requires ReceiveItem(scope, c, w, item, k, now).1 == Router.Quarantined
    ensures Held(ReceiveItem(scope, c, w, item, k, now).0.store, item.id)
  {
    hide AppendRecord, ApplyPolicy, Router.Route;
    RouteAnswers(c, w.ledger, item.envelope, k.turn);
    var (st, a) := Step(w.store, scope, PolicyCall(item, k, now));
    PolicyStores(w.store.mem, scope, item.id, item.observedBy, item.envelope, k.size, now);
    AppendStores(st.mem, scope, item.id, item.observedBy, item.envelope, ROUTE_RETRY, k.size, now);
    var end := ReceiveItem(scope, c, w, item, k, now).0.store;
    assert end.mem == end.disk;
    var r :| r in end.mem.records && r.id == item.id;
    assert Stored(end.mem, item.id, r.expiresAt) && Stored(end.disk, item.id, r.expiresAt);
  }

  /** The router itself only consumes or asks to retry. */
  lemma RouteAnswers(c: Router.Capsule, events: seq<Event>, m: Envelope, t: Router.Turn)
    ensures Router.Route(c, events, m, t).1 in {Router.Consumed, Router.Retry}
  {
    hide Lookup.ShouldSkip, Router.Project, Router.Checked;
  }

  lemma StepKeepsHeld(st: Store, scope: Scope, call: Call, id: string)
    requires call.op.PolicyOp? || call.op.QuarantineOp?
    requires Held(st, id)
    ensures Held(Step(st, scope, call).0, id)
  {
    hide AppendRecord, ApplyPolicy, Validate, Stored;
    var expiry: u64 :| Stored(st.mem, id, expiry) && Stored(st.disk, id, expiry);
    if call.op.PolicyOp? {
      PolicyKeepsStored(st.mem, scope, call.op.id, call.op.observedBy, call.op.envelope, call.op.size, call.now, id, expiry);
    } else {
      AppendKeepsStored(st.mem, scope, call.op.id, call.op.observedBy, call.op.envelope, call.op.reason, call.op.size,
                        call.now, id, expiry);
    }
    var st' := Step(st, scope, call).0;
    assert Stored(st'.mem, id, expiry) && Stored(st'.disk, id, expiry);
  }

  /** Later items of the batch take away neither a stored delivery nor a ledger event. */
  lemma ItemKeeps(scope: Scope, c: Router.Capsule, w: World, item: Inbound, k: Conditions, now: u64)
    ensures var end := ReceiveItem(scope, c, w, item, k, now).0;
            && Lookup.Extends(end.ledger, w.ledger)
            && forall id :: Held(w.store, id) ==> Held(end.store, id)
  {
    hide Step, Router.Route, Held;
    if item.Delivered? {
      Router.RouteExtends(c, w.ledger, item.envelope, k.turn);
      var st := Step(w.store, scope, PolicyCall(item, k, now)).0;
      forall id | Held(w.store, id) ensures Held(st, id) {
        StepKeepsHeld(w.store, scope, PolicyCall(item, k, now), id);
      }
      forall id | Held(st, id) ensures Held(Step(st, scope, StoreCall(item, k, now)).0, id) {
        StepKeepsHeld(st, scope, StoreCall(item, k, now), id);
      }
    }
  }

  lemma {:induction false} BatchKeeps(
    scope: Scope, c: Router.Capsule, w: World, items: seq<Inbound>, ks: seq<Conditions>, now: u64, i: nat, n: nat)
    requires i <= n <= |items| == |ks|
    ensures var a, b := ReceiveFirst(scope, c, w, items, ks, now, i), ReceiveFirst(scope, c, w, items, ks, now, n);
            && Lookup.Extends(b.ledger, a.ledger)
            && forall id :: Held(a.store, id) ==> Held(b.store, id)
  {
    hide ReceiveItem, Held;
    if i < n {
      BatchKeeps(scope, c, w, items, ks, now, i, n - 1);
      var a, b := ReceiveFirst(scope, c, w, items, ks, now, i), ReceiveFirst(scope, c, w, items, ks, now, n - 1);
      ItemKeeps(scope, c, b, items[n-1], ks[n-1], now);
      Lookup.ExtendsTransitive(a.ledger, b.ledger, ReceiveFirst(scope, c, w, items, ks, now, n).ledger);
    }
  }

  /** The item was handed to the router, which answered `d`. */
  predicate Routed(scope: Scope, c: Router.Capsule, w: World, item: Inbound, k: Conditions, now: u64, d: Disposition) {
    item.Delivered? && !HasTombstone(w.store.mem, item.id)
    && (var a := Step(w.store, scope, PolicyCall(item, k, now)).1; a.Decided? && a.decision != Quarantined)
    && Router.Route(c, w.ledger, item.envelope, k.turn).1 == d
  }

  /** The answers of one pass. Refused by the adapter exactly when it was; Quarantined
      only with the delivery stored on disk, there until the end of the batch; Consumed
      only with a tombstone or after the router consumed it; and what the router wants
      retried is Quarantined or stays Retry, never acknowledged otherwise. */
  lemma AnswersAreSafe(scope: Scope, c: Router.Capsule, w: World, items: seq<Inbound>, ks: seq<Conditions>, now: u64, i: nat)
    requires i < |items| == |ks|
    ensures var d := DispositionOf(scope, c, w, items, ks, now, i);
            var at, end := ReceiveFirst(scope, c, w, items, ks, now, i), ReceiveFirst(scope, c, w, items, ks, now, |items|);
            && (d == Router.AdapterRejected <==> items[i].Refused?)
            && (d == Router.Quarantined ==> Held(end.store, items[i].id))
            && (d == Router.Consumed <==>
                  items[i].Delivered? && (HasTombstone(at.store.mem, items[i].id)
                                          || Routed(scope, c, at, items[i], ks[i], now, Router.Consumed)))
            && (Routed(scope, c, at, items[i], ks[i], now, Router.Retry) ==> d == Router.Quarantined || d == Router.Retry)
  {
    hide Step, Router.Route, Held;
    var at := ReceiveFirst(scope, c, w, items, ks, now, i);
    if items[i].Delivered? { RouteAnswers(c, at.ledger, items[i].envelope, ks[i].turn); }
    if DispositionOf(scope, c, w, items, ks, now, i) == Router.Quarantined {
      QuarantinedIsHeld(scope, c, at, items[i], ks[i], now);
    }
    BatchKeeps(scope, c, w, items, ks, now, i + 1, |items|);
  }

  /** No acknowledged acceptance is lost: when an acceptance past the checks is answered
      with anything but Retry, its id has a tombstone, or the delivery is stored on disk
      at the end of the batch, or the ledger then holds its relationship. */
  lemma AcceptanceNotLost(scope: Scope, c: Router.Capsule, w: World, items: seq<Inbound>, ks: seq<Conditions>, now: u64, i: nat)
    requires i < |items| == |ks| && items[i].Delivered? && items[i].envelope.payload.InvitationAccepted?
    requires var at := ReceiveFirst(scope, c, w, items, ks, now, i);
             Router.Checked(c, at.ledger, items[i].envelope, ks[i].turn)
    requires DispositionOf(scope, c, w, items, ks, now, i) != Router.Retry
    ensures var at, end := ReceiveFirst(scope, c, w, items, ks, now, i), ReceiveFirst(scope, c, w, items, ks, now, |items|);
            var m := items[i].envelope;
            || HasTombstone(at.store.mem, items[i].id)
            || Held(end.store, items[i].id)
            || (var offer := Lookup.FindOffer(c.owner, ReceiveFirst(scope, c, w, items, ks, now, i + 1).ledger, m.payload.id, Some(false));
                && offer.Some?
                && Lookup.HasFact(end.ledger, RelationshipEstablished(Router.Establishes(c, m.from, m.payload, offer.value))))
  {
    hide Step, Router.Route, Held, Router.Checked, Lookup.HasFact, Router.Establishes, Lookup.FindOffer;
    AnswersAreSafe(scope, c, w, items, ks, now, i);
    var at, end := ReceiveFirst(scope, c, w, items, ks, now, i), ReceiveFirst(scope, c, w, items, ks, now, |items|);
    var m := items[i].envelope;
    if DispositionOf(scope, c, w, items, ks, now, i) == Router.Consumed && !HasTombstone(at.store.mem, items[i].id) {
      Router.AcceptanceEstablishes(c, at.ledger, m, ks[i].turn);
      var after := Router.Route(c, at.ledger, m, ks[i].turn).0;
      var offer := Lookup.FindOffer(c.owner, after, m.payload.id, Some(false)).value;
      BatchKeeps(scope, c, w, items, ks, now, i + 1, |items|);
      Lookup.HasFactGrows(after, end.ledger, RelationshipEstablished(Router.Establishes(c, m.from, m.payload, offer)), 0);
    }
  }
}
