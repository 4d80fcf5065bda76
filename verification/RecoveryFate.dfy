/** What becomes of stored deliveries: in one recovery, and through whole receive passes. */
module RecoveryFate {
  import opened Common
  import opened Facts
  import opened QuarantineModel
  import opened QuarantineValidation
  import opened QuarantineInvariant
  import opened QuarantineMachine
  import opened QuarantineRetention
  import opened QuarantineOutcomes
  import Lookup
  import Router
  import opened Receive
  import opened ReceiveSafety

  // ----- the choice -----

  /** `r` is due for another try, and no record due is before it: earlier eligibility,
      then earlier arrival, then smaller id. */
  ghost predicate Chosen(s: Snapshot, now: u64, r: Record) {
    && r in s.records && r.eligibleAfter <= now < r.expiresAt
    && forall q | q in s.records && q.eligibleAfter <= now < q.expiresAt ::
         || r.eligibleAfter < q.eligibleAfter
         || (r.eligibleAfter == q.eligibleAfter
             && (r.quarantinedAt < q.quarantinedAt || (r.quarantinedAt == q.quarantinedAt && StringLe(r.id, q.id))))
  }

  /** Recovery takes the chosen record when some record is due, and its sealed envelope. */
  lemma ChoiceExactly(s: Snapshot, scope: Scope, now: u64)
    requires NextEligible(s, scope, now).Ok?
    ensures var next := NextEligible(s, scope, now).value;
            && (next.None? <==> forall r | r in s.records :: !(r.eligibleAfter <= now < r.expiresAt))
            && (next.Some? ==> exists r :: Chosen(s, now, r) && next.value.id == r.id && next.value.envelope == r.ciphertext.envelope)
  {
    var k := EarliestEligible(s.records, |s.records|, now);
    EarliestIsFirst(s.records, |s.records|, now);
    if k.Some? {
      var r := s.records[k.value];
      forall q | q in s.records && Eligible(q, now)
        ensures || r.eligibleAfter < q.eligibleAfter
                || (r.eligibleAfter == q.eligibleAfter
                    && (r.quarantinedAt < q.quarantinedAt || (r.quarantinedAt == q.quarantinedAt && StringLe(r.id, q.id))))
      {
        var i :| 0 <= i < |s.records| && s.records[i] == q;
        assert !Earlier(q, r);
      }
      assert Chosen(s, now, r);
    } else {
      forall r | r in s.records ensures !Eligible(r, now) {
        var i :| 0 <= i < |s.records| && s.records[i] == r;
      }
    }
  }

  // ----- one recovery -----

  function Expired(scope: Scope, w: World, k: RecoveryConditions, now: u64): (Store, Answer) {
    Step(w.store, scope, Call(ExpireOp, now, k.expireFault))
  }

  /** A delivery that must be retried stays: one more attempt, written to disk, no tombstone. */
  ghost predicate KeptForRetry(before: Snapshot, after: Store, r: Record, now: u64) {
    && after.disk == after.mem && after.mem.tombstones == before.tombstones
    && exists r' :: TriedAgain(r, r', now) && Replaced(before.records, after.mem.records, r, r')
  }

  /** A delivery that was consumed is gone and leaves its trace, on disk too. */
  ghost predicate Buried(before: Snapshot, after: Store, r: Record, now: u64) {
    && after.disk == after.mem && (forall q :: q in after.mem.records <==> q in before.records && q != r)
    && exists t :: TraceOf(t, r, "consumed", now) && forall u :: u in after.mem.tombstones <==> u in before.tombstones || u == t
  }

  /** What the router's answer means for the chosen record: Retry keeps it for another
      attempt, Consumed buries it. The only failures are those of the write, and a full
      set of tombstones. */
  lemma RecoverExactly(scope: Scope, c: Router.Capsule, owner: Ownership, w: World, k: RecoveryConditions, now: u64, r: Record)
    requires ValidScope(scope) && SoundStore(w.store, scope, owner) && !Expired(scope, w, k, now).1.Failed?
    requires var st := Expired(scope, w, k, now).0;
             Chosen(st.mem, now, r) && NextEligible(st.mem, scope, now).Ok?
    ensures var st := Expired(scope, w, k, now).0;
            var (end, error) := Recover(scope, c, w, k, now);
            var (ledger, routed) := Router.Route(c, w.ledger, r.ciphertext.envelope, k.turn);
            && end.ledger == ledger
            && (routed == Router.Retry ==>
                  (error.None? <==> k.markFault == NoFault) && (error.None? ==> KeptForRetry(st.mem, end.store, r, now)))
            && (routed == Router.Consumed ==>
                  && (error.None? ==> Buried(st.mem, end.store, r, now))
                  && (error.Some? && k.markFault == NoFault ==> error.value == TombstoneCapacity))
  {
    hide Step, Router.Route, NextEligible, Chosen, SoundStore, TriedAgain, TraceOf;
    var st := Expired(scope, w, k, now).0;
    StepSound(w.store, scope, owner, Call(ExpireOp, now, k.expireFault));
    ChosenIsNext(st.mem, scope, owner, now, r);
    RouteAnswers(c, w.ledger, r.ciphertext.envelope, k.turn);
    var routed := Router.Route(c, w.ledger, r.ciphertext.envelope, k.turn).1;
    if routed == Router.Retry {
      RetryStep(st, scope, owner, r, k.markFault, now);
    } else {
      ConsumeStep(st, scope, owner, r, k.markFault, now);
    }
  }

  /** With nothing due, recovery only expires; with an unreadable choice it reports that. */
  lemma RecoverIdle(scope: Scope, c: Router.Capsule, w: World, k: RecoveryConditions, now: u64)
    ensures var (st, a) := Expired(scope, w, k, now);
            var end := Recover(scope, c, w, k, now);
            && (a.Failed? ==> end == (World(st, w.ledger), Some(a.error)))
            && (!a.Failed? && (forall r | r in st.mem.records :: !(r.eligibleAfter <= now < r.expiresAt)) ==>
                  end == (World(st, w.ledger), None))
            && (!a.Failed? && NextEligible(st.mem, scope, now).Err? ==>
                  end == (World(st, w.ledger), Some(NextEligible(st.mem, scope, now).error)))
  {
    hide Step, Router.Route;
    var s := Expired(scope, w, k, now).0.mem;
    var i := EarliestEligible(s.records, |s.records|, now);
    assert i.Some? ==> s.records[i.value] in s.records;
  }

  /** The chosen record is unique, so it is the one recovery takes. */
  lemma ChosenIsNext(s: Snapshot, scope: Scope, owner: Ownership, now: u64, r: Record)
    requires Sound(s, scope, owner) || exists st: Store :: st.mem == s && SoundStore(st, scope, owner)
    requires Chosen(s, now, r) && NextEligible(s, scope, now).Ok?
    ensures NextEligible(s, scope, now).value == Some(Recovered(r.id, r.ciphertext.envelope))
    ensures r in s.records && UniqueBy(s.records, RecordId)
  {
    hide NextEligible;
    ChoiceExactly(s, scope, now);
    var q :| Chosen(s, now, q) && NextEligible(s, scope, now).value.value.id == q.id
             && NextEligible(s, scope, now).value.value.envelope == q.ciphertext.envelope;
    if StringLe(r.id, q.id) && StringLe(q.id, r.id) { SameId(r.id, q.id); }
    UniqueMember(s.records, q, r, RecordId);
  }

  lemma {:induction false} SameId(a: string, b: string)
    requires StringLe(a, b) && StringLe(b, a)
    ensures a == b
  {
    if a != [] && b != [] {
      SameId(a[1..], b[1..]);
      assert a == [a[0]] + a[1..] && b == [b[0]] + b[1..];
    }
  }

  lemma RetryStep(st: Store, scope: Scope, owner: Ownership, r: Record, fault: Fault, now: u64)
    requires ValidScope(scope) && SoundStore(st, scope, owner) && r in st.mem.records && UniqueBy(st.mem.records, RecordId)
    ensures var (st', a) := Step(st, scope, Call(RetryOp(r.id), now, fault));
            && (!a.Failed? <==> fault == NoFault) && (!a.Failed? ==> KeptForRetry(st.mem, st', r, now))
  {
    hide Validate, TriedAgain, Sound, Retry;
    RetryExactly(st.mem, r.id, now, r);
    RetrySound(st.mem, scope, owner, r.id, now);
    ReopenAccepts(Retry(st.mem, r.id, now).value, scope, owner);
  }

  lemma ConsumeStep(st: Store, scope: Scope, owner: Ownership, r: Record, fault: Fault, now: u64)
    requires ValidScope(scope) && SoundStore(st, scope, owner) && r in st.mem.records && UniqueBy(st.mem.records, RecordId)
    ensures var (st', a) := Step(st, scope, Call(ConsumeOp(r.id), now, fault));
            && (!a.Failed? ==> Buried(st.mem, st', r, now))
            && (a.Failed? && fault == NoFault ==> a.error == TombstoneCapacity)
  {
    hide Validate, TraceOf, Retire, Sound;
    NoTraceYet(st.mem, scope, owner, r);
    RetireExactly(st.mem, r.id, CONSUMED, now, r);
    if Retire(st.mem, r.id, CONSUMED, now).Ok? {
      ConsumeSound(st.mem, scope, owner, r.id, now);
      ReopenAccepts(Retire(st.mem, r.id, CONSUMED, now).value, scope, owner);
    }
    RetireError(st.mem, r.id, r, now);
  }

  lemma NoTraceYet(s: Snapshot, scope: Scope, owner: Ownership, r: Record)
    requires Sound(s, scope, owner) && r in s.records
    ensures forall t | t in s.tombstones :: t.id != r.id
  {
  }

  lemma RetireError(s: Snapshot, id: string, r: Record, now: u64)
    requires r in s.records && r.id == id
    ensures var res := Retire(s, id, CONSUMED, now); res.Err? ==> res.error == TombstoneCapacity
  {
    FoundAt(s.records, r);
  }

  // ----- a whole pass -----

  /** Stored in memory and on disk. */
  ghost predicate Here(st: Store, id: string, expiry: u64) { Stored(st.mem, id, expiry) && Stored(st.disk, id, expiry) }

  /** A tombstone of this moment in memory and on disk. */
  ghost predicate Gone(st: Store, id: string, now: u64) {
    exists t :: t in st.mem.tombstones && t in st.disk.tombstones && t.id == id && t.terminalAt == now
  }

  lemma ExpireSettles(st: Store, scope: Scope, owner: Ownership, now: u64, fault: Fault, id: string, expiry: u64)
    requires ValidScope(scope) && SoundStore(st, scope, owner) && st.mem == st.disk && Stored(st.mem, id, expiry)
    ensures var (st', a) := Step(st, scope, Call(ExpireOp, now, fault));
            && (!a.Failed? ==> if expiry <= now then Gone(st', id, now) else Here(st', id, expiry))
            && (a.Failed? ==> Stored(st'.disk, id, expiry) || (expiry <= now && HasTombstone(st'.disk, id)))
  {
    hide SoundStore, ExpireFirst, Validate;
    var call := Call(ExpireOp, now, fault);
    var (st', a) := Step(st, scope, call);
    StoredFate(st, scope, owner, call, id, expiry);
    if !a.Failed? {
      ExpireAnswers(st, scope, now, fault);
      ExpireExactly(st, scope, owner, now, fault);
      var r :| r in st.mem.records && r.id == id && r.expiresAt == expiry;
      if expiry <= now {
        assert HasTrace(st'.mem, r, "expired", now);
        assert st'.disk == st'.mem;
      } else {
        assert r in st'.mem.records && st'.disk == st'.mem;
      }
    }
  }

  lemma ExpireAnswers(st: Store, scope: Scope, now: u64, fault: Fault)
    ensures var a := StepExpire(st, scope, now, fault).1; a.ExpiredCount? || a.Failed?
  {
    hide ExpireFirst, Validate;
  }

  /** The pass's recovery routed the stored envelope of `id`, the answer was Consumed, and
      what that did to the ledger is in `ledger`. */
  ghost predicate ConsumedIn(c: Router.Capsule, w: World, p: Pass, id: string, ledger: seq<Event>) {
    exists r | r in w.store.disk.records ::
      && r.id == id && Router.Route(c, w.ledger, r.ciphertext.envelope, p.recovery.turn).1 == Router.Consumed
      && Lookup.Extends(ledger, Router.Route(c, w.ledger, r.ciphertext.envelope, p.recovery.turn).0)
  }

  /** Where recovery leaves an id that was stored when it began. */
  ghost predicate Settled(c: Router.Capsule, w: World, end: World, p: Pass, id: string, expiry: u64, done: bool) {
    if done then
      || (Here(end.store, id, expiry) && p.now < expiry)
      || (Gone(end.store, id, p.now) && (expiry <= p.now || ConsumedIn(c, w, p, id, end.ledger)))
    else
      Stored(end.store.disk, id, expiry)
      || (HasTombstone(end.store.disk, id) && (expiry <= p.now || ConsumedIn(c, w, p, id, end.ledger)))
  }

  lemma RecoverSettles(scope: Scope, c: Router.Capsule, owner: Ownership, w: World, p: Pass, id: string, expiry: u64)
    requires ValidScope(scope) && SoundStore(w.store, scope, owner) && w.store.mem == w.store.disk
    requires Stored(w.store.disk, id, expiry)
    ensures var (end, error) := Recover(scope, c, w, p.recovery, p.now);
            Settled(c, w, end, p, id, expiry, error.None?)
  {
    hide Step, Router.Route, NextEligible, SoundStore, Stored, Here, Gone, ConsumedIn, HasTombstone;
    var k, now := p.recovery, p.now;
    var (st, a) := Step(w.store, scope, Call(ExpireOp, now, k.expireFault));
    ExpireSettles(w.store, scope, owner, now, k.expireFault, id, expiry);
    if !a.Failed? {
      StepSound(w.store, scope, owner, Call(ExpireOp, now, k.expireFault));
      SettledOnDisk(st, id, expiry, now);
      var next := NextEligible(st.mem, scope, now);
      if next.Ok? && next.value.Some? {
        MarkSettles(scope, c, owner, w, st, p, id, expiry);
      }
    }
  }

  lemma SettledOnDisk(st: Store, id: string, expiry: u64, now: u64)
    ensures Here(st, id, expiry) ==> Stored(st.disk, id, expiry)
    ensures Gone(st, id, now) ==> HasTombstone(st.disk, id)
  {
  }

  lemma MarkSettles(scope: Scope, c: Router.Capsule, owner: Ownership, w: World, st: Store, p: Pass, id: string, expiry: u64)
    requires ValidScope(scope) && SoundStore(st, scope, owner) && SoundStore(w.store, scope, owner) && w.store.mem == w.store.disk
    requires var (e, a) := Step(w.store, scope, Call(ExpireOp, p.now, p.recovery.expireFault)); e == st && !a.Failed?
    requires NextEligible(st.mem, scope, p.now).Ok? && NextEligible(st.mem, scope, p.now).value.Some?
    requires if expiry <= p.now then Gone(st, id, p.now) else Here(st, id, expiry)
    ensures var next := NextEligible(st.mem, scope, p.now).value.value;
            var routed := Router.Route(c, w.ledger, next.envelope, p.recovery.turn).1;
            var (end, a) := Step(st, scope, MarkCall(next.id, routed, p.recovery, p.now));
            Settled(c, w, World(end, Router.Route(c, w.ledger, next.envelope, p.recovery.turn).0), p, id, expiry, !a.Failed?)
  {
    hide Step, Router.Route, NextEligible, Chosen, SoundStore, Stored, ConsumedIn, HasTombstone, Sound;
    ChoiceExactly(st.mem, scope, p.now);
    var next := NextEligible(st.mem, scope, p.now).value.value;
    var r :| Chosen(st.mem, p.now, r) && next.id == r.id && next.envelope == r.ciphertext.envelope;
    ChosenIsNext(st.mem, scope, owner, p.now, r);
    var routed := Router.Route(c, w.ledger, next.envelope, p.recovery.turn).1;
    RouteAnswers(c, w.ledger, next.envelope, p.recovery.turn);
    var call := MarkCall(next.id, routed, p.recovery, p.now);
    var (end, a) := Step(st, scope, call);
    if expiry <= p.now {
      var t :| t in st.mem.tombstones && t in st.disk.tombstones && t.id == id && t.terminalAt == p.now;
      StepKeepsTombstone(st, scope, call, t);
      assert Gone(end, id, p.now);
      SettledOnDisk(end, id, expiry, p.now);
    } else {
      StoredFate(st, scope, owner, call, id, expiry);
      if call.op == ConsumeOp(id) {
        OldRecord(w.store, scope, owner, p, r);
        RouteConsumes(c, w, p, r);
        ConsumeStep(st, scope, owner, r, p.recovery.markFault, p.now);
        if !a.Failed? { BuriedIsGone(st.mem, end, r, p.now); }
      }
      FateOnDisk(end, call, id, expiry);
    }
  }

  lemma BuriedIsGone(before: Snapshot, end: Store, r: Record, now: u64)
    requires Buried(before, end, r, now)
    ensures Gone(end, r.id, now)
  {
    var t :| TraceOf(t, r, "consumed", now) && forall u :: u in end.mem.tombstones <==> u in before.tombstones || u == t;
    assert t in end.mem.tombstones;
  }

  lemma FateOnDisk(end: Store, call: Call, id: string, expiry: u64)
    requires Fate(end.mem, call, id, expiry) && Fate(end.disk, call, id, expiry) && !call.op.ExpireOp?
    ensures call.op != ConsumeOp(id) ==> Here(end, id, expiry)
    ensures Stored(end.disk, id, expiry) || (HasTombstone(end.disk, id) && call.op == ConsumeOp(id))
  {
  }

  lemma RouteConsumes(c: Router.Capsule, w: World, p: Pass, r: Record)
    requires r in w.store.disk.records
    requires Router.Route(c, w.ledger, r.ciphertext.envelope, p.recovery.turn).1 == Router.Consumed
    ensures ConsumedIn(c, w, p, r.id, Router.Route(c, w.ledger, r.ciphertext.envelope, p.recovery.turn).0)
  {
    hide Router.Route;
  }

  /** What is stored after the expiry was stored before it. */
  lemma OldRecord(st: Store, scope: Scope, owner: Ownership, p: Pass, r: Record)
    requires SoundStore(st, scope, owner) && st.mem == st.disk
    requires var (e, a) := Step(st, scope, Call(ExpireOp, p.now, p.recovery.expireFault)); !a.Failed? && r in e.mem.records
    ensures r in st.disk.records
  {
    hide SoundStore, StepExpire;
    ExpireAnswers(st, scope, p.now, p.recovery.expireFault);
    ExpireExactly(st, scope, owner, p.now, p.recovery.expireFault);
  }

  // ----- the batch after it -----

  lemma BatchOnlyStores(scope: Scope, c: Router.Capsule, w: World, items: seq<Inbound>, ks: seq<Conditions>, now: u64, n: nat)
    requires n <= |items| == |ks|
    ensures forall call | call in BatchCalls(scope, c, w, items, ks, now, n) :: call.op.PolicyOp? || call.op.QuarantineOp?
    decreases n
  {
    hide Step, Router.Route, ReceiveFirst;
    if n > 0 { BatchOnlyStores(scope, c, w, items, ks, now, n - 1); }
  }

  lemma BatchSettles(scope: Scope, c: Router.Capsule, owner: Ownership, w: World, p: Pass, id: string, expiry: u64)
    requires ValidScope(scope) && SoundStore(w.store, scope, owner) && Matched(p) && IdentifiedPass(owner, p)
    ensures var end := ReceiveFirst(scope, c, w, p.items, p.conditions, p.now, |p.items|).store;
            && (Here(w.store, id, expiry) && p.now < expiry ==> Stored(end.disk, id, expiry))
            && (Gone(w.store, id, p.now) ==> HasTombstone(end.disk, id))
  {
    hide Step, ReceiveFirst, SoundStore, Admissible, Driven, BatchCalls, Stored;
    var calls := BatchCalls(scope, c, w, p.items, p.conditions, p.now, |p.items|);
    BatchIsProper(scope, c, owner, w, p.items, p.conditions, p.now, |p.items|);
    BatchOnTime(scope, c, w, p.items, p.conditions, p.now, |p.items|);
    BatchOnlyStores(scope, c, w, p.items, p.conditions, p.now, |p.items|);
    forall i | 0 <= i < |calls| ensures calls[i] in calls {}
    if Here(w.store, id, expiry) && p.now < expiry {
      StoredUntilRetired(w.store, scope, owner, calls, |calls|, id, expiry);
    }
    if Gone(w.store, id, p.now) {
      var t :| t in w.store.mem.tombstones && t in w.store.disk.tombstones && t.id == id && t.terminalAt == p.now;
      TombstoneLasts(w.store, scope, calls, |calls|, t);
    }
  }

  /** A delivery on disk before a pass is on disk after it, unless it reached its expiry or
      the router consumed its envelope in that pass; then it has a tombstone on disk. That
      holds with write faults anywhere. */
  lemma PassFate(scope: Scope, c: Router.Capsule, owner: Ownership, w: World, p: Pass, id: string, expiry: u64)
    requires ValidScope(scope) && SoundStore(w.store, scope, owner) && Matched(p) && IdentifiedPass(owner, p)
    requires Stored(w.store.disk, id, expiry)
    ensures var end := DoPass(scope, c, w, p);
            || Stored(end.store.disk, id, expiry)
            || (HasTombstone(end.store.disk, id) && (expiry <= p.now || ConsumedIn(c, w, p, id, end.ledger)))
  {
    hide ConsumedIn, Recover, ReceiveFirst, SoundStore, Here, Gone, HasTombstone, Stored;
    ReopenSettles(w, scope, owner, p);
    var ready := World(Store(w.store.disk, w.store.disk), w.ledger);
    RecoverSettles(scope, c, owner, ready, p, id, expiry);
    var (end, error) := Recover(scope, c, ready, p.recovery, p.now);
    RecoverSound(scope, c, owner, ready, p);
    if error.None? {
      BatchSettles(scope, c, owner, end, p, id, expiry);
      BatchExtends(scope, c, end, p);
    } else {
      assert end.ledger[..|end.ledger|] == end.ledger;
    }
    StillConsumed(c, w, ready, p, id, end.ledger, DoPass(scope, c, w, p).ledger);
  }

  lemma ReopenSettles(w: World, scope: Scope, owner: Ownership, p: Pass)
    requires SoundStore(w.store, scope, owner)
    ensures Step(w.store, scope, ReopenCall(p.now)) == (Store(w.store.disk, w.store.disk), Done)
    ensures SoundStore(Store(w.store.disk, w.store.disk), scope, owner)
  {
    hide Sound;
    ReopenAccepts(w.store.disk, scope, owner);
  }

  lemma BatchExtends(scope: Scope, c: Router.Capsule, w: World, p: Pass)
    requires Matched(p)
    ensures Lookup.Extends(ReceiveFirst(scope, c, w, p.items, p.conditions, p.now, |p.items|).ledger, w.ledger)
  {
    hide ReceiveItem;
    BatchKeeps(scope, c, w, p.items, p.conditions, p.now, 0, |p.items|);
  }

  lemma StillConsumed(c: Router.Capsule, w: World, ready: World, p: Pass, id: string, ledger: seq<Event>, more: seq<Event>)
    requires ready == World(Store(w.store.disk, w.store.disk), w.ledger) && Lookup.Extends(more, ledger)
    ensures ConsumedIn(c, ready, p, id, ledger) ==> ConsumedIn(c, w, p, id, more)
  {
    hide Router.Route, Lookup.Extends;
    if ConsumedIn(c, ready, p, id, ledger) {
      var r :| r in ready.store.disk.records && r.id == id
        && Router.Route(c, w.ledger, r.ciphertext.envelope, p.recovery.turn).1 == Router.Consumed
        && Lookup.Extends(ledger, Router.Route(c, w.ledger, r.ciphertext.envelope, p.recovery.turn).0);
      Lookup.ExtendsTransitive(Router.Route(c, w.ledger, r.ciphertext.envelope, p.recovery.turn).0, ledger, more);
    }
  }

  lemma RecoverSound(scope: Scope, c: Router.Capsule, owner: Ownership, w: World, p: Pass)
    requires ValidScope(scope) && SoundStore(w.store, scope, owner)
    ensures SoundStore(Recover(scope, c, w, p.recovery, p.now).0.store, scope, owner)
  {
    hide Step, Router.Route, NextEligible, SoundStore;
    var expire := Call(ExpireOp, p.now, p.recovery.expireFault);
    var (st, a) := Step(w.store, scope, expire);
    StepSound(w.store, scope, owner, expire);
    var next := NextEligible(st.mem, scope, p.now);
    if !a.Failed? && next.Ok? && next.value.Some? {
      var routed := Router.Route(c, w.ledger, next.value.value.envelope, p.recovery.turn).1;
      StepSound(st, scope, owner, MarkCall(next.value.value.id, routed, p.recovery, p.now));
    }
  }

  // ----- acceptances -----

  /** No stored acceptance is lost: after a pass it is still stored, or it had expired, or
      the ledger holds the relationship of its offer. */
  lemma StoredAcceptanceFate(scope: Scope, c: Router.Capsule, owner: Ownership, w: World, p: Pass, r: Record)
    requires ValidScope(scope) && SoundStore(w.store, scope, owner) && Matched(p) && IdentifiedPass(owner, p)
    requires r in w.store.disk.records && r.ciphertext.envelope.payload.InvitationAccepted?
    requires Router.Checked(c, w.ledger, r.ciphertext.envelope, p.recovery.turn)
    ensures var end, m := DoPass(scope, c, w, p), r.ciphertext.envelope;
            var after := Router.Route(c, w.ledger, m, p.recovery.turn).0;
            var offer := Lookup.FindOffer(c.owner, after, m.payload.id, Some(false));
            || Stored(end.store.disk, r.id, r.expiresAt)
            || r.expiresAt <= p.now
            || (offer.Some? && Lookup.HasFact(end.ledger, RelationshipEstablished(Router.Establishes(c, m.from, m.payload, offer.value))))
  {
    hide Router.Route, Router.Checked, Lookup.HasFact, Lookup.FindOffer, Router.Establishes, DoPass, SoundStore, HasTombstone;
    assert Stored(w.store.disk, r.id, r.expiresAt);
    PassFate(scope, c, owner, w, p, r.id, r.expiresAt);
    var end, m := DoPass(scope, c, w, p), r.ciphertext.envelope;
    if !Stored(end.store.disk, r.id, r.expiresAt) && p.now < r.expiresAt {
      var q :| q in w.store.disk.records && q.id == r.id
        && Router.Route(c, w.ledger, q.ciphertext.envelope, p.recovery.turn).1 == Router.Consumed
        && Lookup.Extends(end.ledger, Router.Route(c, w.ledger, q.ciphertext.envelope, p.recovery.turn).0);
      OneRecord(w.store.disk, scope, owner, q, r);
      Router.AcceptanceEstablishes(c, w.ledger, m, p.recovery.turn);
      var after := Router.Route(c, w.ledger, m, p.recovery.turn).0;
      var offer := Lookup.FindOffer(c.owner, after, m.payload.id, Some(false)).value;
      Lookup.HasFactGrows(after, end.ledger, RelationshipEstablished(Router.Establishes(c, m.from, m.payload, offer)), 0);
    }
  }

  lemma OneRecord(s: Snapshot, scope: Scope, owner: Ownership, q: Record, r: Record)
    requires (exists st: Store :: st.disk == s && SoundStore(st, scope, owner)) && q in s.records && r in s.records && q.id == r.id
    ensures q == r
  {
    UniqueMember(s.records, q, r, RecordId);
  }

  // ----- many passes -----

  /** The pass found the id stored and let it go for one of the two reasons. */
  ghost predicate LetGo(scope: Scope, c: Router.Capsule, w: World, p: Pass, id: string, expiry: u64)
    requires Matched(p)
  {
    var end := DoPass(scope, c, w, p);
    HasTombstone(end.store.disk, id) && (expiry <= p.now || ConsumedIn(c, w, p, id, end.ledger))
  }

  /** Through any number of passes a stored delivery is still on disk, or one of the passes
      let it go: it had expired, or the router had consumed it. */
  lemma {:induction false} PassesFate(scope: Scope, c: Router.Capsule, owner: Ownership, w: World, ps: seq<Pass>, id: string, expiry: u64)
    requires ValidScope(scope) && SoundStore(w.store, scope, owner) && Stored(w.store.disk, id, expiry)
    requires forall p | p in ps :: Matched(p) && IdentifiedPass(owner, p)
    ensures SoundStore(DoPasses(scope, c, w, ps).store, scope, owner)
    ensures Stored(DoPasses(scope, c, w, ps).store.disk, id, expiry)
            || exists i | 0 <= i < |ps| :: LetGo(scope, c, DoPasses(scope, c, w, ps[..i]), ps[i], id, expiry)
  {
    hide DoPass, SoundStore, Stored, LetGo, IdentifiedPass;
    if ps != [] {
      var n := |ps| - 1;
      var less := ps[..n];
      PassesFate(scope, c, owner, w, less, id, expiry);
      var before := DoPasses(scope, c, w, less);
      PassSound(scope, c, owner, before, ps[n]);
      if Stored(before.store.disk, id, expiry) {
        OnePassFate(scope, c, owner, before, ps[n], id, expiry);
      } else {
        var i :| 0 <= i < n && LetGo(scope, c, DoPasses(scope, c, w, less[..i]), less[i], id, expiry);
        assert less[..i] == ps[..i] && less[i] == ps[i];
      }
    }
  }

  lemma OnePassFate(scope: Scope, c: Router.Capsule, owner: Ownership, w: World, p: Pass, id: string, expiry: u64)
    requires ValidScope(scope) && SoundStore(w.store, scope, owner) && Matched(p) && IdentifiedPass(owner, p)
    requires Stored(w.store.disk, id, expiry)
    ensures Stored(DoPass(scope, c, w, p).store.disk, id, expiry) || LetGo(scope, c, w, p, id, expiry)
  {
    hide DoPass, SoundStore, Stored, ConsumedIn, HasTombstone;
    PassFate(scope, c, owner, w, p, id, expiry);
  }

  lemma PassSound(scope: Scope, c: Router.Capsule, owner: Ownership, w: World, p: Pass)
    requires ValidScope(scope) && SoundStore(w.store, scope, owner) && Matched(p) && IdentifiedPass(owner, p)
    ensures SoundStore(DoPass(scope, c, w, p).store, scope, owner)
  {
    hide DoPass, SoundStore, Admissible, Driven, PassCalls, Run, AnswerAt;
    PassIsProper(scope, c, owner, w, p);
    var calls := PassCalls(scope, c, w, p);
    NeverCorrupt(w.store, scope, owner, calls, |calls|);
  }

  // ----- items the router wants retried -----

  lemma PermittedIsNew(s: Snapshot, scope: Scope, id: string, observedBy: seq<string>, envelope: Envelope,
                       size: Option<nat>, now: u64)
    requires ApplyPolicy(s, scope, id, observedBy, envelope, size, now).Ok?
    requires ApplyPolicy(s, scope, id, observedBy, envelope, size, now).value.1 != Quarantined
    ensures ApplyPolicy(s, scope, id, observedBy, envelope, size, now).value.0.records == s.records
    ensures ValidEventId(id) && forall r | r in s.records :: r.id != id
  {
    hide AppendRecord, EnsurePolicy, MaintainPolicies;
    var m := s.(policies := MaintainPolicies(s.policies, now));
    EnsureKeepsRecords(m, scope, HexKey(envelope.from), now);
  }

  /** An item that policy stores is answered Quarantined, and one that policy refuses Retry,
      without routing. One that the router wants retried is stored, and answered
      Quarantined, exactly if it could be sealed and there is room for it; else Retry. */
  lemma ItemAnswers(scope: Scope, c: Router.Capsule, owner: Ownership, w: World, item: Inbound, k: Conditions, now: u64)
    requires ValidScope(scope) && SoundStore(w.store, scope, owner) && Identified(owner, item)
    requires item.Delivered? && !HasTombstone(w.store.mem, item.id)
    ensures var (end, d) := ReceiveItem(scope, c, w, item, k, now);
            var a := Step(w.store, scope, PolicyCall(item, k, now)).1;
            && (a == Decided(Quarantined) ==> d == Router.Quarantined && end.ledger == w.ledger)
            && (a.Failed? ==> d == Router.Retry && end.ledger == w.ledger)
            && (Routed(scope, c, w, item, k, now, Router.Retry) && k.storeFault == NoFault ==>
                  d == (if k.size.Some? && RecordRoom(w.store.mem, HexKey(item.envelope.from), k.size.value)
                        then Router.Quarantined else Router.Retry))
  {
    hide Step, Router.Route, SoundStore, RecordRoom;
    if Routed(scope, c, w, item, k, now, Router.Retry) && k.storeFault == NoFault {
      RetriedIsStored(scope, owner, w.store, item, k, now);
    }
  }

  lemma RetriedIsStored(scope: Scope, owner: Ownership, st: Store, item: Inbound, k: Conditions, now: u64)
    requires ValidScope(scope) && SoundStore(st, scope, owner) && Identified(owner, item)
    requires item.Delivered? && !HasTombstone(st.mem, item.id) && k.storeFault == NoFault
    requires var a := Step(st, scope, PolicyCall(item, k, now)).1; a.Decided? && a.decision != Quarantined
    ensures var mid := Step(st, scope, PolicyCall(item, k, now)).0;
            Step(mid, scope, StoreCall(item, k, now)).1 == Done
            <==> k.size.Some? && RecordRoom(st.mem, HexKey(item.envelope.from), k.size.value)
  {
    hide ApplyPolicy, AppendRecord, Validate, Sound, RecordRoom;
    var Delivered(id, observedBy, envelope) := item;
    var mid := Step(st, scope, PolicyCall(item, k, now)).0;
    PermittedIsNew(st.mem, scope, id, observedBy, envelope, k.size, now);
    PolicyKeepsTombstones(st.mem, scope, id, observedBy, envelope, k.size, now);
    StepSound(st, scope, owner, PolicyCall(item, k, now));
    StoreExactly(mid.mem, scope, id, observedBy, envelope, ROUTE_RETRY, k.size, now);
    SameRoom(st.mem, mid.mem, HexKey(envelope.from));
    var res := AppendRecord(mid.mem, scope, id, observedBy, envelope, ROUTE_RETRY, k.size, now);
    if res.Ok? {
      QuarantineSound(mid.mem, scope, owner, id, observedBy, envelope, ROUTE_RETRY, k.size, now);
      ReopenAccepts(res.value, scope, owner);
    }
  }

  lemma SameRoom(s: Snapshot, t: Snapshot, sender: string)
    requires s.records == t.records
    ensures forall size :: RecordRoom(s, sender, size) == RecordRoom(t, sender, size)
  {
  }
}
