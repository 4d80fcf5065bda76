/** One receive pass: reopen the quarantine, give one stored delivery another try,
    then resolve every item of the batch in order
    (platform/hivra-ffi/src/invitation_api.rs). */
module Receive {
  import opened Common
  import opened Facts
  import opened QuarantineModel
  import opened QuarantineValidation
  import opened QuarantineInvariant
  import opened QuarantineMachine
  import opened QuarantineRetention
  import opened QuarantineRepository
  import Lookup
  import Router

  type Disposition = Router.Disposition

  const ROUTE_RETRY: string := "canonical_route_retry"

  /** The quarantine store and the ledger. */
  datatype World = World(store: Store, ledger: seq<Event>)

  datatype Inbound =
    | Refused(id: string)
    | Delivered(id: string, observedBy: seq<string>, envelope: Envelope)

  /** What the surroundings do while one item is handled. */
  datatype Conditions = Conditions(size: Option<nat>, policyFault: Fault, storeFault: Fault, turn: Router.Turn)

  datatype Resolution = Resolution(id: string, disposition: Disposition)

  predicate HasTombstone(s: Snapshot, id: string) { exists t | t in s.tombstones :: t.id == id }

  // ----- one item -----

  function PolicyCall(item: Inbound, k: Conditions, now: u64): Call
    requires item.Delivered?
  {
    Call(PolicyOp(item.id, item.observedBy, item.envelope, k.size), now, k.policyFault)
  }

  function StoreCall(item: Inbound, k: Conditions, now: u64): Call
    requires item.Delivered?
  {
    Call(QuarantineOp(item.id, item.observedBy, item.envelope, ROUTE_RETRY, k.size), now, k.storeFault)
  }

  function ReceiveItem(scope: Scope, c: Router.Capsule, w: World, item: Inbound, k: Conditions, now: u64): (World, Disposition) {
    if item.Refused? then (w, Router.AdapterRejected)
    else if HasTombstone(w.store.mem, item.id) then (w, Router.Consumed)
    else
      var (st, a) := Step(w.store, scope, PolicyCall(item, k, now));
      match a
      case Decided(d) =>
        if d == Quarantined then (World(st, w.ledger), Router.Quarantined)
        else
          var (ledger, routed) := Router.Route(c, w.ledger, item.envelope, k.turn);
          if routed != Router.Retry then (World(st, ledger), routed)
          else
            var (st', a') := Step(st, scope, StoreCall(item, k, now));
            (World(st', ledger), if a' == Done then Router.Quarantined else Router.Retry)
      case _ => (World(st, w.ledger), Router.Retry)
  }

  /** The repository calls the item makes. */
  function ItemCalls(scope: Scope, c: Router.Capsule, w: World, item: Inbound, k: Conditions, now: u64): seq<Call> {
    if item.Refused? || HasTombstone(w.store.mem, item.id) then []
    else
      var a := Step(w.store, scope, PolicyCall(item, k, now)).1;
      if a.Decided? && a.decision != Quarantined && Router.Route(c, w.ledger, item.envelope, k.turn).1 == Router.Retry
      then [PolicyCall(item, k, now), StoreCall(item, k, now)]
      else [PolicyCall(item, k, now)]
  }

  /** The world after the first `n` items. */
  function ReceiveFirst(scope: Scope, c: Router.Capsule, w: World, items: seq<Inbound>, ks: seq<Conditions>, now: u64, n: nat): World
    requires n <= |items| == |ks|
  {
    if n == 0 then w
    else ReceiveItem(scope, c, ReceiveFirst(scope, c, w, items, ks, now, n - 1), items[n-1], ks[n-1], now).0
  }

  function DispositionOf(scope: Scope, c: Router.Capsule, w: World, items: seq<Inbound>, ks: seq<Conditions>, now: u64, i: nat): Disposition
    requires i < |items| == |ks|
  {
    ReceiveItem(scope, c, ReceiveFirst(scope, c, w, items, ks, now, i), items[i], ks[i], now).1
  }

  /** Where the repository and the runtime stand. */
  function Standing(repository: Repository, runtime: Router.Runtime): World
    reads repository, runtime
  {
    World(repository.Current(), runtime.ledger)
  }

  /** One iteration of the loop in `hivra_transport_receive_with_profile`. */
  method ResolveItem(repository: Repository, runtime: Router.Runtime, item: Inbound, k: Conditions, now: u64)
    returns (d: Disposition)
    modifies repository, runtime
    ensures (Standing(repository, runtime), d)
         == ReceiveItem(repository.scope, runtime.capsule, old(Standing(repository, runtime)), item, k, now)
  {
    hide Step, Router.Route;
    if item.Refused? { return Router.AdapterRejected; }
    var evidence := repository.HasTerminalEvidence(item.id);
    if evidence { return Router.Consumed; }
    var answer := repository.ApplySenderPolicy(item.id, item.observedBy, item.envelope, k.size, now, k.policyFault);
    if !answer.Decided? { return Router.Retry; }
    if answer.decision == Quarantined { return Router.Quarantined; }
    d := runtime.RouteInbound(item.envelope, k.turn);
    if d == Router.Retry {
      var stored := repository.Quarantine(item.id, item.observedBy, item.envelope, ROUTE_RETRY, k.size, now, k.storeFault);
      if stored == Done { d := Router.Quarantined; }
    }
  }

  /** The loop: one resolution for each item, in the order of the batch. */
  method ResolveBatch(repository: Repository, runtime: Router.Runtime, items: seq<Inbound>, ks: seq<Conditions>, now: u64)
    returns (resolutions: seq<Resolution>)
    requires |items| == |ks|
    modifies repository, runtime
    ensures var w := old(Standing(repository, runtime));
            && Standing(repository, runtime)
               == ReceiveFirst(repository.scope, runtime.capsule, w, items, ks, now, |items|)
            && |resolutions| == |items|
            && forall i | 0 <= i < |items| ::
                 resolutions[i] == Resolution(items[i].id, DispositionOf(repository.scope, runtime.capsule, w, items, ks, now, i))
  {
    hide ReceiveItem;
    resolutions := [];
    ghost var w := Standing(repository, runtime);
    for n := 0 to |items|
      invariant Standing(repository, runtime) == ReceiveFirst(repository.scope, runtime.capsule, w, items, ks, now, n)
      invariant |resolutions| == n
      invariant forall i | 0 <= i < n ::
        resolutions[i] == Resolution(items[i].id, DispositionOf(repository.scope, runtime.capsule, w, items, ks, now, i))
    {
      var d := ResolveItem(repository, runtime, items[n], ks[n], now);
      resolutions := resolutions + [Resolution(items[n].id, d)];
    }
  }

  // ----- recovery of one stored delivery -----

  datatype RecoveryConditions = RecoveryConditions(expireFault: Fault, markFault: Fault, turn: Router.Turn)

  function MarkCall(id: string, routed: Disposition, k: RecoveryConditions, now: u64): Call {
    Call(if routed == Router.Consumed then ConsumeOp(id) else RetryOp(id), now, k.markFault)
  }

  function ErrorOf(a: Answer): Option<Error> { if a.Failed? then Some(a.error) else None }

  /** `recover_one_quarantined_envelope`. */
  function Recover(scope: Scope, c: Router.Capsule, w: World, k: RecoveryConditions, now: u64): (World, Option<Error>) {
    var (st, a) := Step(w.store, scope, Call(ExpireOp, now, k.expireFault));
    if a.Failed? then (World(st, w.ledger), Some(a.error))
    else
      match NextEligible(st.mem, scope, now)
      case Err(e) => (World(st, w.ledger), Some(e))
      case Ok(None) => (World(st, w.ledger), None)
      case Ok(Some(r)) =>
        var (ledger, routed) := Router.Route(c, w.ledger, r.envelope, k.turn);
        if routed != Router.Consumed && routed != Router.Retry then (World(st, ledger), Some(InvalidRecord))
        else
          var (st', a') := Step(st, scope, MarkCall(r.id, routed, k, now));
          (World(st', ledger), ErrorOf(a'))
  }

  function RecoverCalls(scope: Scope, c: Router.Capsule, w: World, k: RecoveryConditions, now: u64): seq<Call> {
    var expire := Call(ExpireOp, now, k.expireFault);
    var (st, a) := Step(w.store, scope, expire);
    var next := NextEligible(st.mem, scope, now);
    if a.Failed? || next.Err? || next.value.None? then [expire]
    else
      var routed := Router.Route(c, w.ledger, next.value.value.envelope, k.turn).1;
      if routed != Router.Consumed && routed != Router.Retry then [expire]
      else [expire, MarkCall(next.value.value.id, routed, k, now)]
  }

  method RecoverOne(repository: Repository, runtime: Router.Runtime, k: RecoveryConditions, now: u64)
    returns (error: Option<Error>)
    modifies repository, runtime
    ensures (Standing(repository, runtime), error)
         == Recover(repository.scope, runtime.capsule, old(Standing(repository, runtime)), k, now)
  {
    hide Step, Router.Route, NextEligible;
    var expired := repository.ExpireDue(now, k.expireFault);
    if expired.Failed? { return Some(expired.error); }
    var next := repository.NextEligibleRecord(now);
    if next.Err? { return Some(next.error); }
    if next.value.None? { return None; }
    var r := next.value.value;
    var routed := runtime.RouteInbound(r.envelope, k.turn);
    var answer;
    match routed {
      case Consumed => answer := repository.MarkConsumed(r.id, now, k.markFault);
      case Retry => answer := repository.MarkRetry(r.id, now, k.markFault);
      case _ => return Some(InvalidRecord);
    }
    error := ErrorOf(answer);
  }

  // ----- whole passes -----

  datatype Pass = Pass(now: u64, recovery: RecoveryConditions, items: seq<Inbound>, conditions: seq<Conditions>)

  predicate Matched(p: Pass) { |p.items| == |p.conditions| }

  function ReopenCall(now: u64): Call { Call(ReopenOp, now, NoFault) }

  /** Open the repository, recover one delivery, resolve the batch; an error on the way
      ends the pass before the batch. */
  function DoPass(scope: Scope, c: Router.Capsule, w: World, p: Pass): World
    requires Matched(p)
  {
    var (st, a) := Step(w.store, scope, ReopenCall(p.now));
    var ready := World(st, w.ledger);
    if a.Failed? then ready
    else
      var (recovered, error) := Recover(scope, c, ready, p.recovery, p.now);
      if error.Some? then recovered
      else ReceiveFirst(scope, c, recovered, p.items, p.conditions, p.now, |p.items|)
  }

  function BatchCalls(scope: Scope, c: Router.Capsule, w: World, items: seq<Inbound>, ks: seq<Conditions>, now: u64, n: nat): seq<Call>
    requires n <= |items| == |ks|
  {
    if n == 0 then []
    else BatchCalls(scope, c, w, items, ks, now, n - 1)
         + ItemCalls(scope, c, ReceiveFirst(scope, c, w, items, ks, now, n - 1), items[n-1], ks[n-1], now)
  }

  function PassCalls(scope: Scope, c: Router.Capsule, w: World, p: Pass): seq<Call>
    requires Matched(p)
  {
    var (st, a) := Step(w.store, scope, ReopenCall(p.now));
    var ready := World(st, w.ledger);
    if a.Failed? then [ReopenCall(p.now)]
    else
      var (recovered, error) := Recover(scope, c, ready, p.recovery, p.now);
      var first := [ReopenCall(p.now)] + RecoverCalls(scope, c, ready, p.recovery, p.now);
      if error.Some? then first
      else first + BatchCalls(scope, c, recovered, p.items, p.conditions, p.now, |p.items|)
  }

  function DoPasses(scope: Scope, c: Router.Capsule, w: World, ps: seq<Pass>): World
    requires forall p | p in ps :: Matched(p)
  {
    if ps == [] then w else DoPass(scope, c, DoPasses(scope, c, w, ps[..|ps|-1]), ps[|ps|-1])
  }

  function AllCalls(scope: Scope, c: Router.Capsule, w: World, ps: seq<Pass>): seq<Call>
    requires forall p | p in ps :: Matched(p)
  {
    if ps == [] then []
    else
      var less := ps[..|ps|-1];
      AllCalls(scope, c, w, less) + PassCalls(scope, c, DoPasses(scope, c, w, less), ps[|ps|-1])
  }
}
