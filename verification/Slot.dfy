/** The slot projection: five positions replayed from the starters the owner
    created and burned, without the starters that a revoked acceptance names, and
    with the starters of pending outgoing offers locked (core/hivra-core/src/slot.rs). */
module Slot {
  import opened Common
  import opened Facts

  const SLOTS: nat := 5

  datatype SlotState = Empty | Occupied(id: StarterId) | Locked(id: StarterId)

  type Slots = s: seq<SlotState> | |s| == 5 witness [Empty, Empty, Empty, Empty, Empty]

  const EMPTY_SLOTS: Slots := [Empty, Empty, Empty, Empty, Empty]

  predicate Holds(s: SlotState, id: StarterId) { !s.Empty? && s.id == id }

  predicate IsEmpty(s: SlotState) { s.Empty? }
  function HoldsId(id: StarterId): SlotState -> bool { (s: SlotState) => Holds(s, id) }
  function OccupiedBy(id: StarterId): SlotState -> bool { (s: SlotState) => s == Occupied(id) }

  function OccupyFirstFree(slots: Slots, id: StarterId): Slots {
    match Position(slots, IsEmpty)
    case Some(k) => slots[k := Occupied(id)]
    case None => slots
  }

  function FreeStarter(slots: Slots, id: StarterId): Slots {
    match Position(slots, HoldsId(id))
    case Some(k) => slots[k := Empty]
    case None => slots
  }

  function LockStarter(slots: Slots, id: StarterId): Slots {
    match Position(slots, OccupiedBy(id))
    case Some(k) => slots[k := Locked(id)]
    case None => slots
  }

  predicate Contains(slots: Slots, id: StarterId) { exists s | s in slots :: Holds(s, id) }

  // ----- revoked starters -----

  /** An `InvitationReceived` event that starts with this id; the fold does not
      ask whether the rest of the payload is well formed. */
  predicate ReceivedHead(f: Fact, id: InvitationId) {
    || (f.InvitationReceived? && f.offer.id == id)
    || (f.Malformed? && f.badKind == InvitationReceivedKind && f.head == Some(id))
  }

  /** Someone who signed an offer of `id` also signed its expiry, in any order. */
  predicate SenderExpired(events: seq<Event>, id: InvitationId) {
    exists i, j | 0 <= i < |events| && 0 <= j < |events| ::
      events[i].fact == InvitationExpired(id) && ReceivedHead(events[j].fact, id) && events[j].signer == events[i].signer
  }

  function RevokedStarters(events: seq<Event>): set<StarterId> {
    set i | 0 <= i < |events| && events[i].fact.InvitationAccepted? && SenderExpired(events, events[i].fact.id)
      :: events[i].fact.created
  }

  // ----- replay -----

  datatype Replayed = Replayed(slots: Slots, burned: set<StarterId>)

  function ReplayEvent(owner: Key, revoked: set<StarterId>, r: Replayed, e: Event): Replayed {
    if e.signer != owner then r
    else
      match e.fact
      case StarterCreated(id, _, _) =>
        if id in r.burned || id in revoked || Contains(r.slots, id) then r
        else r.(slots := OccupyFirstFree(r.slots, id))
      case StarterBurned(id, _) => Replayed(FreeStarter(r.slots, id), r.burned + {id})
      case _ => r
  }

  function Replay(owner: Key, revoked: set<StarterId>, events: seq<Event>): Replayed {
    if |events| == 0 then Replayed(EMPTY_SLOTS, {})
    else ReplayEvent(owner, revoked, Replay(owner, revoked, events[..|events|-1]), events[|events|-1])
  }

  // ----- locks -----

  function TerminalId(f: Fact): Option<InvitationId> {
    if f.InvitationAccepted? || f.InvitationRejected? || f.InvitationExpired? then Some(f.id) else None
  }

  function OtherInvitation(id: InvitationId): ((InvitationId, StarterId)) -> bool {
    (p: (InvitationId, StarterId)) => p.0 != id
  }

  function PendingLock(owner: Key, pending: seq<(InvitationId, StarterId)>, e: Event): seq<(InvitationId, StarterId)> {
    if e.fact.InvitationSent? && e.signer == owner then pending + [(e.fact.offer.id, e.fact.offer.starter)]
    else
      match TerminalId(e.fact)
      case Some(id) => Filter(pending, OtherInvitation(id))
      case None => pending
  }

  function PendingLocks(owner: Key, events: seq<Event>): seq<(InvitationId, StarterId)> {
    if |events| == 0 then []
    else PendingLock(owner, PendingLocks(owner, events[..|events|-1]), events[|events|-1])
  }

  /** The first five distinct starters of the first `n` pending offers. */
  function LockList(pending: seq<(InvitationId, StarterId)>, n: nat): (ids: seq<StarterId>)
    requires n <= |pending|
    ensures |ids| <= SLOTS
  {
    if n == 0 then []
    else
      var ids := LockList(pending, n - 1);
      if pending[n-1].1 in ids || |ids| >= SLOTS then ids else ids + [pending[n-1].1]
  }

  function LockedStarters(owner: Key, events: seq<Event>): seq<StarterId> {
    var pending := PendingLocks(owner, events);
    LockList(pending, |pending|)
  }

  function LockFirst(slots: Slots, ids: seq<StarterId>, n: nat): Slots
    requires n <= |ids|
  {
    if n == 0 then slots else LockStarter(LockFirst(slots, ids, n - 1), ids[n-1])
  }

  /** `SlotLayout::from_ledger`. */
  function LayoutOf(owner: Key, events: seq<Event>): Slots {
    var ids := LockedStarters(owner, events);
    LockFirst(Replay(owner, RevokedStarters(events), events).slots, ids, |ids|)
  }

  // ----- kinds and the acceptance plan -----

  predicate CreatesStarter(owner: Key, e: Event, id: StarterId) {
    e.signer == owner && e.fact.StarterCreated? && e.fact.starter == id
  }

  /** The kind in the owner's latest creation of `id`. */
  function StarterKindOf(owner: Key, events: seq<Event>, id: StarterId): Option<StarterKind> {
    if |events| == 0 then None
    else if CreatesStarter(owner, events[|events|-1], id) then Some(events[|events|-1].fact.starterKind)
    else StarterKindOf(owner, events[..|events|-1], id)
  }

  function SlotKind(owner: Key, events: seq<Event>, s: SlotState): Option<StarterKind> {
    if s.Empty? then None else StarterKindOf(owner, events, s.id)
  }

  function OfKind(owner: Key, events: seq<Event>, kind: StarterKind): SlotState -> bool {
    (s: SlotState) => SlotKind(owner, events, s) == Some(kind)
  }

  predicate KindActive(owner: Key, events: seq<Event>, slots: Slots, kind: StarterKind) {
    exists s | s in slots :: SlotKind(owner, events, s) == Some(kind)
  }

  function FirstMissingKind(owner: Key, events: seq<Event>, slots: Slots): Option<StarterKind> {
    if !KindActive(owner, events, slots, Juice) then Some(Juice)
    else if !KindActive(owner, events, slots, Spark) then Some(Spark)
    else if !KindActive(owner, events, slots, Seed) then Some(Seed)
    else if !KindActive(owner, events, slots, Pulse) then Some(Pulse)
    else if !KindActive(owner, events, slots, Kick) then Some(Kick)
    else None
  }

  datatype PlannedStarter = PlannedStarter(slot: nat, kind: StarterKind)

  datatype AcceptPlan =
    | UseExistingStarter(starter: StarterId, created: Option<PlannedStarter>)
    | CreateStarterInEmptySlot(slot: nat, kind: StarterKind)
    | NoCapacity

  /** `plan_accept_for_kind`. */
  function PlanAccept(owner: Key, events: seq<Event>, slots: Slots, kind: StarterKind): AcceptPlan {
    var matching := Position(slots, OfKind(owner, events, kind));
    var empty := Position(slots, IsEmpty);
    if matching.Some? then
      var missing := FirstMissingKind(owner, events, slots);
      UseExistingStarter(slots[matching.value].id,
                         if empty.Some? && missing.Some? then Some(PlannedStarter(empty.value, missing.value)) else None)
    else if empty.Some? then CreateStarterInEmptySlot(empty.value, kind)
    else NoCapacity
  }

  // ----- which starters are live -----

  function CreatedIds(owner: Key, events: seq<Event>): set<StarterId> {
    set i | 0 <= i < |events| && events[i].signer == owner && events[i].fact.StarterCreated? :: events[i].fact.starter
  }

  function BurnedIds(owner: Key, events: seq<Event>): set<StarterId> {
    set i | 0 <= i < |events| && events[i].signer == owner && events[i].fact.StarterBurned? :: events[i].fact.starter
  }

  /** The starters that ought to be live. */
  function LiveIds(owner: Key, revoked: set<StarterId>, events: seq<Event>): set<StarterId> {
    CreatedIds(owner, events) - BurnedIds(owner, events) - revoked
  }

  function SlotIds(slots: Slots): set<StarterId> { set s | s in slots && !s.Empty? :: s.id }

  ghost predicate NoDuplicates(slots: Slots) {
    forall i, j | 0 <= i < j < |slots| && !slots[i].Empty? && !slots[j].Empty? :: slots[i].id != slots[j].id
  }

  /** At no time are there more live starters than slots. */
  ghost predicate Fits(owner: Key, revoked: set<StarterId>, events: seq<Event>) {
    forall n | 0 <= n <= |events| :: |LiveIds(owner, revoked, events[..n])| <= SLOTS
  }

  lemma SubsetSize<T>(a: set<T>, b: set<T>)
    requires a <= b
    ensures |a| <= |b|
    ensures |a| == |b| ==> a == b
  {
    assert b == a + (b - a);
  }

  lemma FiveDistinct<T>(a: T, b: T, c: T, d: T, e: T)
    requires a !in {b, c, d, e} && b !in {c, d, e} && c !in {d, e} && d != e
    ensures |{a, b, c, d, e}| == 5
  {
    assert |{d, e}| == 2;
    assert {c, d, e} == {d, e} + {c};
    assert {b, c, d, e} == {c, d, e} + {b};
    assert {a, b, c, d, e} == {b, c, d, e} + {a};
  }

  /** Five distinct starters fill five slots: with fewer there is an empty one. */
  lemma EmptySlotExists(slots: Slots)
    requires NoDuplicates(slots) && |SlotIds(slots)| < SLOTS
    ensures Position(slots, IsEmpty).Some?
  {
    if forall i | 0 <= i < |slots| :: !slots[i].Empty? {
      FullSlots(slots);
    }
  }

  lemma FullSlots(slots: Slots)
    requires NoDuplicates(slots) && forall i | 0 <= i < |slots| :: !slots[i].Empty?
    ensures |SlotIds(slots)| == SLOTS
    ensures SlotIds(slots) == {slots[0].id, slots[1].id, slots[2].id, slots[3].id, slots[4].id}
  {
    forall i | 0 <= i < 5 ensures slots[i] in slots {}
    assert SlotIds(slots) == {slots[0].id, slots[1].id, slots[2].id, slots[3].id, slots[4].id};
    FiveDistinct(slots[0].id, slots[1].id, slots[2].id, slots[3].id, slots[4].id);
  }

  lemma OccupyEffect(slots: Slots, id: StarterId)
    requires NoDuplicates(slots) && id !in SlotIds(slots) && Position(slots, IsEmpty).Some?
    ensures NoDuplicates(OccupyFirstFree(slots, id))
    ensures SlotIds(OccupyFirstFree(slots, id)) == SlotIds(slots) + {id}
  {
    var k := Position(slots, IsEmpty).value;
    var t := OccupyFirstFree(slots, id);
    forall i | 0 <= i < |slots| && !slots[i].Empty? ensures slots[i].id in SlotIds(slots) && slots[i].id != id {}
    forall x ensures x in SlotIds(t) <==> x in SlotIds(slots) + {id} {
      assert t[k] in t;
      forall i | 0 <= i < |slots| && i != k ensures t[i] == slots[i] && t[i] in t {}
    }
  }

  lemma FreeEffect(slots: Slots, id: StarterId)
    requires NoDuplicates(slots)
    ensures NoDuplicates(FreeStarter(slots, id))
    ensures SlotIds(FreeStarter(slots, id)) == SlotIds(slots) - {id}
  {
    var p := Position(slots, HoldsId(id));
    var t := FreeStarter(slots, id);
    match p
    case Some(k) =>
      assert HoldsId(id)(slots[k]);
      forall i | 0 <= i < |slots| && i != k ensures t[i] == slots[i] && t[i] in t {}
    case None =>
      forall i | 0 <= i < |slots| ensures !Holds(slots[i], id) { assert !HoldsId(id)(slots[i]); }
  }

  lemma LiveSnoc(owner: Key, revoked: set<StarterId>, events: seq<Event>, e: Event)
    ensures CreatedIds(owner, events + [e]) == CreatedIds(owner, events)
              + (if e.signer == owner && e.fact.StarterCreated? then {e.fact.starter} else {})
    ensures BurnedIds(owner, events + [e]) == BurnedIds(owner, events)
              + (if e.signer == owner && e.fact.StarterBurned? then {e.fact.starter} else {})
  {
    var all := events + [e];
    assert forall i | 0 <= i < |events| :: all[i] == events[i];
    assert all[|events|] == e;
  }

  ghost predicate ShowsLive(owner: Key, revoked: set<StarterId>, events: seq<Event>, r: Replayed) {
    && r.burned == BurnedIds(owner, events)
    && NoDuplicates(r.slots)
    && SlotIds(r.slots) == LiveIds(owner, revoked, events)
  }

  lemma ReplayCreateLive(owner: Key, revoked: set<StarterId>, events: seq<Event>, r: Replayed, e: Event)
    requires ShowsLive(owner, revoked, events, r) && |LiveIds(owner, revoked, events + [e])| <= SLOTS
    requires e.signer == owner && e.fact.StarterCreated?
    ensures ShowsLive(owner, revoked, events + [e], ReplayEvent(owner, revoked, r, e))
  {
    hide CreatedIds, BurnedIds, SlotIds, NoDuplicates, OccupyFirstFree, FreeStarter, Contains;
    LiveSnoc(owner, revoked, events, e);
    var id := e.fact.starter;
    ContainsIsMember(r.slots, id);
    if id in r.burned || id in revoked || Contains(r.slots, id) {
      assert LiveIds(owner, revoked, events + [e]) == LiveIds(owner, revoked, events);
    } else {
      OneMoreLive(r.slots, id, LiveIds(owner, revoked, events), LiveIds(owner, revoked, events + [e]));
    }
  }

  lemma OneMoreLive(slots: Slots, id: StarterId, live: set<StarterId>, live': set<StarterId>)
    requires NoDuplicates(slots) && SlotIds(slots) == live && id !in live
    requires live' == live + {id} && |live'| <= SLOTS
    ensures NoDuplicates(OccupyFirstFree(slots, id)) && SlotIds(OccupyFirstFree(slots, id)) == live'
  {
    hide SlotIds, NoDuplicates, OccupyFirstFree;
    EmptySlotExists(slots);
    OccupyEffect(slots, id);
  }

  lemma ReplayStepLive(owner: Key, revoked: set<StarterId>, events: seq<Event>, r: Replayed, e: Event)
    requires ShowsLive(owner, revoked, events, r) && |LiveIds(owner, revoked, events + [e])| <= SLOTS
    ensures ShowsLive(owner, revoked, events + [e], ReplayEvent(owner, revoked, r, e))
  {
    hide CreatedIds, BurnedIds, SlotIds, NoDuplicates, OccupyFirstFree, FreeStarter, Contains;
    if e.signer == owner && e.fact.StarterCreated? {
      ReplayCreateLive(owner, revoked, events, r, e);
    } else {
      LiveSnoc(owner, revoked, events, e);
      if e.signer == owner && e.fact.StarterBurned? { FreeEffect(r.slots, e.fact.starter); }
    }
  }

  /** The replay holds exactly the live starters, each once, as long as they fit. */
  lemma {:induction false} ReplayIsLive(owner: Key, revoked: set<StarterId>, events: seq<Event>)
    requires Fits(owner, revoked, events)
    ensures ShowsLive(owner, revoked, events, Replay(owner, revoked, events))
  {
    hide CreatedIds, BurnedIds, SlotIds, NoDuplicates, ReplayEvent, Fits;
    NothingLive(owner);
    if |events| > 0 {
      var n := |events| - 1;
      var before, e := events[..n], events[n];
      assert events == before + [e];
      FitsPrefix(owner, revoked, events, n);
      ReplayIsLive(owner, revoked, before);
      ReplayStepLive(owner, revoked, before, Replay(owner, revoked, before), e);
    }
  }

  lemma NothingLive(owner: Key)
    ensures CreatedIds(owner, []) == {} && BurnedIds(owner, []) == {}
    ensures SlotIds(EMPTY_SLOTS) == {} && NoDuplicates(EMPTY_SLOTS)
  {
  }

  lemma ContainsIsMember(slots: Slots, id: StarterId)
    ensures Contains(slots, id) <==> id in SlotIds(slots)
  {
  }

  lemma FitsPrefix(owner: Key, revoked: set<StarterId>, events: seq<Event>, n: nat)
    requires Fits(owner, revoked, events) && n <= |events|
    ensures Fits(owner, revoked, events[..n])
    ensures |LiveIds(owner, revoked, events)| <= SLOTS
  {
    hide LiveIds;
    assert events[..|events|] == events;
    forall m | 0 <= m <= n ensures |LiveIds(owner, revoked, events[..n][..m])| <= SLOTS {
      assert events[..n][..m] == events[..m];
    }
  }

  /** Revoking more starters never makes the history overflow. */
  lemma FitsMonotone(owner: Key, revoked: set<StarterId>, more: set<StarterId>, events: seq<Event>)
    requires Fits(owner, revoked, events) && revoked <= more
    ensures Fits(owner, more, events)
  {
    hide CreatedIds, BurnedIds;
    forall n | 0 <= n <= |events| ensures |LiveIds(owner, more, events[..n])| <= SLOTS {
      SubsetSize(LiveIds(owner, more, events[..n]), LiveIds(owner, revoked, events[..n]));
    }
  }

  // ----- locking -----

  lemma LockEffect(slots: Slots, id: StarterId)
    requires NoDuplicates(slots)
    ensures var t := LockStarter(slots, id);
            && NoDuplicates(t)
            && forall i | 0 <= i < |slots| ::
                 t[i] == if slots[i] == Occupied(id) then Locked(id) else slots[i]
  {
    var p := Position(slots, OccupiedBy(id));
    if p.None? {
      forall i | 0 <= i < |slots| ensures slots[i] != Occupied(id) { assert !OccupiedBy(id)(slots[i]); }
    }
  }

  lemma {:induction false} LockFirstEffect(slots: Slots, ids: seq<StarterId>, n: nat)
    requires NoDuplicates(slots) && n <= |ids|
    ensures var t := LockFirst(slots, ids, n);
            && NoDuplicates(t)
            && forall i | 0 <= i < |slots| ::
                 t[i] == if slots[i].Occupied? && slots[i].id in ids[..n] then Locked(slots[i].id) else slots[i]
  {
    if n > 0 {
      LockFirstEffect(slots, ids, n - 1);
      LockEffect(LockFirst(slots, ids, n - 1), ids[n-1]);
      assert ids[..n] == ids[..n-1] + [ids[n-1]];
    }
  }

  lemma {:induction false} ReplayNoDuplicates(owner: Key, revoked: set<StarterId>, events: seq<Event>)
    ensures NoDuplicates(Replay(owner, revoked, events).slots)
  {
    if |events| > 0 {
      ReplayNoDuplicates(owner, revoked, events[..|events|-1]);
      var r, e := Replay(owner, revoked, events[..|events|-1]), events[|events|-1];
      if e.signer == owner && e.fact.StarterCreated? {
        ContainsIsMember(r.slots, e.fact.starter);
        if Position(r.slots, IsEmpty).Some? && !Contains(r.slots, e.fact.starter) {
          OccupyEffect(r.slots, e.fact.starter);
        }
      } else if e.signer == owner && e.fact.StarterBurned? {
        FreeEffect(r.slots, e.fact.starter);
      }
    }
  }

  /** A revoked starter is in no slot. */
  lemma {:induction false} RevokedNotReplayed(owner: Key, revoked: set<StarterId>, events: seq<Event>)
    ensures SlotIds(Replay(owner, revoked, events).slots) !! revoked
  {
    if |events| > 0 {
      RevokedNotReplayed(owner, revoked, events[..|events|-1]);
      ReplayNoDuplicates(owner, revoked, events[..|events|-1]);
      var r, e := Replay(owner, revoked, events[..|events|-1]), events[|events|-1];
      if e.signer == owner && e.fact.StarterCreated? {
        ContainsIsMember(r.slots, e.fact.starter);
        if Position(r.slots, IsEmpty).Some? && !Contains(r.slots, e.fact.starter) {
          OccupyEffect(r.slots, e.fact.starter);
        }
      } else if e.signer == owner && e.fact.StarterBurned? {
        FreeEffect(r.slots, e.fact.starter);
      }
    }
  }

  lemma {:induction false} ReplayOccupied(owner: Key, revoked: set<StarterId>, events: seq<Event>)
    ensures forall s | s in Replay(owner, revoked, events).slots :: !s.Locked?
  {
    if |events| > 0 {
      ReplayOccupied(owner, revoked, events[..|events|-1]);
    }
  }

  /** The layout has the positions of the replay; a position is locked exactly if
      its starter is among the first five distinct pending ones. */
  lemma LayoutEffect(owner: Key, events: seq<Event>)
    requires Fits(owner, RevokedStarters(events), events)
    ensures var t, r := LayoutOf(owner, events), Replay(owner, RevokedStarters(events), events).slots;
            && NoDuplicates(t) && SlotIds(t) == LiveIds(owner, RevokedStarters(events), events)
            && (forall i | 0 <= i < SLOTS :: t[i].Empty? == r[i].Empty? && (!t[i].Empty? ==> t[i].id == r[i].id))
            && (forall i | 0 <= i < SLOTS && !t[i].Empty? :: t[i].Locked? <==> t[i].id in LockedStarters(owner, events))
  {
    hide Replay, LiveIds, RevokedStarters, Fits, LockedStarters, LockFirst;
    var revoked := RevokedStarters(events);
    ReplayIsLive(owner, revoked, events);
    ReplayOccupied(owner, revoked, events);
    LockedLayout(Replay(owner, revoked, events).slots, LockedStarters(owner, events));
  }

  lemma LockedLayout(r: Slots, ids: seq<StarterId>)
    requires NoDuplicates(r) && forall s | s in r :: !s.Locked?
    ensures var t := LockFirst(r, ids, |ids|);
            && NoDuplicates(t) && SlotIds(t) == SlotIds(r)
            && (forall i | 0 <= i < SLOTS :: t[i].Empty? == r[i].Empty? && (!t[i].Empty? ==> t[i].id == r[i].id))
            && (forall i | 0 <= i < SLOTS && !t[i].Empty? :: t[i].Locked? <==> t[i].id in ids)
  {
    hide LockFirst;
    LockFirstEffect(r, ids, |ids|);
    assert ids[..|ids|] == ids;
    var t := LockFirst(r, ids, |ids|);
    forall i | 0 <= i < SLOTS ensures r[i] in r && t[i] in t {}
  }

  lemma RevokedNotShown(owner: Key, events: seq<Event>)
    ensures SlotIds(LayoutOf(owner, events)) !! RevokedStarters(events)
  {
    hide Replay, RevokedStarters, LockedStarters, LockFirst, SlotIds;
    var revoked := RevokedStarters(events);
    RevokedNotReplayed(owner, revoked, events);
    ReplayNoDuplicates(owner, revoked, events);
    ReplayOccupied(owner, revoked, events);
    LockedLayout(Replay(owner, revoked, events).slots, LockedStarters(owner, events));
  }
}
