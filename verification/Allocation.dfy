/** Starter allocation over whole histories: births, acceptances, burns and
    revocations never put two live starters of one kind side by side, a planned
    starter lands in its planned slot, and an acceptance always finds room. */
module Allocation {
  import opened Common
  import opened Facts
  import opened Slot

  // ----- the moves of a capsule -----

  /** The id a terminal payload of the right length names, even if its reason
      byte is not a reason. */
  function TerminalShape(f: Fact): Option<InvitationId> {
    if f.Malformed? then
      if f.badKind == InvitationRejectedKind && f.length == 33 then f.head else None
    else TerminalId(f)
  }

  predicate Resolved(events: seq<Event>, id: InvitationId) {
    exists i | 0 <= i < |events| :: TerminalShape(events[i].fact) == Some(id)
  }

  /** `id` appears as a starter in the event. */
  predicate Names(f: Fact, id: StarterId) {
    match f
    case StarterCreated(s, _, _) => s == id
    case StarterBurned(s, _) => s == id
    case InvitationAccepted(_, _, created, _) => created == id
    case InvitationSent(o) => o.starter == id
    case _ => false
  }

  predicate Unused(events: seq<Event>, id: StarterId) {
    forall i | 0 <= i < |events| :: !Names(events[i].fact, id)
  }

  datatype Move =
      // the five starters a relay capsule is born with
    | Birth(ids: seq<StarterId>, nonces: seq<Key>, at: u64)
      // accepting `invitation`, whose offer is of `kind`; `lineage` is the starter id
      // derived for this acceptance
    | Accept(invitation: InvitationId, from: Key, kind: StarterKind, lineage: StarterId, nonce: Key,
             root: Option<Key>, at: u64)
      // anything else: offers, burns, revocations, remote answers, relationships
    | Append(event: Event)

  const BIRTH_KINDS: seq<StarterKind> := [Juice, Spark, Seed, Pulse, Kick]

  function Creation(owner: Key, id: StarterId, kind: StarterKind, nonce: Key, at: u64): Event {
    Event(StarterCreated(id, kind, nonce), at, owner)
  }

  function Acceptance(owner: Key, m: Move, starter: StarterId): Event
    requires m.Accept?
  {
    Event(InvitationAccepted(m.invitation, m.from, starter, m.root), m.at, owner)
  }

  function Plan(owner: Key, events: seq<Event>, kind: StarterKind): AcceptPlan {
    PlanAccept(owner, events, LayoutOf(owner, events), kind)
  }

  /** The starter the acceptance names: an existing one of the kind, or the new one. */
  function NamedStarter(plan: AcceptPlan, lineage: StarterId): StarterId {
    if plan.UseExistingStarter? then plan.starter else lineage
  }

  function PlannedCreation(plan: AcceptPlan): Option<PlannedStarter> {
    match plan
    case UseExistingStarter(_, created) => created
    case CreateStarterInEmptySlot(slot, kind) => Some(PlannedStarter(slot, kind))
    case NoCapacity => None
  }

  /** The ledger after one move. An acceptance without capacity appends nothing. */
  function Apply(owner: Key, events: seq<Event>, m: Move): seq<Event> {
    match m
    case Birth(ids, nonces, at) =>
      if |ids| == 5 && |nonces| == 5 then BirthTo(owner, events, m, 5) else events
    case Accept(_, _, kind, lineage, nonce, _, at) =>
      var plan := Plan(owner, events, kind);
      if plan.NoCapacity? then events
      else
        var accepted := events + [Acceptance(owner, m, NamedStarter(plan, lineage))];
        var c := PlannedCreation(plan);
        if c.Some? then accepted + [Creation(owner, lineage, c.value.kind, nonce, at)] else accepted
    case Append(e) => events + [e]
  }

  function BirthTo(owner: Key, events: seq<Event>, m: Move, n: nat): seq<Event>
    requires m.Birth? && |m.ids| == 5 && |m.nonces| == 5 && n <= 5
  {
    if n == 0 then events
    else BirthTo(owner, events, m, n - 1) + [Creation(owner, m.ids[n-1], BIRTH_KINDS[n-1], m.nonces[n-1], m.at)]
  }

  ghost predicate Enabled(owner: Key, events: seq<Event>, m: Move) {
    match m
    case Birth(ids, nonces, _) =>
      && |ids| == 5 && |nonces| == 5 && CreatedIds(owner, events) == {}
      && (forall i, j | 0 <= i < j < 5 :: ids[i] != ids[j])
      && (forall i | 0 <= i < 5 :: Unused(events, ids[i]))
    case Accept(invitation, _, _, lineage, _, _, _) => !Resolved(events, invitation) && Unused(events, lineage)
    case Append(e) => !(e.signer == owner && e.fact.StarterCreated?)
  }

  // ----- the invariant -----

  function Live(owner: Key, events: seq<Event>): set<StarterId> {
    LiveIds(owner, RevokedStarters(events), events)
  }

  ghost predicate KindsDistinct(owner: Key, events: seq<Event>, live: set<StarterId>) {
    forall a, b | a in live && b in live && a != b ::
      StarterKindOf(owner, events, a) != StarterKindOf(owner, events, b)
  }

  ghost predicate Sound(owner: Key, events: seq<Event>) {
    && Fits(owner, RevokedStarters(events), events)
    && KindsDistinct(owner, events, Live(owner, events))
  }

  function StarterIds(slots: Slots): (ids: seq<Option<StarterId>>)
    ensures |ids| == 5
  {
    seq(5, i requires 0 <= i < 5 => if slots[i].Empty? then None else Some(slots[i].id))
  }

  function Shown(owner: Key, events: seq<Event>): seq<Option<StarterId>> {
    StarterIds(LayoutOf(owner, events))
  }

  // ----- small facts -----

  lemma KindSnoc(owner: Key, events: seq<Event>, e: Event, id: StarterId)
    ensures StarterKindOf(owner, events + [e], id)
         == if CreatesStarter(owner, e, id) then Some(e.fact.starterKind) else StarterKindOf(owner, events, id)
  {
    assert (events + [e])[..|events|] == events;
  }

  lemma {:induction false} CreatedHasKind(owner: Key, events: seq<Event>, id: StarterId)
    requires id in CreatedIds(owner, events)
    ensures StarterKindOf(owner, events, id).Some?
  {
    var n := |events| - 1;
    assert events == events[..n] + [events[n]];
    if !CreatesStarter(owner, events[n], id) {
      LiveSnoc(owner, {}, events[..n], events[n]);
      CreatedHasKind(owner, events[..n], id);
    }
  }

  lemma SenderExpiredSnoc(events: seq<Event>, e: Event, id: InvitationId)
    ensures SenderExpired(events, id) ==> SenderExpired(events + [e], id)
    ensures !e.fact.InvitationExpired? && !ReceivedHead(e.fact, id) ==>
              (SenderExpired(events + [e], id) <==> SenderExpired(events, id))
  {
    var all := events + [e];
    if SenderExpired(events, id) {
      var i, j :| 0 <= i < |events| && 0 <= j < |events| &&
        events[i].fact == InvitationExpired(id) && ReceivedHead(events[j].fact, id) && events[j].signer == events[i].signer;
      assert all[i] == events[i] && all[j] == events[j];
    }
    if !e.fact.InvitationExpired? && !ReceivedHead(e.fact, id) && SenderExpired(all, id) {
      var i, j :| 0 <= i < |all| && 0 <= j < |all| &&
        all[i].fact == InvitationExpired(id) && ReceivedHead(all[j].fact, id) && all[j].signer == all[i].signer;
      assert all[i] == events[i] && all[j] == events[j];
    }
  }

  lemma RevokedGrows(events: seq<Event>, e: Event)
    ensures RevokedStarters(events) <= RevokedStarters(events + [e])
  {
    var all := events + [e];
    forall x | x in RevokedStarters(events) ensures x in RevokedStarters(all) {
      var i :| 0 <= i < |events| && events[i].fact.InvitationAccepted?
        && SenderExpired(events, events[i].fact.id) && events[i].fact.created == x;
      SenderExpiredSnoc(events, e, events[i].fact.id);
      assert all[i] == events[i];
    }
  }

  /** Only an expiry, an offer, or an acceptance of an expired invitation can
      revoke anything. */
  lemma RevokedSame(events: seq<Event>, e: Event)
    requires e.fact.StarterCreated?
          || (e.fact.InvitationAccepted? && !Resolved(events, e.fact.id))
    ensures RevokedStarters(events + [e]) == RevokedStarters(events)
  {
    RevokedGrows(events, e);
    var all := events + [e];
    forall x | x in RevokedStarters(all) ensures x in RevokedStarters(events) {
      var i :| 0 <= i < |all| && all[i].fact.InvitationAccepted?
        && SenderExpired(all, all[i].fact.id) && all[i].fact.created == x;
      SenderExpiredSnoc(events, e, all[i].fact.id);
      if i == |events| {
        ExpiredIsResolved(events, e.fact.id);
      } else {
        assert all[i] == events[i];
      }
    }
  }

  lemma ExpiredIsResolved(events: seq<Event>, id: InvitationId)
    ensures SenderExpired(events, id) ==> Resolved(events, id)
  {
    if SenderExpired(events, id) {
      var i :| 0 <= i < |events| && events[i].fact == InvitationExpired(id);
      assert TerminalShape(events[i].fact) == Some(id);
    }
  }

  lemma UnusedIsUnknown(owner: Key, events: seq<Event>, id: StarterId)
    requires Unused(events, id)
    ensures id !in CreatedIds(owner, events) && id !in BurnedIds(owner, events) && id !in RevokedStarters(events)
  {
  }

  lemma {:induction false} IdsCount(slots: Slots, k: nat, n: nat)
    requires k < 5 && slots[k].Empty? && n <= 5
    ensures |set i | 0 <= i < n && !slots[i].Empty? :: slots[i].id| <= n - (if k < n then 1 else 0)
  {
    var ids := set i | 0 <= i < n && !slots[i].Empty? :: slots[i].id;
    if n == 0 {
      assert ids == {};
    } else {
      IdsCount(slots, k, n - 1);
      var prev := set i | 0 <= i < n - 1 && !slots[i].Empty? :: slots[i].id;
      if slots[n-1].Empty? {
        assert ids == prev;
      } else {
        assert ids == prev + {slots[n-1].id};
      }
    }
  }

  /** An empty slot leaves at most four starters. */
  lemma EmptyMeansRoom(slots: Slots, k: nat)
    requires k < 5 && slots[k].Empty?
    ensures |SlotIds(slots)| < SLOTS
  {
    IdsCount(slots, k, 5);
    assert SlotIds(slots) == set i | 0 <= i < 5 && !slots[i].Empty? :: slots[i].id;
  }

  /** All slots show live starters, and every live starter is shown. */
  lemma LayoutShowsLive(owner: Key, events: seq<Event>)
    requires Sound(owner, events)
    ensures var slots := LayoutOf(owner, events);
            && NoDuplicates(slots) && SlotIds(slots) == Live(owner, events)
            && StarterIds(slots) == StarterIds(Replay(owner, RevokedStarters(events), events).slots)
            && Position(slots, IsEmpty) == Position(Replay(owner, RevokedStarters(events), events).slots, IsEmpty)
  {
    hide LayoutOf, Replay, RevokedStarters, LiveIds, Fits, NoDuplicates, SlotIds;
    LayoutEffect(owner, events);
    SameEmptiness(LayoutOf(owner, events), Replay(owner, RevokedStarters(events), events).slots);
  }

  lemma SameEmptiness(a: Slots, b: Slots)
    requires forall i | 0 <= i < SLOTS :: a[i].Empty? == b[i].Empty? && (!a[i].Empty? ==> a[i].id == b[i].id)
    ensures StarterIds(a) == StarterIds(b) && Position(a, IsEmpty) == Position(b, IsEmpty)
  {
    var p, q := Position(a, IsEmpty), Position(b, IsEmpty);
    assert forall i | 0 <= i < 5 :: IsEmpty(a[i]) == IsEmpty(b[i]);
  }

  lemma ShownIds(slots: Slots, s: SlotState)
    requires s in slots && !s.Empty?
    ensures s.id in SlotIds(slots)
  {
  }

  // ----- what single events do -----

  /** An event that creates nothing can only remove live starters. */
  lemma QuietSound(owner: Key, events: seq<Event>, e: Event)
    requires Sound(owner, events) && !(e.signer == owner && e.fact.StarterCreated?)
    ensures Sound(owner, events + [e])
  {
    hide CreatedIds, BurnedIds, RevokedStarters, StarterKindOf;
    var all := events + [e];
    RevokedGrows(events, e);
    LiveSnoc(owner, {}, events, e);
    FitsMonotone(owner, RevokedStarters(events), RevokedStarters(all), events);
    FitsWhole(owner, RevokedStarters(events), events);
    SubsetSize(Live(owner, all), Live(owner, events));
    FitsSnoc(owner, RevokedStarters(all), events, e);
    forall a, b | a in Live(owner, all) && b in Live(owner, all) && a != b
      ensures StarterKindOf(owner, all, a) != StarterKindOf(owner, all, b)
    {
      KindSnoc(owner, events, e, a);
      KindSnoc(owner, events, e, b);
    }
  }

  lemma FitsWhole(owner: Key, revoked: set<StarterId>, events: seq<Event>)
    requires Fits(owner, revoked, events)
    ensures |LiveIds(owner, revoked, events)| <= SLOTS
  {
    assert events[..|events|] == events;
  }

  lemma FitsSnoc(owner: Key, revoked: set<StarterId>, events: seq<Event>, e: Event)
    requires Fits(owner, revoked, events) && |LiveIds(owner, revoked, events + [e])| <= SLOTS
    ensures Fits(owner, revoked, events + [e])
  {
    hide LiveIds;
    var all := events + [e];
    forall n | 0 <= n <= |all| ensures |LiveIds(owner, revoked, all[..n])| <= SLOTS {
      if n <= |events| { assert all[..n] == events[..n]; } else { assert all[..n] == all; }
    }
  }

  lemma ReplaySnoc(owner: Key, revoked: set<StarterId>, events: seq<Event>, e: Event)
    ensures Replay(owner, revoked, events + [e]) == ReplayEvent(owner, revoked, Replay(owner, revoked, events), e)
  {
    assert (events + [e])[..|events|] == events;
  }

  /** An acceptance of an unresolved invitation moves no starter. */
  lemma AcceptanceMovesNothing(owner: Key, events: seq<Event>, e: Event)
    requires Sound(owner, events) && e.fact.InvitationAccepted? && !Resolved(events, e.fact.id)
    ensures Sound(owner, events + [e]) && Live(owner, events + [e]) == Live(owner, events)
    ensures Shown(owner, events + [e]) == Shown(owner, events)
    ensures Position(LayoutOf(owner, events + [e]), IsEmpty) == Position(LayoutOf(owner, events), IsEmpty)
    ensures forall id :: StarterKindOf(owner, events + [e], id) == StarterKindOf(owner, events, id)
  {
    hide CreatedIds, BurnedIds, RevokedStarters, StarterKindOf, LayoutOf, Fits, KindsDistinct, StarterIds;
    QuietSound(owner, events, e);
    RevokedSame(events, e);
    LiveSnoc(owner, {}, events, e);
    ReplaySnoc(owner, RevokedStarters(events), events, e);
    LayoutShowsLive(owner, events);
    LayoutShowsLive(owner, events + [e]);
    forall id ensures StarterKindOf(owner, events + [e], id) == StarterKindOf(owner, events, id) {
      KindSnoc(owner, events, e, id);
    }
  }

  /** Creating an unused starter of a missing kind while there is room puts it in
      the first empty slot and moves nothing else. */
  lemma CreationLands(owner: Key, events: seq<Event>, id: StarterId, kind: StarterKind, nonce: Key, at: u64, k: nat)
    requires Sound(owner, events) && Position(LayoutOf(owner, events), IsEmpty) == Some(k)
    requires id !in CreatedIds(owner, events) && id !in BurnedIds(owner, events) && id !in RevokedStarters(events)
    requires forall x | x in Live(owner, events) :: StarterKindOf(owner, events, x) != Some(kind)
    ensures var all := events + [Creation(owner, id, kind, nonce, at)];
            && Sound(owner, all) && Live(owner, all) == Live(owner, events) + {id}
            && Shown(owner, all) == Shown(owner, events)[k := Some(id)]
            && StarterKindOf(owner, all, id) == Some(kind)
            && (forall x | x != id :: StarterKindOf(owner, all, x) == StarterKindOf(owner, events, x))
  {
    hide CreatedIds, BurnedIds, RevokedStarters, StarterKindOf, LayoutOf, Fits, StarterIds, SlotIds, NoDuplicates, Contains;
    var e := Creation(owner, id, kind, nonce, at);
    var all := events + [e];
    var revoked := RevokedStarters(events);
    RevokedSame(events, e);
    LiveSnoc(owner, {}, events, e);
    LayoutShowsLive(owner, events);
    EmptyMeansRoom(LayoutOf(owner, events), k);
    assert Live(owner, all) == Live(owner, events) + {id};
    FitsSnoc(owner, revoked, events, e);
    forall x ensures x != id ==> StarterKindOf(owner, all, x) == StarterKindOf(owner, events, x) {
      KindSnoc(owner, events, e, x);
    }
    KindSnoc(owner, events, e, id);
    assert Sound(owner, all);
    CreationShown(owner, events, e, id, k);
  }

  lemma CreationShown(owner: Key, events: seq<Event>, e: Event, id: StarterId, k: nat)
    requires Sound(owner, events) && Sound(owner, events + [e])
    requires e.signer == owner && e.fact.StarterCreated? && e.fact.starter == id
    requires RevokedStarters(events + [e]) == RevokedStarters(events)
    requires id !in CreatedIds(owner, events) && id !in BurnedIds(owner, events) && id !in RevokedStarters(events)
    requires Position(LayoutOf(owner, events), IsEmpty) == Some(k)
    ensures Shown(owner, events + [e]) == Shown(owner, events)[k := Some(id)]
  {
    hide CreatedIds, BurnedIds, RevokedStarters, StarterKindOf, LayoutOf, SlotIds, NoDuplicates, Contains, Replay, Fits;
    var revoked := RevokedStarters(events);
    var slots := Replay(owner, revoked, events).slots;
    LayoutShowsLive(owner, events);
    LayoutShowsLive(owner, events + [e]);
    ReplaySnoc(owner, revoked, events, e);
    ReplayIsLive(owner, revoked, events);
    ContainsIsMember(slots, id);
    assert Replay(owner, revoked, events + [e]).slots == slots[k := Occupied(id)];
    assert StarterIds(slots[k := Occupied(id)]) == StarterIds(slots)[k := Some(id)];
  }

  // ----- the plan -----

  lemma AllKinds(kinds: set<StarterKind>)
    requires |kinds| == 5
    ensures forall k: StarterKind :: k in kinds
  {
    var all := {Juice, Spark, Seed, Pulse, Kick};
    forall k: StarterKind ensures k in all {
      match k case Juice => case Spark => case Seed => case Pulse => case Kick =>
    }
    FiveDistinct(Juice, Spark, Seed, Pulse, Kick);
    SubsetSize(kinds, all);
  }

  /** Five live starters of pairwise different kinds cover every kind. */
  lemma FullCoversKinds(owner: Key, events: seq<Event>, kind: StarterKind)
    requires Sound(owner, events) && Position(LayoutOf(owner, events), IsEmpty).None?
    ensures KindActive(owner, events, LayoutOf(owner, events), kind)
  {
    hide LayoutOf, RevokedStarters, StarterKindOf, Fits, CreatedIds, BurnedIds;
    LayoutShowsLive(owner, events);
    var slots := LayoutOf(owner, events);
    forall i | 0 <= i < 5
      ensures !slots[i].Empty? && slots[i] in slots && slots[i].id in Live(owner, events)
           && StarterKindOf(owner, events, slots[i].id).Some?
    {
      assert !IsEmpty(slots[i]);
      ShownIds(slots, slots[i]);
      CreatedHasKind(owner, events, slots[i].id);
    }
    var ks := seq(5, i requires 0 <= i < 5 => StarterKindOf(owner, events, slots[i].id).value);
    forall i, j | 0 <= i < j < 5 ensures ks[i] != ks[j] {
      assert slots[i].id != slots[j].id;
    }
    FiveDistinct(ks[0], ks[1], ks[2], ks[3], ks[4]);
    AllKinds({ks[0], ks[1], ks[2], ks[3], ks[4]});
    var i :| 0 <= i < 5 && ks[i] == kind;
    assert SlotKind(owner, events, slots[i]) == Some(kind);
  }

  /** An acceptance of any kind always finds a starter or an empty slot. */
  lemma AlwaysCapacity(owner: Key, events: seq<Event>, kind: StarterKind)
    requires Sound(owner, events)
    ensures Plan(owner, events, kind) != NoCapacity
  {
    hide LayoutOf, StarterKindOf, Sound;
    var slots := LayoutOf(owner, events);
    if Position(slots, IsEmpty).None? {
      FullCoversKinds(owner, events, kind);
      var s :| s in slots && SlotKind(owner, events, s) == Some(kind);
      var i :| 0 <= i < |slots| && slots[i] == s;
      assert OfKind(owner, events, kind)(slots[i]);
    }
  }

  /** The planned slot is the first empty one and the planned kind is missing. */
  lemma PlanIsSafe(owner: Key, events: seq<Event>, kind: StarterKind)
    requires Sound(owner, events) && PlannedCreation(Plan(owner, events, kind)).Some?
    ensures var c := PlannedCreation(Plan(owner, events, kind)).value;
            && Position(LayoutOf(owner, events), IsEmpty) == Some(c.slot)
            && forall x | x in Live(owner, events) :: StarterKindOf(owner, events, x) != Some(c.kind)
  {
    hide LayoutOf, StarterKindOf, RevokedStarters, Fits, CreatedIds, BurnedIds;
    var slots := LayoutOf(owner, events);
    var c := PlannedCreation(Plan(owner, events, kind)).value;
    LayoutShowsLive(owner, events);
    assert !KindActive(owner, events, slots, c.kind) by {
      if Plan(owner, events, kind).CreateStarterInEmptySlot? {
        assert forall i | 0 <= i < |slots| :: !OfKind(owner, events, kind)(slots[i]);
      }
    }
    forall x | x in Live(owner, events) ensures StarterKindOf(owner, events, x) != Some(c.kind) {
      var s :| s in slots && !s.Empty? && s.id == x;
      assert SlotKind(owner, events, s) != Some(c.kind);
    }
  }

  /** An acceptance keeps the invariant, names a live starter of the offered kind,
      and its new starter, if any, is in the planned slot with the planned kind
      while every other position shows what it showed. */
  lemma AcceptLands(owner: Key, events: seq<Event>, m: Move)
    requires m.Accept? && Sound(owner, events) && Enabled(owner, events, m)
    ensures var all := Apply(owner, events, m);
            var plan := Plan(owner, events, m.kind);
            && Sound(owner, all) && !plan.NoCapacity?
            && NamedStarter(plan, m.lineage) in Live(owner, all)
            && StarterKindOf(owner, all, NamedStarter(plan, m.lineage)) == Some(m.kind)
            && (match PlannedCreation(plan)
                case None => Shown(owner, all) == Shown(owner, events)
                case Some(c) =>
                  && c.slot < 5 && Shown(owner, all) == Shown(owner, events)[c.slot := Some(m.lineage)]
                  && StarterKindOf(owner, all, m.lineage) == Some(c.kind))
  {
    hide LayoutOf, StarterKindOf, Sound, Live, RevokedStarters, CreatedIds, BurnedIds, StarterIds, Unused, Resolved;
    var plan := Plan(owner, events, m.kind);
    AlwaysCapacity(owner, events, m.kind);
    var e := Acceptance(owner, m, NamedStarter(plan, m.lineage));
    var accepted := events + [e];
    AcceptanceMovesNothing(owner, events, e);
    if plan.UseExistingStarter? { MatchingIsLive(owner, events, m.kind); }
    if PlannedCreation(plan).Some? {
      var c := PlannedCreation(plan).value;
      PlanIsSafe(owner, events, m.kind);
      UnusedIsUnknown(owner, events, m.lineage);
      RevokedSame(events, e);
      LiveSnoc(owner, {}, events, e);
      CreationLands(owner, accepted, m.lineage, c.kind, m.nonce, m.at, c.slot);
    }
  }

  lemma MatchingIsLive(owner: Key, events: seq<Event>, kind: StarterKind)
    requires Sound(owner, events) && Plan(owner, events, kind).UseExistingStarter?
    ensures var id := Plan(owner, events, kind).starter;
            && id in Live(owner, events) && id in CreatedIds(owner, events)
            && StarterKindOf(owner, events, id) == Some(kind)
  {
    hide LayoutOf, StarterKindOf, RevokedStarters, Fits, CreatedIds, BurnedIds;
    LayoutShowsLive(owner, events);
    var slots := LayoutOf(owner, events);
    var k := Position(slots, OfKind(owner, events, kind)).value;
    ShownIds(slots, slots[k]);
  }

  // ----- birth -----

  lemma {:induction false} BirthLands(owner: Key, events: seq<Event>, m: Move, n: nat)
    requires m.Birth? && Sound(owner, events) && Enabled(owner, events, m) && n <= 5
    ensures var all := BirthTo(owner, events, m, n);
            && Sound(owner, all)
            && Live(owner, all) == (set i | 0 <= i < n :: m.ids[i])
            && RevokedStarters(all) == RevokedStarters(events)
            && CreatedIds(owner, all) == (set i | 0 <= i < n :: m.ids[i])
            && BurnedIds(owner, all) == BurnedIds(owner, events)
            && (forall i | 0 <= i < 5 :: Shown(owner, all)[i] == if i < n then Some(m.ids[i]) else None)
            && (forall i | 0 <= i < n :: StarterKindOf(owner, all, m.ids[i]) == Some(BIRTH_KINDS[i]))
  {
    hide LayoutOf, StarterKindOf, Sound, RevokedStarters, CreatedIds, BurnedIds, Unused;
    if n == 0 {
      NothingShown(owner, events);
    } else {
      BirthLands(owner, events, m, n - 1);
      var before := BirthTo(owner, events, m, n - 1);
      var id := m.ids[n-1];
      UnusedIsUnknown(owner, events, id);
      FirstEmptyIs(LayoutOf(owner, before), n - 1);
      var c := Creation(owner, id, BIRTH_KINDS[n-1], m.nonces[n-1], m.at);
      RevokedSame(before, c);
      LiveSnoc(owner, {}, before, c);
      assert (set i | 0 <= i < n :: m.ids[i]) == (set i | 0 <= i < n - 1 :: m.ids[i]) + {id};
      CreationLands(owner, before, id, BIRTH_KINDS[n-1], m.nonces[n-1], m.at, n - 1);
    }
  }

  lemma NothingShown(owner: Key, events: seq<Event>)
    requires Sound(owner, events) && CreatedIds(owner, events) == {}
    ensures Live(owner, events) == {} && forall i | 0 <= i < 5 :: Shown(owner, events)[i] == None
  {
    hide LayoutOf, RevokedStarters, CreatedIds, BurnedIds, Fits, KindsDistinct;
    LayoutShowsLive(owner, events);
    var slots := LayoutOf(owner, events);
    forall i | 0 <= i < 5 ensures slots[i].Empty? {
      if !slots[i].Empty? { ShownIds(slots, slots[i]); }
    }
  }

  lemma FirstEmptyIs(slots: Slots, n: nat)
    requires n < 5 && forall i | 0 <= i < 5 :: (StarterIds(slots)[i] == None <==> i >= n)
    ensures Position(slots, IsEmpty) == Some(n)
  {
    forall i | 0 <= i < 5 ensures IsEmpty(slots[i]) <==> i >= n {
      assert StarterIds(slots)[i] == None <==> i >= n;
    }
    assert IsEmpty(slots[n]);
  }

  // ----- every history -----

  /** The ledger after the first `n` moves. */
  function History(owner: Key, moves: seq<Move>, n: nat): seq<Event>
    requires n <= |moves|
  {
    if n == 0 then [] else Apply(owner, History(owner, moves, n - 1), moves[n-1])
  }

  lemma MoveSound(owner: Key, events: seq<Event>, m: Move)
    requires Sound(owner, events) && Enabled(owner, events, m)
    ensures Sound(owner, Apply(owner, events, m))
  {
    hide Sound, Plan;
    match m
    case Birth(_, _, _) => BirthLands(owner, events, m, 5);
    case Accept(_, _, _, _, _, _, _) => AcceptLands(owner, events, m);
    case Append(e) => QuietSound(owner, events, e);
  }

  /** In every history of births, acceptances, burns, revocations and anything
      else that creates no starter: the slots show exactly the starters created
      and neither burned nor revoked, each once, of pairwise different kinds; and
      an acceptance of any kind has capacity, although each revocation re-replays
      the whole history without the revoked starters. */
  lemma {:induction false} AllocationSound(owner: Key, moves: seq<Move>, n: nat, kind: StarterKind)
    requires n <= |moves| && forall i | 0 <= i < n :: Enabled(owner, History(owner, moves, i), moves[i])
    ensures var events := History(owner, moves, n);
            && Sound(owner, events)
            && NoDuplicates(LayoutOf(owner, events)) && SlotIds(LayoutOf(owner, events)) == Live(owner, events)
            && Plan(owner, events, kind) != NoCapacity
  {
    hide Apply, Enabled, Sound, LayoutOf, Live, NoDuplicates, SlotIds, Plan;
    if n == 0 {
      EmptySound(owner);
    } else {
      AllocationSound(owner, moves, n - 1, kind);
      MoveSound(owner, History(owner, moves, n - 1), moves[n-1]);
    }
    LayoutShowsLive(owner, History(owner, moves, n));
    AlwaysCapacity(owner, History(owner, moves, n), kind);
  }

  lemma EmptySound(owner: Key)
    ensures Sound(owner, [])
  {
    assert RevokedStarters([]) == {};
    NothingLive(owner);
    var none: seq<Event> := [];
    assert forall n | 0 <= n <= |none| :: none[..n] == none;
  }
}
