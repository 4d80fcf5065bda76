/** Routing the same delivery again and again, with anything else happening to the
    ledger in between. */
module Rerouting {
  import opened Common
  import opened Facts
  import Invitation
  import opened Slot
  import opened Allocation
  import opened Lookup
  import opened Router

  /** One delivery's life: other events are appended, and the delivery is routed. */
  datatype Act = Other(event: Event) | Deliver(turn: Turn)

  function After(c: Capsule, m: Envelope, start: seq<Event>, acts: seq<Act>): seq<Event> {
    if acts == [] then start
    else
      var events := After(c, m, start, acts[..|acts|-1]);
      match acts[|acts|-1]
      case Other(e) => events + [e]
      case Deliver(t) => Route(c, events, m, t).0
  }

  /** What the deliveries added, in order. */
  function Added(c: Capsule, m: Envelope, start: seq<Event>, acts: seq<Act>): seq<Event> {
    if acts == [] then []
    else
      var events := After(c, m, start, acts[..|acts|-1]);
      var before := Added(c, m, start, acts[..|acts|-1]);
      match acts[|acts|-1]
      case Other(_) => before
      case Deliver(t) => before + Adds(c, events, m, t)
  }

  function Adds(c: Capsule, events: seq<Event>, m: Envelope, t: Turn): seq<Event> {
    if |events| <= |Route(c, events, m, t).0| then Route(c, events, m, t).0[|events|..] else []
  }

  /** Every offer of this invitation says what kind it is for. */
  ghost predicate KindBytes(events: seq<Event>, id: InvitationId) {
    forall e | e in events && Invitation.IsOffer(e.fact) && e.fact.offer.id == id :: e.fact.offer.KindHint().Some?
  }

  /** A break that a v4 ledger dated anew is not dated before the delivery. */
  predicate DatedLate(c: Capsule, m: Envelope, e: Event) {
    c.legacy.None? && e.fact.RelationshipBroken? ==> Normalize(m.timestamp) <= e.timestamp
  }

  /** The migrated events are in the ledger. */
  predicate HoldsLegacy(c: Capsule, events: seq<Event>) { c.legacy.Some? ==> c.legacy.value <= |events| }

  // ----- evidence that an event of a kind is in place -----

  /** The ledger shows that the delivery's own event is there: for a break, as an event
      with this very id, or dated late enough to silence it. */
  ghost predicate RemoteDone(c: Capsule, events: seq<Event>, m: Envelope) {
    m.proof.Some? &&
    var f, signer := LocalFact(m.payload), m.proof.value.signer;
    if !f.RelationshipBroken? then HasSigned(events, f, signer)
    else
      match c.legacy
      case Some(n) => StoredSince(events, n, Event(f, m.timestamp, signer))
      case None => exists e | e in events :: e.fact == f && Normalize(m.timestamp) <= e.timestamp
  }

  ghost predicate EstablishedDone(c: Capsule, events: seq<Event>, m: Envelope) {
    m.payload.InvitationAccepted? &&
    var offer := FindOffer(c.owner, events, m.payload.id, Some(false));
    offer.Some? && HasFact(events, RelationshipEstablished(Establishes(c, m.from, m.payload, offer.value)))
  }

  ghost predicate BurnDone(c: Capsule, events: seq<Event>, m: Envelope) {
    m.payload.InvitationRejected? &&
    var offer := FindOffer(c.owner, events, m.payload.id, Some(false));
    offer.Some? && offer.value.starter in BurnedIds(c.owner, events)
  }

  ghost predicate Done(c: Capsule, events: seq<Event>, m: Envelope, kind: EventKind) {
    match kind
    case RelationshipEstablishedKind => EstablishedDone(c, events, m)
    case StarterBurnedKind => BurnDone(c, events, m)
    case _ => RemoteDone(c, events, m) && kind == KindOf(LocalFact(m.payload))
  }

  // ----- one delivery -----

  /** What a delivery adds: its own event unless skipped, then at most one effect. */
  lemma AddsShape(c: Capsule, events: seq<Event>, m: Envelope, t: Turn)
    ensures var adds := Adds(c, events, m, t);
            && Route(c, events, m, t).0 == events + adds && |adds| <= 2
            && (forall i | 0 <= i < |adds| ::
                  m.proof.Some? && SignerMatches(c, LocalFact(m.payload), m.proof.value.signer)
                  && (if i == 0 && Own(m, adds[0]) then !Skips(c, events, m)
                      else Effect(m, adds[i])))
            && (|adds| == 2 ==> Own(m, adds[0]))
  {
    hide ShouldSkip, FindOffer, LayoutOf, HasFact, Addressed, SignerMatches;
    RouteExtends(c, events, m, t);
  }

  predicate Skips(c: Capsule, events: seq<Event>, m: Envelope)
    requires m.proof.Some?
  {
    ShouldSkip(c.owner, events, LocalFact(m.payload), m.proof.value.signer, m.timestamp)
  }

  predicate Own(m: Envelope, e: Event) { e.fact == LocalFact(m.payload) }

  predicate Effect(m: Envelope, e: Event) {
    || (m.payload.InvitationAccepted? && e.fact.RelationshipEstablished?)
    || (m.payload.InvitationRejected? && e.fact.StarterBurned?)
  }

  /** What the router may write on behalf of others. A received event is signed by its
      prover, who is the root its payload names; an answer finds an open offer of ours, an
      expiry comes from the sender of the offer, a break ends an active relationship. No
      delivery can write a starter, a relationship or a capsule event of its own. */
  predicate Authentic(c: Capsule, events: seq<Event>, m: Envelope, e: Event) {
    m.proof.Some? && e.signer == m.proof.value.signer &&
    match e.fact
    case InvitationReceived(o) =>
      o.senderRoot == Some(e.signer) && !Resolved(events, o.id) && !ReceivedOffer(events, o.id, e.signer)
    case InvitationAccepted(id, _, _, root) =>
      root == Some(e.signer) && !Resolved(events, id) && FindOffer(c.owner, events, id, Some(false)).Some?
    case InvitationRejected(id, _) => !Resolved(events, id) && FindOffer(c.owner, events, id, Some(false)).Some?
    case InvitationExpired(id) => ExpiredMatches(c.owner, events, id, e.signer)
    case RelationshipBroken(peer, own, root) => root == Some(e.signer) && KeyActive(events, RelKey(peer, own))
    case Malformed(kind, _, _, _) => kind in {InvitationReceivedKind, InvitationRejectedKind, InvitationExpiredKind}
    case _ => false
  }

  lemma AddsAreAuthentic(c: Capsule, events: seq<Event>, m: Envelope, t: Turn, e: Event)
    requires e in Adds(c, events, m, t)
    ensures (Effect(m, e) && e.signer == c.owner) || Authentic(c, events, m, e)
  {
    hide Adds, ShouldSkip, Authentic;
    AddsSigned(c, events, m, t, e);
    if Own(m, e) { NotSkippedIsAuthentic(c, events, m, e); }
  }

  lemma AddsSigned(c: Capsule, events: seq<Event>, m: Envelope, t: Turn, e: Event)
    requires e in Adds(c, events, m, t)
    ensures m.proof.Some? && SignerMatches(c, LocalFact(m.payload), m.proof.value.signer)
    ensures (Effect(m, e) && e.signer == c.owner) || (Own(m, e) && e.signer == m.proof.value.signer && !Skips(c, events, m))
  {
    hide ShouldSkip, FindOffer, LayoutOf, HasFact, Addressed, Establishes, Contains, SignerMatches;
    RouteExtends(c, events, m, t);
  }

  lemma NotSkippedIsAuthentic(c: Capsule, events: seq<Event>, m: Envelope, e: Event)
    requires m.proof.Some? && Own(m, e) && e.signer == m.proof.value.signer && !Skips(c, events, m)
    requires SignerMatches(c, LocalFact(m.payload), e.signer)
    ensures Authentic(c, events, m, e)
  {
    hide FindOffer, Latest, KeyActive, Resolved, ReusesRejectedStarter;
  }

  /** What was added leaves its evidence. */
  lemma AddsLeaveEvidence(c: Capsule, events: seq<Event>, m: Envelope, t: Turn, e: Event)
    requires HoldsLegacy(c, events) && e in Adds(c, events, m, t) && DatedLate(c, m, e)
    ensures Done(c, Route(c, events, m, t).0, m, KindOf(e.fact))
  {
    hide ShouldSkip, Addressed, FindOffer, LayoutOf, HasFact, BurnedIds, Establishes, SignerMatches, Contains;
    var after := Route(c, events, m, t).0;
    RouteExtends(c, events, m, t);
    var f, signer := LocalFact(m.payload), m.proof.value.signer;
    var base := if ShouldSkip(c.owner, events, f, signer, m.timestamp) then events
                else AppendRemote(c, events, m, t).value;
    if e.fact == f {
      OwnEvent(c, events, m, t, e);
    } else if f.InvitationAccepted? {
      LateKind(c, base, m.from, f, t);
    } else {
      BurnLeaves(c, base, f, t);
    }
  }

  lemma OwnEvent(c: Capsule, events: seq<Event>, m: Envelope, t: Turn, e: Event)
    requires HoldsLegacy(c, events) && e in Adds(c, events, m, t) && Own(m, e) && DatedLate(c, m, e)
    ensures Done(c, Route(c, events, m, t).0, m, KindOf(e.fact))
  {
    hide Adds, Route, Normalize, SignerMatches;
    OwnIsFirst(c, events, m, t, e);
    var after := Route(c, events, m, t).0;
    ExtendsMembers(after, events + [e]);
    assert after[|events|] == e;
    AddsSigned(c, events, m, t, e);
    OwnKinds(c, LocalFact(m.payload), m.proof.value.signer);
  }

  lemma OwnKinds(c: Capsule, f: Fact, signer: Key)
    requires SignerMatches(c, f, signer)
    ensures KindOf(f) != RelationshipEstablishedKind && KindOf(f) != StarterBurnedKind
  {
  }

  lemma OwnIsFirst(c: Capsule, events: seq<Event>, m: Envelope, t: Turn, e: Event)
    requires e in Adds(c, events, m, t) && Own(m, e)
    ensures m.proof.Some? && AppendRemote(c, events, m, t) == Some(events + [e])
    ensures Extends(Route(c, events, m, t).0, events + [e])
  {
    hide ShouldSkip, Addressed, FindOffer, LayoutOf, HasFact, SignerMatches, Contains, Establishes, StoredSince, LocalDate;
    RouteExtends(c, events, m, t);
  }

  lemma BurnLeaves(c: Capsule, base: seq<Event>, f: Fact, t: Turn)
    requires f.InvitationRejected? && ProjectRejected(c, base, f, t).Some?
    ensures var after := ProjectRejected(c, base, f, t).value;
            var offer := FindOffer(c.owner, after, f.id, Some(false));
            && offer.Some?
            && (after != base ==> offer.value.starter in BurnedIds(c.owner, after))
  {
    hide LayoutOf, StarterKindOf;
    var after := ProjectRejected(c, base, f, t).value;
    assert Extends(after, base);
    OfferStays(c.owner, base, after, f.id, Some(false));
    if after != base {
      assert after[|base|].fact.StarterBurned? && after[|base|].signer == c.owner;
    }
  }

  /** Evidence of a kind stops the delivery from adding another event of that kind. */
  lemma DoneBlocks(c: Capsule, events: seq<Event>, m: Envelope, t: Turn, kind: EventKind)
    requires Done(c, events, m, kind)
    requires kind == RelationshipEstablishedKind || kind == StarterBurnedKind ==> KindOf(LocalFact(m.payload)) != kind
    ensures forall e | e in Adds(c, events, m, t) :: KindOf(e.fact) != kind
  {
    hide Addressed, FindOffer, LayoutOf, HasFact, BurnedIds, Establishes, SkipTerminal, SkipReceived;
    AddsShape(c, events, m, t);
    if kind == RelationshipEstablishedKind {
      EstablishedBlocks(c, events, m, t);
    } else if kind == StarterBurnedKind {
      BurnBlocks(c, events, m, t);
    } else {
      RemoteBlocks(c, events, m, t);
    }
  }

  lemma RemoteBlocks(c: Capsule, events: seq<Event>, m: Envelope, t: Turn)
    requires RemoteDone(c, events, m)
    ensures forall e | e in Adds(c, events, m, t) :: !Own(m, e)
  {
    hide ShouldSkip, StoredSince;
    if m.payload.RelationshipBroken? && c.legacy.Some? {
      StoredAddsNothing(c, events, m, t);
    } else {
      RemoteSkips(c, events, m);
      SkippedIsNotAdded(c, events, m, t);
    }
  }

  lemma SkippedIsNotAdded(c: Capsule, events: seq<Event>, m: Envelope, t: Turn)
    requires m.proof.Some? && Skips(c, events, m)
    ensures forall e | e in Adds(c, events, m, t) :: !Own(m, e)
  {
    hide Adds, Route, ShouldSkip;
    AddsShape(c, events, m, t);
  }

  /** A v5 ledger refuses the id it has, so the delivery leaves no second event. */
  lemma StoredAddsNothing(c: Capsule, events: seq<Event>, m: Envelope, t: Turn)
    requires m.proof.Some? && c.legacy.Some? && m.payload.RelationshipBroken?
    requires StoredSince(events, c.legacy.value, Event(m.payload, m.timestamp, m.proof.value.signer))
    ensures Route(c, events, m, t).0 == events && Adds(c, events, m, t) == []
  {
    hide ShouldSkip, StoredSince, Addressed, SignerMatches;
  }

  lemma RemoteSkips(c: Capsule, events: seq<Event>, m: Envelope)
    requires RemoteDone(c, events, m) && !(m.payload.RelationshipBroken? && c.legacy.Some?)
    ensures Skips(c, events, m)
  {
    hide SkipTerminal, SkipReceived, Latest, KeyActive;
    var f := LocalFact(m.payload);
    if f.RelationshipBroken? {
      var e :| e in events && e.fact == f && Normalize(m.timestamp) <= e.timestamp;
      RecordedBreakSilences(c.owner, events, f, m.proof.value.signer, m.timestamp, e);
    }
  }

  /** Where the projection starts from. */
  function Base(c: Capsule, events: seq<Event>, m: Envelope, t: Turn): Option<seq<Event>>
    requires m.proof.Some?
  {
    if Skips(c, events, m) then Some(events) else AppendRemote(c, events, m, t)
  }

  /** A projection that adds nothing leaves only the delivery's own event. */
  lemma QuietProjection(c: Capsule, events: seq<Event>, m: Envelope, t: Turn)
    requires m.proof.Some?
    requires var base := Base(c, events, m, t);
             base.Some? ==> var p := Project(c, base.value, m.from, LocalFact(m.payload), t);
                            p == None || p == Some(base.value)
    ensures forall e | e in Adds(c, events, m, t) :: Own(m, e)
  {
    hide ShouldSkip, Project, Addressed, SignerMatches;
    RouteExtends(c, events, m, t);
  }

  lemma EstablishedBlocks(c: Capsule, events: seq<Event>, m: Envelope, t: Turn)
    requires EstablishedDone(c, events, m)
    ensures forall e | e in Adds(c, events, m, t) :: !e.fact.RelationshipEstablished?
  {
    hide ShouldSkip, FindOffer, HasFact, Establishes, Addressed, LayoutOf;
    if m.proof.Some? {
      var base := Base(c, events, m, t);
      if base.Some? {
        if base.value != events {
          assert base.value == events + [base.value[|events|]];
          EstablishedGrows(c, events, m, base.value[|events|]);
        }
      }
      QuietProjection(c, events, m, t);
    } else {
      AddsShape(c, events, m, t);
    }
  }

  lemma BurnBlocks(c: Capsule, events: seq<Event>, m: Envelope, t: Turn)
    requires BurnDone(c, events, m)
    ensures forall e | e in Adds(c, events, m, t) :: !e.fact.StarterBurned?
  {
    hide ShouldSkip, FindOffer, Addressed, LayoutOf, BurnedIds, Contains;
    if m.proof.Some? {
      var base := Base(c, events, m, t);
      if base.Some? {
        if base.value != events {
          assert base.value == events + [base.value[|events|]];
          BurnGrows(c, events, m, base.value[|events|]);
        }
        BurnedNotShown(c.owner, base.value, FindOffer(c.owner, base.value, m.payload.id, Some(false)).value.starter);
      }
      QuietProjection(c, events, m, t);
    } else {
      AddsShape(c, events, m, t);
    }
  }

  // ----- evidence stays -----

  lemma EstablishedGrows(c: Capsule, events: seq<Event>, m: Envelope, e: Event)
    requires EstablishedDone(c, events, m)
    requires KindBytes(events, m.payload.id) || !e.fact.StarterCreated?
    ensures EstablishedDone(c, events + [e], m)
  {
    hide StarterKindOf, HasFact;
    var more, id := events + [e], m.payload.id;
    assert Extends(more, events);
    OfferStays(c.owner, events, more, id, Some(false));
    var k := Position(events, OfferIn(c.owner, id, Some(false))).value;
    assert OfferIn(c.owner, id, Some(false))(events[k]) && events[k] in events;
    if !e.fact.StarterCreated? { SameKindOf(c.owner, events, e); }
    HasFactGrows(events, more,
                 RelationshipEstablished(Establishes(c, m.from, m.payload, FindOffer(c.owner, events, id, Some(false)).value)),
                 0);
  }

  lemma BurnGrows(c: Capsule, events: seq<Event>, m: Envelope, e: Event)
    requires BurnDone(c, events, m)
    ensures BurnDone(c, events + [e], m)
  {
    hide StarterKindOf, BurnedIds;
    assert Extends(events + [e], events);
    OfferStays(c.owner, events, events + [e], m.payload.id, Some(false));
    LiveSnoc(c.owner, {}, events, e);
  }

  lemma DoneGrows(c: Capsule, events: seq<Event>, m: Envelope, e: Event, kind: EventKind)
    requires Done(c, events, m, kind)
    requires m.payload.InvitationAccepted? ==> KindBytes(events, m.payload.id)
    ensures Done(c, events + [e], m, kind)
  {
    hide EstablishedDone, BurnDone, HasSigned, KindBytes;
    if kind == RelationshipEstablishedKind {
      NeedsAcceptance(c, events, m);
      EstablishedGrows(c, events, m, e);
    } else if kind == StarterBurnedKind {
      BurnGrows(c, events, m, e);
    } else {
      assert Extends(events + [e], events);
      HasFactGrows(events, events + [e], LocalFact(m.payload), m.proof.value.signer);
      assert forall i | 0 <= i < |events| :: (events + [e])[i] == events[i];
    }
  }

  lemma NeedsAcceptance(c: Capsule, events: seq<Event>, m: Envelope)
    requires EstablishedDone(c, events, m)
    ensures m.payload.InvitationAccepted?
  {
  }

  /** ... through a whole continuation. */
  lemma {:induction false} DoneExtends(c: Capsule, events: seq<Event>, more: seq<Event>, m: Envelope, kind: EventKind)
    requires Extends(more, events) && Done(c, events, m, kind)
    requires m.payload.InvitationAccepted? ==> KindBytes(more, m.payload.id)
    ensures Done(c, more, m, kind)
    decreases |more|
  {
    hide Done, KindBytes;
    if |more| == |events| {
      assert more == events;
    } else {
      var n := |more| - 1;
      var less := more[..n];
      assert more == less + [more[n]] && less[..|events|] == more[..|events|];
      if m.payload.InvitationAccepted? { FewerKindBytes(less, more, m.payload.id); }
      DoneExtends(c, events, less, m, kind);
      DoneGrows(c, less, m, more[n], kind);
    }
  }

  lemma FewerKindBytes(less: seq<Event>, more: seq<Event>, id: InvitationId)
    requires Extends(more, less) && KindBytes(more, id)
    ensures KindBytes(less, id)
  {
    ExtendsMembers(more, less);
  }

  // ----- runs -----

  lemma {:induction false} AfterExtends(c: Capsule, m: Envelope, start: seq<Event>, acts: seq<Act>)
    ensures acts != [] ==> Extends(After(c, m, start, acts), After(c, m, start, acts[..|acts|-1]))
    ensures |start| <= |After(c, m, start, acts)|
  {
    hide Route;
    if acts != [] {
      AfterExtends(c, m, start, acts[..|acts|-1]);
      var events := After(c, m, start, acts[..|acts|-1]);
      match acts[|acts|-1]
      case Other(e) =>
      case Deliver(t) => RouteExtends(c, events, m, t);
    }
  }

  /** All events the deliveries added so far have their evidence, and different kinds. */
  ghost predicate OneEach(c: Capsule, m: Envelope, start: seq<Event>, acts: seq<Act>) {
    var added := Added(c, m, start, acts);
    && (forall e | e in added :: Done(c, After(c, m, start, acts), m, KindOf(e.fact)))
    && (forall i, j | 0 <= i < j < |added| :: KindOf(added[i].fact) != KindOf(added[j].fact))
  }

  /** However often a delivery is routed, and whatever else is appended in between, it
      adds at most one event of each kind: its own, one relationship, one burn. On a v5
      ledger that holds for breaks of any date; on a v4 ledger the stored break must not be
      dated before the delivery. */
  lemma {:induction false} AddsOneOfEach(c: Capsule, m: Envelope, start: seq<Event>, acts: seq<Act>)
    requires HoldsLegacy(c, start) && forall e | e in Added(c, m, start, acts) :: DatedLate(c, m, e)
    requires m.payload.InvitationAccepted? ==> KindBytes(After(c, m, start, acts), m.payload.id)
    ensures OneEach(c, m, start, acts)
  {
    hide Done, KindBytes, OneEach, Adds, Route;
    if acts == [] {
      NothingYet(c, m, start);
    } else {
      var less, last := acts[..|acts|-1], acts[|acts|-1];
      var events := After(c, m, start, less);
      AfterExtends(c, m, start, acts);
      if m.payload.InvitationAccepted? { FewerKindBytes(events, After(c, m, start, acts), m.payload.id); }
      AddsOneOfEach(c, m, start, less);
      OneEachStep(c, m, start, acts);
    }
  }

  lemma NothingYet(c: Capsule, m: Envelope, start: seq<Event>)
    ensures OneEach(c, m, start, [])
  {
  }

  lemma OneEachStep(c: Capsule, m: Envelope, start: seq<Event>, acts: seq<Act>)
    requires HoldsLegacy(c, start) && acts != [] && forall e | e in Added(c, m, start, acts) :: DatedLate(c, m, e)
    requires OneEach(c, m, start, acts[..|acts|-1])
    requires m.payload.InvitationAccepted? ==> KindBytes(After(c, m, start, acts), m.payload.id)
    ensures OneEach(c, m, start, acts)
  {
    hide Done, KindBytes, Adds, Route;
    var less, last := acts[..|acts|-1], acts[|acts|-1];
    var events, after := After(c, m, start, less), After(c, m, start, acts);
    AfterExtends(c, m, start, acts);
    AfterExtends(c, m, start, less);
    var before := Added(c, m, start, less);
    forall e | e in before ensures Done(c, after, m, KindOf(e.fact)) {
      DoneExtends(c, events, after, m, KindOf(e.fact));
    }
    match last
    case Other(e) =>
    case Deliver(t) => DeliverOnce(c, m, events, before, t);
  }

  lemma DeliverOnce(c: Capsule, m: Envelope, events: seq<Event>, before: seq<Event>, t: Turn)
    requires HoldsLegacy(c, events) && forall e | e in Adds(c, events, m, t) :: DatedLate(c, m, e)
    requires forall e | e in before :: Done(c, events, m, KindOf(e.fact))
    requires forall i, j | 0 <= i < j < |before| :: KindOf(before[i].fact) != KindOf(before[j].fact)
    ensures var adds := Adds(c, events, m, t);
            var all := before + adds;
            && (forall e | e in adds :: Done(c, Route(c, events, m, t).0, m, KindOf(e.fact)))
            && (forall i, j | 0 <= i < j < |all| :: KindOf(all[i].fact) != KindOf(all[j].fact))
  {
    hide Done, Adds, Route;
    var adds := Adds(c, events, m, t);
    var all := before + adds;
    forall e | e in adds ensures Done(c, Route(c, events, m, t).0, m, KindOf(e.fact)) {
      AddsLeaveEvidence(c, events, m, t, e);
    }
    AddsDiffer(c, events, m, t);
    forall i, j | 0 <= i < j < |all| ensures KindOf(all[i].fact) != KindOf(all[j].fact) {
      if i < |before| <= j {
        assert before[i] in before && adds[j - |before|] in adds;
        RemoteKinds(c, events, m, t);
        DoneBlocks(c, events, m, t, KindOf(before[i].fact));
      }
    }
  }

  lemma AddsDiffer(c: Capsule, events: seq<Event>, m: Envelope, t: Turn)
    ensures var adds := Adds(c, events, m, t);
            forall i, j | 0 <= i < j < |adds| :: KindOf(adds[i].fact) != KindOf(adds[j].fact)
  {
    hide Adds, Route, ShouldSkip;
    AddsShape(c, events, m, t);
  }

  /** A delivery that adds anything is not itself a relationship or a burn. */
  lemma RemoteKinds(c: Capsule, events: seq<Event>, m: Envelope, t: Turn)
    requires Adds(c, events, m, t) != []
    ensures KindOf(LocalFact(m.payload)) != RelationshipEstablishedKind && KindOf(LocalFact(m.payload)) != StarterBurnedKind
  {
    hide Adds, Route, ShouldSkip;
    AddsShape(c, events, m, t);
    var e := Adds(c, events, m, t)[0];
    assert SignerMatches(c, LocalFact(m.payload), m.proof.value.signer);
  }

  // ----- after a delivery was consumed -----

  /** The acceptance, or another answer to its invitation, is on record. */
  predicate Answered(events: seq<Event>, m: Envelope)
    requires m.payload.InvitationAccepted? && m.proof.Some?
  {
    Resolved(events, m.payload.id) || HasSigned(events, m.payload, m.proof.value.signer)
  }

  lemma ConsumedIsAnswered(c: Capsule, events: seq<Event>, m: Envelope, t: Turn)
    requires Checked(c, events, m, t) && m.payload.InvitationAccepted? && Route(c, events, m, t).1 == Consumed
    ensures Answered(Route(c, events, m, t).0, m)
  {
    hide FindOffer, Establishes, HasFact, Addressed;
    var after := Route(c, events, m, t).0;
    RouteExtends(c, events, m, t);
    if Skips(c, events, m) {
      assert FindOffer(c.owner, events, m.payload.id, Some(false)).Some?;
      if Resolved(events, m.payload.id) { ResolvedGrows(events, after, m.payload.id); }
      HasFactGrows(events, after, m.payload, m.proof.value.signer);
    } else {
      assert after[|events|] in after;
    }
  }

  /** The kind the offer of an acceptance carries in itself. */
  function OwnKind(c: Capsule, events: seq<Event>, id: InvitationId): Option<StarterKind> {
    match Position(events, OfferIn(c.owner, id, Some(false)))
    case Some(k) => events[k].fact.offer.KindHint()
    case None => None
  }

  function Variant(est: Establishment, kind: StarterKind): Fact {
    RelationshipEstablished(est.(kind := kind, senderKind := kind))
  }

  /** The relationships of all five kinds this acceptance could lead to. */
  predicate AllVariants(events: seq<Event>, est: Establishment) {
    forall kind: StarterKind :: HasFact(events, Variant(est, kind))
  }

  function Estab(c: Capsule, events: seq<Event>, m: Envelope): Establishment
    requires m.payload.InvitationAccepted? && FindOffer(c.owner, events, m.payload.id, Some(false)).Some?
  {
    Establishes(c, m.from, m.payload, FindOffer(c.owner, events, m.payload.id, Some(false)).value)
  }

  /** With an answer and the relationship of the current kind on record, a routing adds
      nothing, and is answered Consumed whenever the capsule can sign. */
  lemma QuietWhenRecorded(c: Capsule, events: seq<Event>, m: Envelope, t: Turn)
    requires m.payload.InvitationAccepted? && m.proof.Some? && Answered(events, m) && EstablishedDone(c, events, m)
    ensures Route(c, events, m, t).0 == events
    ensures t.loaded && t.aside == NotMatched && t.prepared && m.from != c.owner ==> Route(c, events, m, t).1 == Consumed
  {
    hide FindOffer, Establishes, HasFact, Addressed;
  }

  /** In any continuation the same acceptance leads to the same relationship, except
      perhaps for its kind. */
  lemma SameButKind(c: Capsule, events: seq<Event>, more: seq<Event>, m: Envelope)
    requires m.payload.InvitationAccepted? && Extends(more, events)
    requires FindOffer(c.owner, events, m.payload.id, Some(false)).Some?
    ensures FindOffer(c.owner, more, m.payload.id, Some(false)).Some?
    ensures var a, b := Estab(c, events, m), Estab(c, more, m);
            && RelationshipEstablished(b) == Variant(a, b.kind)
            && (OwnKind(c, events, m.payload.id).Some? ==> b == a)
  {
    hide StarterKindOf;
    OfferStays(c.owner, events, more, m.payload.id, Some(false));
  }

  /** After an acceptance was consumed, routing it again changes nothing in any
      continuation of the ledger, exactly if its offer carries its kind byte (or the
      relationship is on record in every kind there is). */
  lemma QuietForever(c: Capsule, events: seq<Event>, m: Envelope, t: Turn)
    requires Checked(c, events, m, t) && m.payload.InvitationAccepted? && Route(c, events, m, t).1 == Consumed
    ensures var after := Route(c, events, m, t).0;
            FindOffer(c.owner, after, m.payload.id, Some(false)).Some? &&
            ((forall more, t' | Extends(more, after) :: Route(c, more, m, t').0 == more)
             <==> (OwnKind(c, after, m.payload.id).Some? || AllVariants(after, Estab(c, after, m))))
  {
    hide Route, FindOffer, Establishes, Checked, AllVariants, HasFact, KindFromCode;
    var after := Route(c, events, m, t).0;
    AcceptanceEstablishes(c, events, m, t);
    ConsumedNeeds(c, events, m, t);
    ConsumedIsAnswered(c, events, m, t);
    if OwnKind(c, after, m.payload.id).Some? || AllVariants(after, Estab(c, after, m)) {
      forall more, t' | Extends(more, after) ensures Route(c, more, m, t').0 == more {
        StaysQuiet(c, after, m, more, t');
      }
    } else {
      Disturbance(c, events, after, m, t);
    }
  }

  lemma ConsumedNeeds(c: Capsule, events: seq<Event>, m: Envelope, t: Turn)
    requires Checked(c, events, m, t) && m.payload.InvitationAccepted? && Route(c, events, m, t).1 == Consumed
    ensures m.proof.Some? && m.from != c.owner
  {
    hide ShouldSkip, FindOffer, Establishes, HasFact, Addressed;
  }

  lemma StaysQuiet(c: Capsule, after: seq<Event>, m: Envelope, more: seq<Event>, t: Turn)
    requires m.payload.InvitationAccepted? && m.proof.Some? && Answered(after, m) && EstablishedDone(c, after, m)
    requires Extends(more, after)
    requires OwnKind(c, after, m.payload.id).Some? || AllVariants(after, Estab(c, after, m))
    ensures Route(c, more, m, t).0 == more
  {
    hide Route, FindOffer, Establishes, HasFact, Position;
    SameButKind(c, after, more, m);
    var est := RelationshipEstablished(Estab(c, more, m));
    assert HasFact(after, est);
    HasFactGrows(after, more, est, 0);
    HasFactGrows(after, more, m.payload, m.proof.value.signer);
    if Resolved(after, m.payload.id) { ResolvedGrows(after, more, m.payload.id); }
    QuietWhenRecorded(c, more, m, t);
  }

  /** Without a kind byte, a new creation of the offered starter in a kind not yet on
      record makes the next routing record another relationship. */
  lemma Disturbance(c: Capsule, events: seq<Event>, after: seq<Event>, m: Envelope, t: Turn)
    requires Checked(c, events, m, t) && m.payload.InvitationAccepted? && m.from != c.owner
    requires m.proof.Some? && Answered(after, m) && EstablishedDone(c, after, m)
    requires OwnKind(c, after, m.payload.id).None? && !AllVariants(after, Estab(c, after, m))
    ensures exists more, t' | Extends(more, after) :: Route(c, more, m, t').0 != more
  {
    hide Route, FindOffer, HasFact, Establishes, Checked;
    var est := Estab(c, after, m);
    var kind: StarterKind :| !HasFact(after, Variant(est, kind));
    var starter := FindOffer(c.owner, after, m.payload.id, Some(false)).value.starter;
    var e := Event(StarterCreated(starter, kind, 0), 0, c.owner);
    Recreated(c, after, m, kind);
    StillChecked(c, events, after + [e], m, t);
    assert Extends(after + [e], after);
    if Resolved(after, m.payload.id) { ResolvedGrows(after, after + [e], m.payload.id); }
    HasFactGrows(after, after + [e], m.payload, m.proof.value.signer);
    RecordsAnother(c, after + [e], m);
  }

  const READY := Turn(true, NotMatched, 0, true, true, true, 0)

  lemma StillChecked(c: Capsule, events: seq<Event>, more: seq<Event>, m: Envelope, t: Turn)
    requires Checked(c, events, m, t) && m.payload.InvitationAccepted?
    ensures Checked(c, more, m, READY)
  {
  }

  lemma RecordsAnother(c: Capsule, events: seq<Event>, m: Envelope)
    requires Checked(c, events, m, READY) && m.payload.InvitationAccepted? && m.from != c.owner && Answered(events, m)
    requires FindOffer(c.owner, events, m.payload.id, Some(false)).Some?
    requires !HasFact(events, RelationshipEstablished(Estab(c, events, m)))
    ensures Route(c, events, m, READY).0 != events
  {
    hide FindOffer, HasFact, Establishes, Addressed;
  }

  /** A later creation of the offered starter decides the kind of an offer without one. */
  lemma Recreated(c: Capsule, after: seq<Event>, m: Envelope, kind: StarterKind)
    requires m.payload.InvitationAccepted? && FindOffer(c.owner, after, m.payload.id, Some(false)).Some?
    requires OwnKind(c, after, m.payload.id).None?
    requires !HasFact(after, Variant(Estab(c, after, m), kind))
    ensures var starter := FindOffer(c.owner, after, m.payload.id, Some(false)).value.starter;
            var more := after + [Event(StarterCreated(starter, kind, 0), 0, c.owner)];
            && FindOffer(c.owner, more, m.payload.id, Some(false)).Some?
            && !HasFact(more, RelationshipEstablished(Estab(c, more, m)))
  {
    var starter := FindOffer(c.owner, after, m.payload.id, Some(false)).value.starter;
    var more := after + [Event(StarterCreated(starter, kind, 0), 0, c.owner)];
    assert Extends(more, after);
    OfferStays(c.owner, after, more, m.payload.id, Some(false));
    SameButKind(c, after, more, m);
  }

  /** The smallest such case: one offer without kind byte, its acceptance delivered,
      the starter created as Spark, and the acceptance delivered again. */
  lemma KindlessOfferRepeats(c: Capsule, o: Offer, m: Envelope)
    requires o.kindByte == None && m.payload.InvitationAccepted? && m.payload.id == o.id && m.from != c.owner
    requires var start := [Event(InvitationSent(o), 0, c.owner)];
             Checked(c, start, m, READY) && m.proof.value.version == 5
    ensures var start := [Event(InvitationSent(o), 0, c.owner)];
            var after := Route(c, start, m, READY).0;
            exists more, t | Extends(more, after) :: Route(c, more, m, t).0 != more
  {
    hide Route, FindOffer, Establishes, Checked, AllVariants, HasFact, OwnKind, Answered;
    var start := [Event(InvitationSent(o), 0, c.owner)];
    var after := Route(c, start, m, READY).0;
    FirstDelivery(c, o, m);
    ConsumedNeeds(c, start, m, READY);
    AcceptanceEstablishes(c, start, m, READY);
    ConsumedIsAnswered(c, start, m, READY);
    Disturbance(c, start, after, m, READY);
  }

  lemma FirstDelivery(c: Capsule, o: Offer, m: Envelope)
    requires o.kindByte == None && m.payload.InvitationAccepted? && m.payload.id == o.id && m.from != c.owner
    requires var start := [Event(InvitationSent(o), 0, c.owner)];
             Checked(c, start, m, READY) && m.proof.value.version == 5
    ensures var start := [Event(InvitationSent(o), 0, c.owner)];
            var after := Route(c, start, m, READY).0;
            && Route(c, start, m, READY).1 == Consumed && OwnKind(c, after, o.id).None?
            && FindOffer(c.owner, after, o.id, Some(false)).Some?
            && !AllVariants(after, Estab(c, after, m))
  {
    hide ShouldSkip, Addressed, SignerMatches, Establishes, StarterKindOf, FindOffer, AllVariants, HasFact, OfferKind;
    var offer := Event(InvitationSent(o), 0, c.owner);
    var start := [offer];
    NotYetAnswered(c, o, m);
    var base := AppendRemote(c, start, m, READY).value;
    assert |base| == 2 && base[0] == offer && base[1].fact == m.payload && Extends(base, start);
    OfferStays(c.owner, start, base, o.id, Some(false));
    assert ProjectAccepted(c, base, m.from, m.payload, READY).Some?;
    LateKind(c, base, m.from, m.payload, READY);
    var after := Route(c, start, m, READY).0;
    assert Extends(after, start);
    OfferStays(c.owner, start, after, o.id, Some(false));
    OneVariant(after, Estab(c, after, m));
  }

  lemma NotYetAnswered(c: Capsule, o: Offer, m: Envelope)
    requires m.payload.InvitationAccepted? && m.payload.id == o.id && m.proof.Some?
    ensures var start := [Event(InvitationSent(o), 0, c.owner)];
            && Position(start, OfferIn(c.owner, o.id, Some(false))) == Some(0)
            && FindOffer(c.owner, start, o.id, Some(false)).Some?
            && !ShouldSkip(c.owner, start, m.payload, m.proof.value.signer, m.timestamp)
  {
    hide StarterKindOf;
    var start := [Event(InvitationSent(o), 0, c.owner)];
    assert OfferIn(c.owner, o.id, Some(false))(start[0]);
  }

  lemma OneVariant(events: seq<Event>, est: Establishment)
    requires |events| <= 3 && (forall i | 0 <= i < 2 && i < |events| :: !events[i].fact.RelationshipEstablished?)
    ensures !AllVariants(events, est)
  {
    assert HasFact(events, Variant(est, Juice)) ==> |events| == 3 && events[2].fact == Variant(est, Juice);
    assert HasFact(events, Variant(est, Spark)) ==> |events| == 3 && events[2].fact == Variant(est, Spark);
  }
}
