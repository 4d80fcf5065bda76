/** Three folds that must agree on which offers of the owner are still open: the
    slot locks (slot.rs), the canonical projection (invitation.rs), and the queue
    of offers to be delivered again (invitation_support.rs). */
module PendingOffers {
  import opened Common
  import opened Facts
  import opened Invitation
  import opened Slot
  import opened Allocation

  // ----- the outbound retry queue -----

  datatype Delivery = Delivery(offer: Offer, timestamp: u64)

  function QueueEvent(owner: Key, q: map<InvitationId, Delivery>, e: Event): map<InvitationId, Delivery> {
    if e.fact.InvitationSent? && e.signer == owner then q[e.fact.offer.id := Delivery(e.fact.offer, e.timestamp)]
    else
      match TerminalShape(e.fact)
      case Some(id) => q - {id}
      case None => q
  }

  function OfferQueue(owner: Key, events: seq<Event>): map<InvitationId, Delivery> {
    if |events| == 0 then map[]
    else QueueEvent(owner, OfferQueue(owner, events[..|events|-1]), events[|events|-1])
  }

  /** `pending_outgoing_invitation_deliveries_in_runtime`, before its final sort. */
  method PendingOutgoingDeliveries(owner: Key, events: seq<Event>) returns (pending: map<InvitationId, Delivery>)
    ensures pending == OfferQueue(owner, events)
  {
    pending := map[];
    var n := 0;
    while n < |events|
      invariant 0 <= n <= |events|
      invariant pending == OfferQueue(owner, events[..n])
    {
      var e := events[n];
      assert events[..n+1][..n] == events[..n];
      if e.fact.InvitationSent? && e.signer == owner {
        pending := pending[e.fact.offer.id := Delivery(e.fact.offer, e.timestamp)];
      } else {
        var id := TerminalShape(e.fact);
        if id.Some? { pending := pending - {id.value}; }
      }
      n := n + 1;
    }
    assert events[..n] == events;
  }

  // ----- the hypotheses -----

  ghost predicate OneOfferEach(events: seq<Event>) {
    forall i, j | 0 <= i < |events| && 0 <= j < |events| && IsOffer(events[i].fact) && IsOffer(events[j].fact)
                  && events[i].fact.offer.id == events[j].fact.offer.id :: i == j
  }

  ghost predicate SentByOwner(owner: Key, events: seq<Event>) {
    forall i | 0 <= i < |events| && events[i].fact.InvitationSent? :: events[i].signer == owner
  }

  ghost predicate TerminalsWellFormed(events: seq<Event>) {
    forall i | 0 <= i < |events| :: TerminalShape(events[i].fact) == TerminalId(events[i].fact)
  }

  /** An answer that settles an own offer: an acceptance, a rejection, or the owner's expiry. */
  predicate ProperAnswer(owner: Key, e: Event, id: InvitationId) {
    TerminalId(e.fact) == Some(id) && (e.fact.InvitationExpired? ==> e.signer == owner)
  }

  predicate MeetsProperAnswer(owner: Key, events: seq<Event>, i: nat, id: InvitationId) {
    exists j | i < j < |events| :: ProperAnswer(owner, events[j], id)
  }

  /** Every own offer that met an answer at all met a proper one. */
  ghost predicate AnsweredProperly(owner: Key, events: seq<Event>) {
    forall i, k | 0 <= i < k < |events| && OwnOffer(owner, events[i])
                  && TerminalId(events[k].fact) == Some(events[i].fact.offer.id) ::
      MeetsProperAnswer(owner, events, i, events[i].fact.offer.id)
  }

  predicate OwnOffer(owner: Key, e: Event) { e.fact.InvitationSent? && e.signer == owner }

  // ----- what all three compute -----

  predicate Unanswered(events: seq<Event>, i: nat, n: nat, id: InvitationId)
    requires n <= |events|
  {
    forall k | i < k < n :: TerminalId(events[k].fact) != Some(id)
  }

  /** The owner's offer at index `i` has met no terminal so far. */
  predicate Open(owner: Key, events: seq<Event>, i: nat, id: InvitationId, starter: StarterId) {
    && i < |events| && events[i].fact.InvitationSent? && events[i].signer == owner
    && events[i].fact.offer.id == id && events[i].fact.offer.starter == starter
    && Unanswered(events, i, |events|, id)
  }

  ghost predicate IsOpen(owner: Key, events: seq<Event>, id: InvitationId, starter: StarterId) {
    exists i: nat :: Open(owner, events, i, id, starter)
  }

  lemma OpenSnoc(owner: Key, events: seq<Event>, e: Event, id: InvitationId, starter: StarterId)
    ensures IsOpen(owner, events + [e], id, starter) <==>
              || (e.fact.InvitationSent? && e.signer == owner && e.fact.offer.id == id && e.fact.offer.starter == starter)
              || (IsOpen(owner, events, id, starter) && TerminalId(e.fact) != Some(id))
  {
    var all, n := events + [e], |events|;
    assert all[n] == e && forall k | 0 <= k < n :: all[k] == events[k];
    if IsOpen(owner, all, id, starter) {
      var i: nat :| Open(owner, all, i, id, starter);
      if i < n { assert Open(owner, events, i, id, starter); }
    }
    if e.fact.InvitationSent? && e.signer == owner && e.fact.offer.id == id && e.fact.offer.starter == starter {
      assert Open(owner, all, n, id, starter);
    }
    if IsOpen(owner, events, id, starter) && TerminalId(e.fact) != Some(id) {
      var i: nat :| Open(owner, events, i, id, starter);
      assert Open(owner, all, i, id, starter);
    }
  }

  /** The slot-lock fold holds exactly the open offers, for every ledger. */
  lemma {:induction false} LocksAreOpen(owner: Key, events: seq<Event>, id: InvitationId, starter: StarterId)
    ensures (id, starter) in PendingLocks(owner, events) <==> IsOpen(owner, events, id, starter)
  {
    if |events| > 0 {
      var n := |events| - 1;
      var before, e := events[..n], events[n];
      assert events == before + [e];
      LocksAreOpen(owner, before, id, starter);
      OpenSnoc(owner, before, e, id, starter);
      if TerminalId(e.fact).Some? {
        FilterMembers(PendingLocks(owner, before), OtherInvitation(TerminalId(e.fact).value));
      }
    }
  }

  /** The retry queue holds exactly the open offers when ids are offered once. */
  lemma {:induction false} QueueIsOpen(owner: Key, events: seq<Event>, id: InvitationId, starter: StarterId)
    requires OneOfferEach(events) && TerminalsWellFormed(events)
    ensures (id in OfferQueue(owner, events) && OfferQueue(owner, events)[id].offer.starter == starter)
       <==> IsOpen(owner, events, id, starter)
  {
    if |events| > 0 {
      var n := |events| - 1;
      var before, e := events[..n], events[n];
      assert events == before + [e];
      assert forall k | 0 <= k < n :: before[k] == events[k];
      QueueIsOpen(owner, before, id, starter);
      OpenSnoc(owner, before, e, id, starter);
      if IsOpen(owner, before, id, starter) {
        var i: nat :| Open(owner, before, i, id, starter);
        assert events[i].fact.offer.id == id;
      }
    }
  }

  /** The queue holds an open offer as it was sent, with its date. */
  lemma {:induction false} QueuedAsSent(owner: Key, events: seq<Event>, i: nat)
    requires OneOfferEach(events) && TerminalsWellFormed(events)
    requires i < |events| && OwnOffer(owner, events[i]) && Unanswered(events, i, |events|, events[i].fact.offer.id)
    ensures var q, o := OfferQueue(owner, events), events[i].fact.offer;
            o.id in q && q[o.id] == Delivery(o, events[i].timestamp)
  {
    var n := |events| - 1;
    var before := events[..n];
    assert forall k | 0 <= k < n :: before[k] == events[k];
    if i < n { QueuedAsSent(owner, before, i); }
  }

  // ----- the canonical projection -----

  /** The own offer at index `i` has met no proper answer so far. */
  predicate Unsettled(owner: Key, events: seq<Event>, i: nat, id: InvitationId, starter: StarterId) {
    && i < |events| && OwnOffer(owner, events[i])
    && events[i].fact.offer.id == id && events[i].fact.offer.starter == starter
    && !MeetsProperAnswer(owner, events, i, id)
  }

  ghost predicate IsUnsettled(owner: Key, events: seq<Event>, id: InvitationId, starter: StarterId) {
    exists i: nat :: Unsettled(owner, events, i, id, starter)
  }

  ghost predicate PendingRecord(owner: Key, events: seq<Event>, id: InvitationId, starter: StarterId) {
    exists r | r in Invitations(owner, events) :: !r.incoming && r.status == Pending && r.id == id && r.starter == starter
  }

  /** The canonical projection has exactly the unsettled offers as outgoing pending records. */
  lemma CanonicalIsUnsettled(owner: Key, events: seq<Event>, id: InvitationId, starter: StarterId)
    requires OneOfferEach(events) && SentByOwner(owner, events)
    ensures PendingRecord(owner, events, id, starter) <==> IsUnsettled(owner, events, id, starter)
  {
    hide Invitations, Life, Unsettled;
    var rs := Invitations(owner, events);
    InvitationIsItsLife(owner, events, id);
    if IsUnsettled(owner, events, id, starter) {
      var i: nat :| Unsettled(owner, events, i, id, starter);
      UnsettledIsPending(owner, events, i, id, starter);
      var k := Position(rs, HasId(id)).value;
      assert rs[k] in rs;
    }
    if r :| r in rs && !r.incoming && r.status == Pending && r.id == id && r.starter == starter {
      PendingIsUnsettled(owner, events, r);
    }
  }

  lemma UnsettledIsPending(owner: Key, events: seq<Event>, i: nat, id: InvitationId, starter: StarterId)
    requires OneOfferEach(events) && Unsettled(owner, events, i, id, starter)
    ensures FirstOffer(events, |events|, id, i)
    ensures var r := Life(owner, events, i, |events|);
            !r.incoming && r.status == Pending && r.id == id && r.starter == starter
  {
    hide Life;
    OnlyOfferIsFirst(events, i);
    LifeStatus(owner, events, i, |events|);
    LifeKeepsIdentity(owner, events, i, |events|);
    forall k | i < k < |events| ensures !Effective(owner, NewInvitation(events[i]), events[k]) {
      assert !ProperAnswer(owner, events[k], id);
    }
  }

  lemma PendingIsUnsettled(owner: Key, events: seq<Event>, r: Invitation)
    requires OneOfferEach(events) && SentByOwner(owner, events)
    requires r in Invitations(owner, events) && !r.incoming && r.status == Pending
    ensures IsUnsettled(owner, events, r.id, r.starter)
  {
    hide Invitations, Life;
    var rs := Invitations(owner, events);
    InvitationIsItsLife(owner, events, r.id);
    IdsUnique(owner, events);
    var j :| 0 <= j < |rs| && rs[j] == r;
    assert HasId(r.id)(rs[j]);
    UniqueMember(rs, r, FindInvitation(rs, r.id).value, IdOf);
    var i: nat :| i < |events| && OffersId(events[i], r.id);
    OnlyOfferIsFirst(events, i);
    LifeStatus(owner, events, i, |events|);
    LifeKeepsIdentity(owner, events, i, |events|);
    forall k | i < k < |events| ensures !ProperAnswer(owner, events[k], r.id) {
      assert !Effective(owner, NewInvitation(events[i]), events[k]);
    }
    assert Unsettled(owner, events, i, r.id, r.starter);
  }

  lemma OnlyOfferIsFirst(events: seq<Event>, i: nat)
    requires OneOfferEach(events) && i < |events| && IsOffer(events[i].fact)
    ensures FirstOffer(events, |events|, events[i].fact.offer.id, i)
  {
    assert forall j | 0 <= j < i :: events[..i][j] == events[j];
  }

  // ----- agreement -----

  ghost predicate LocksMatchRecords(owner: Key, events: seq<Event>) {
    forall id: InvitationId, starter: StarterId ::
      (id, starter) in PendingLocks(owner, events) <==> PendingRecord(owner, events, id, starter)
  }

  ghost predicate LocksMatchQueue(owner: Key, events: seq<Event>) {
    forall id: InvitationId, starter: StarterId ::
      (id, starter) in PendingLocks(owner, events)
      <==> id in OfferQueue(owner, events) && OfferQueue(owner, events)[id].offer.starter == starter
  }

  lemma OpenIsUnsettled(owner: Key, events: seq<Event>, id: InvitationId, starter: StarterId)
    ensures IsOpen(owner, events, id, starter) ==> IsUnsettled(owner, events, id, starter)
    ensures AnsweredProperly(owner, events) && IsUnsettled(owner, events, id, starter) ==> IsOpen(owner, events, id, starter)
  {
    if i: nat :| Open(owner, events, i, id, starter) {
      assert Unsettled(owner, events, i, id, starter);
    }
    if AnsweredProperly(owner, events) && IsUnsettled(owner, events, id, starter) {
      var i: nat :| Unsettled(owner, events, i, id, starter);
      assert Open(owner, events, i, id, starter);
    }
  }

  /** The slot locks and the canonical projection agree on every offer if and only if
      every own offer that met an answer met an acceptance, a rejection or the owner's
      expiry. A foreign expiry before the offer, or beside a proper answer, is harmless. */
  lemma LocksMatchExactly(owner: Key, events: seq<Event>)
    requires OneOfferEach(events) && SentByOwner(owner, events)
    ensures LocksMatchRecords(owner, events) <==> AnsweredProperly(owner, events)
  {
    hide PendingLocks, Invitations, IsOpen, IsUnsettled, AnsweredProperly, PendingRecord;
    forall id: InvitationId, starter: StarterId
      ensures (id, starter) in PendingLocks(owner, events) <==> IsOpen(owner, events, id, starter)
      ensures PendingRecord(owner, events, id, starter) <==> IsUnsettled(owner, events, id, starter)
    {
      LocksAreOpen(owner, events, id, starter);
      CanonicalIsUnsettled(owner, events, id, starter);
    }
    if AnsweredProperly(owner, events) {
      forall id: InvitationId, starter: StarterId ensures IsOpen(owner, events, id, starter) <==> IsUnsettled(owner, events, id, starter) {
        OpenIsUnsettled(owner, events, id, starter);
      }
    } else {
      ImproperDiverges(owner, events);
    }
  }

  /** An offer answered only by a foreign expiry is unlocked and still pending. */
  lemma ImproperDiverges(owner: Key, events: seq<Event>)
    requires OneOfferEach(events) && !AnsweredProperly(owner, events)
    ensures exists id: InvitationId, starter: StarterId :: !IsOpen(owner, events, id, starter) && IsUnsettled(owner, events, id, starter)
  {
    var i, k :| 0 <= i < k < |events| && OwnOffer(owner, events[i])
      && TerminalId(events[k].fact) == Some(events[i].fact.offer.id)
      && !MeetsProperAnswer(owner, events, i, events[i].fact.offer.id);
    var id, starter := events[i].fact.offer.id, events[i].fact.offer.starter;
    assert Unsettled(owner, events, i, id, starter);
    forall j: nat ensures !Open(owner, events, j, id, starter) {
      if j < |events| && events[j].fact.InvitationSent? && events[j].fact.offer.id == id { assert j == i; }
    }
    assert !IsOpen(owner, events, id, starter) && IsUnsettled(owner, events, id, starter);
  }

  /** All three folds agree on every offer, if and only if every own offer that met an
      answer met a proper one. */
  lemma ThreeFoldsAgree(owner: Key, events: seq<Event>)
    requires OneOfferEach(events) && SentByOwner(owner, events) && TerminalsWellFormed(events)
    ensures LocksMatchRecords(owner, events) && LocksMatchQueue(owner, events) <==> AnsweredProperly(owner, events)
  {
    hide LocksMatchRecords, PendingLocks, OfferQueue, IsOpen, AnsweredProperly, OneOfferEach, TerminalsWellFormed;
    LocksMatchExactly(owner, events);
    forall id: InvitationId, starter: StarterId
      ensures (id, starter) in PendingLocks(owner, events)
              <==> id in OfferQueue(owner, events) && OfferQueue(owner, events)[id].offer.starter == starter
    {
      LocksAreOpen(owner, events, id, starter);
      QueueIsOpen(owner, events, id, starter);
    }
  }

  /** The smallest disagreement: an expiry signed by somebody else unlocks the starter
      and empties the queue while the canonical record stays pending. */
  lemma ForeignExpiryDiverges(owner: Key, stranger: Key, offer: Offer, t: u64, u: u64)
    requires stranger != owner
    ensures var events := [Event(InvitationSent(offer), t, owner), Event(InvitationExpired(offer.id), u, stranger)];
            && PendingLocks(owner, events) == [] && OfferQueue(owner, events) == map[]
            && Invitations(owner, events) == [NewInvitation(events[0])]
  {
    var sent, expired := Event(InvitationSent(offer), t, owner), Event(InvitationExpired(offer.id), u, stranger);
    var one, both := [sent], [sent, expired];
    assert both[..1] == one && one[..0] == [];
    assert PendingLocks(owner, one) == [(offer.id, offer.starter)];
    FilterMembers([(offer.id, offer.starter)], OtherInvitation(offer.id));
    assert OfferQueue(owner, one) == map[offer.id := Delivery(offer, t)];
    assert Invitations(owner, one) == [NewInvitation(sent)];
  }

  // ----- locks -----

  function PendingStarters(pending: seq<(InvitationId, StarterId)>, n: nat): set<StarterId>
    requires n <= |pending|
  {
    set i | 0 <= i < n :: pending[i].1
  }

  lemma NoPendingStarters(pending: seq<(InvitationId, StarterId)>)
    ensures PendingStarters(pending, 0) == {}
  {
  }

  lemma {:induction false} LockListIsAll(pending: seq<(InvitationId, StarterId)>, n: nat)
    requires n <= |pending| && |PendingStarters(pending, |pending|)| <= SLOTS
    ensures forall x :: x in LockList(pending, n) <==> x in PendingStarters(pending, n)
    ensures |PendingStarters(pending, n)| == |LockList(pending, n)|
  {
    hide PendingStarters;
    var now := PendingStarters(pending, n);
    if n == 0 {
      assert now == {} by { NoPendingStarters(pending); }
    } else {
      LockListIsAll(pending, n - 1);
      var before, ids, x := PendingStarters(pending, n - 1), LockList(pending, n - 1), pending[n-1].1;
      PendingStartersSnoc(pending, n);
      SubsetSize(now, PendingStarters(pending, |pending|));
    }
  }

  lemma PendingStartersSnoc(pending: seq<(InvitationId, StarterId)>, n: nat)
    requires 0 < n <= |pending|
    ensures PendingStarters(pending, n) == PendingStarters(pending, n - 1) + {pending[n-1].1}
    ensures PendingStarters(pending, n) <= PendingStarters(pending, |pending|)
  {
  }

  /** In every ledger a position is locked exactly if its starter is among the
      first five distinct starters with an open offer; so when at most five are
      pending, exactly if it has an open offer. */
  lemma LockedExactly(owner: Key, events: seq<Event>, i: nat)
    requires i < 5 && !LayoutOf(owner, events)[i].Empty?
    ensures var s, pending := LayoutOf(owner, events)[i], PendingLocks(owner, events);
            && (s.Locked? <==> s.id in LockedStarters(owner, events))
            && (|PendingStarters(pending, |pending|)| <= SLOTS ==>
                 (s.Locked? <==> exists id :: IsOpen(owner, events, id, s.id)))
  {
    hide Replay, RevokedStarters, LockFirst, PendingLocks, IsOpen, LockList;
    var revoked, pending := RevokedStarters(events), PendingLocks(owner, events);
    ReplayNoDuplicates(owner, revoked, events);
    ReplayOccupied(owner, revoked, events);
    LockedLayout(Replay(owner, revoked, events).slots, LockedStarters(owner, events));
    var s := LayoutOf(owner, events)[i];
    if |PendingStarters(pending, |pending|)| <= SLOTS {
      LockListIsAll(pending, |pending|);
      if s.id in LockedStarters(owner, events) {
        var k :| 0 <= k < |pending| && pending[k].1 == s.id;
        assert (pending[k].0, s.id) in pending;
        LocksAreOpen(owner, events, pending[k].0, s.id);
      }
      if exists id: Key :: IsOpen(owner, events, id, s.id) {
        var id: Key :| IsOpen(owner, events, id, s.id);
        LocksAreOpen(owner, events, id, s.id);
        var k :| 0 <= k < |pending| && pending[k] == (id, s.id);
        assert pending[k].1 in PendingStarters(pending, |pending|);
      }
    }
  }
}
