/** `SlotLayout`: the five-slot array that `from_ledger` fills in place, and the
    scans that find revoked and locked starters. */
module SlotLayouts {
  import opened Common
  import opened Facts
  import opened Slot

  class SlotLayout {
    const slots: array<SlotState>

    ghost predicate Valid()
      reads this
    {
      slots.Length == 5
    }

    function States(): (s: Slots)
      reads this, slots
      requires Valid()
    {
      slots[..]
    }

    constructor ()
      ensures Valid() && fresh(slots) && States() == EMPTY_SLOTS
    {
      slots := new SlotState[5](_ => Empty);
    }

    /** The first position from the left that satisfies `p`. */
    method Find(p: SlotState -> bool) returns (k: Option<nat>)
      requires Valid()
      ensures k == Position(States(), p)
    {
      var i := 0;
      while i < slots.Length
        invariant 0 <= i <= slots.Length
        invariant forall j | 0 <= j < i :: !p(slots[j])
      {
        if p(slots[i]) { return Some(i); }
        i := i + 1;
      }
      k := None;
    }

    method OccupyFirstFree(id: StarterId)
      requires Valid()
      modifies slots
      ensures States() == Slot.OccupyFirstFree(old(States()), id)
    {
      var k := Find(IsEmpty);
      if k.Some? { slots[k.value] := Occupied(id); }
    }

    method FreeStarter(id: StarterId)
      requires Valid()
      modifies slots
      ensures States() == Slot.FreeStarter(old(States()), id)
    {
      var k := Find(HoldsId(id));
      if k.Some? { slots[k.value] := Empty; }
    }

    method LockStarter(id: StarterId)
      requires Valid()
      modifies slots
      ensures States() == Slot.LockStarter(old(States()), id)
    {
      var k := Find(OccupiedBy(id));
      if k.Some? { slots[k.value] := Locked(id); }
    }

    method ContainsStarter(id: StarterId) returns (found: bool)
      requires Valid()
      ensures found == Contains(States(), id)
    {
      var k := Find(HoldsId(id));
      found := k.Some?;
      if found {
        assert States()[k.value] in States() && Holds(States()[k.value], id);
      } else {
        forall s | s in States() ensures !Holds(s, id) {
          var i :| 0 <= i < 5 && States()[i] == s;
          assert !HoldsId(id)(States()[i]);
        }
      }
    }
  }

  /** `revoked_created_starter_ids`: the starters named by acceptances of invitations
      whose own sender signed the expiry. */
  method RevokedCreatedStarterIds(events: seq<Event>) returns (revoked: seq<StarterId>)
    ensures Elements(revoked) == RevokedStarters(events)
  {
    hide SenderExpired;
    var expired := SenderExpiredIds(events);
    revoked := [];
    var n := 0;
    while n < |events|
      invariant 0 <= n <= |events|
      invariant forall x :: x in revoked <==>
        exists i | 0 <= i < n && events[i].fact.InvitationAccepted? :: events[i].fact.id in expired && events[i].fact.created == x
    {
      var e := events[n];
      if e.fact.InvitationAccepted? && e.fact.id in expired && e.fact.created !in revoked {
        revoked := revoked + [e.fact.created];
      }
      n := n + 1;
    }
  }

  /** Its first loop. */
  method SenderExpiredIds(events: seq<Event>) returns (expired: seq<InvitationId>)
    ensures forall id :: id in expired <==> SenderExpired(events, id)
  {
    hide OfferSigned, SenderExpired, ExpiredIn;
    expired := [];
    var n := 0;
    forall id ensures !ExpiredIn(events, 0, id) { NoneExpiredYet(events, id); }
    while n < |events|
      invariant 0 <= n <= |events|
      invariant forall id :: id in expired <==> ExpiredIn(events, n, id)
    {
      var e := events[n];
      if e.fact.InvitationExpired? && OfferSigned(events, e.fact.id, e.signer) && e.fact.id !in expired {
        expired := expired + [e.fact.id];
      }
      forall id ensures id in expired <==> ExpiredIn(events, n + 1, id) { ExpiredInStep(events, n, id); }
      n := n + 1;
    }
    forall id ensures id in expired <==> SenderExpired(events, id) {
      ExpiredInAll(events, id);
    }
  }

  predicate OfferSigned(events: seq<Event>, id: InvitationId, signer: Key) {
    exists j | 0 <= j < |events| :: ReceivedHead(events[j].fact, id) && events[j].signer == signer
  }

  predicate ExpiredIn(events: seq<Event>, n: nat, id: InvitationId)
    requires n <= |events|
  {
    exists i | 0 <= i < n :: events[i].fact == InvitationExpired(id) && OfferSigned(events, id, events[i].signer)
  }

  lemma NoneExpiredYet(events: seq<Event>, id: InvitationId)
    ensures !ExpiredIn(events, 0, id)
  {
  }

  lemma ExpiredInStep(events: seq<Event>, n: nat, id: InvitationId)
    requires n < |events|
    ensures ExpiredIn(events, n + 1, id)
       <==> ExpiredIn(events, n, id) || (events[n].fact == InvitationExpired(id) && OfferSigned(events, id, events[n].signer))
  {
    hide OfferSigned;
  }

  lemma ExpiredInAll(events: seq<Event>, id: InvitationId)
    ensures ExpiredIn(events, |events|, id) <==> SenderExpired(events, id)
  {
  }

  /** `locked_starter_ids`. */
  method LockedStarterIds(owner: Key, events: seq<Event>) returns (ids: seq<StarterId>)
    ensures ids == LockedStarters(owner, events)
  {
    var pending: seq<(InvitationId, StarterId)> := [];
    var n := 0;
    while n < |events|
      invariant 0 <= n <= |events|
      invariant pending == PendingLocks(owner, events[..n])
    {
      var e := events[n];
      assert events[..n+1][..n] == events[..n];
      if e.fact.InvitationSent? && e.signer == owner {
        pending := pending + [(e.fact.offer.id, e.fact.offer.starter)];
      } else {
        var id := TerminalId(e.fact);
        if id.Some? { pending := Filter(pending, OtherInvitation(id.value)); }
      }
      n := n + 1;
    }
    assert events[..n] == events;
    ids := [];
    var k := 0;
    while k < |pending|
      invariant 0 <= k <= |pending|
      invariant ids == LockList(pending, k)
    {
      if pending[k].1 !in ids && |ids| < SLOTS { ids := ids + [pending[k].1]; }
      k := k + 1;
    }
  }

  /** One iteration of the replay loop. */
  method ReplayInto(layout: SlotLayout, owner: Key, revoked: seq<StarterId>, burned: seq<StarterId>, e: Event)
    returns (burned': seq<StarterId>)
    requires layout.Valid()
    modifies layout.slots
    ensures Replayed(layout.States(), Elements(burned'))
         == ReplayEvent(owner, Elements(revoked), Replayed(old(layout.States()), Elements(burned)), e)
  {
    burned' := burned;
    if e.signer == owner {
      match e.fact
      case StarterCreated(id, _, _) =>
        var present := layout.ContainsStarter(id);
        if id !in burned && id !in revoked && !present { layout.OccupyFirstFree(id); }
      case StarterBurned(id, _) =>
        layout.FreeStarter(id);
        if id !in burned { burned' := burned + [id]; }
        assert Elements(burned') == Elements(burned) + {id};
      case _ =>
    }
  }

  /** `SlotLayout::from_ledger`: one pass over the owner's starter events, then
      the locks. */
  method FromLedger(owner: Key, events: seq<Event>) returns (layout: SlotLayout)
    ensures fresh(layout) && fresh(layout.slots) && layout.Valid() && layout.States() == LayoutOf(owner, events)
  {
    hide ReplayEvent, RevokedStarters, LockedStarters, Slot.LockStarter;
    layout := new SlotLayout();
    var revoked := RevokedCreatedStarterIds(events);
    var burned: seq<StarterId> := [];
    var n := 0;
    while n < |events|
      invariant 0 <= n <= |events| && layout.Valid() && fresh(layout.slots)
      invariant Replayed(layout.States(), Elements(burned)) == Replay(owner, RevokedStarters(events), events[..n])
    {
      assert events[..n+1][..n] == events[..n];
      burned := ReplayInto(layout, owner, revoked, burned, events[n]);
      n := n + 1;
    }
    assert events[..n] == events;
    var ids := LockedStarterIds(owner, events);
    ghost var replayed := layout.States();
    var k := 0;
    while k < |ids|
      invariant 0 <= k <= |ids| && layout.Valid() && fresh(layout.slots)
      invariant layout.States() == LockFirst(replayed, ids, k)
    {
      layout.LockStarter(ids[k]);
      k := k + 1;
    }
  }
}
