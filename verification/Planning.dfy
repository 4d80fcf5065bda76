/** What an acceptance plans, from the live starters and their kinds alone, and what it
    changes about them. */
module Planning {
  import opened Common
  import opened Facts
  import opened Slot
  import opened Allocation

  /** Some live starter has this kind. */
  predicate KindLive(owner: Key, events: seq<Event>, kind: StarterKind) {
    exists x | x in Live(owner, events) :: StarterKindOf(owner, events, x) == Some(kind)
  }

  /** A starter is live exactly if the owner created it, never burned it, and no acceptance
      naming it was of an invitation whose expiry one of its own senders signed. */
  lemma LiveExactly(owner: Key, events: seq<Event>, x: StarterId)
    ensures x in Live(owner, events)
       <==> && (exists i | 0 <= i < |events| :: events[i].signer == owner && events[i].fact.StarterCreated? && events[i].fact.starter == x)
            && (forall i | 0 <= i < |events| && events[i].signer == owner && events[i].fact.StarterBurned? :: events[i].fact.starter != x)
            && !RevokedBySender(events, x)
  {
    hide RevokedStarters;
    RevokedExactly(events, x);
  }

  /** An acceptance names `x` whose invitation was withdrawn. */
  predicate RevokedBySender(events: seq<Event>, x: StarterId) {
    exists a | 0 <= a < |events| :: events[a].fact.InvitationAccepted? && events[a].fact.created == x
                                    && Withdrawn(events, events[a].fact.id)
  }

  /** One and the same key signed an offer of `id` received here and its expiry. */
  predicate Withdrawn(events: seq<Event>, id: InvitationId) {
    exists e | e in events :: e.fact == InvitationExpired(id) && Offered(events, id, e.signer)
  }

  predicate Offered(events: seq<Event>, id: InvitationId, signer: Key) {
    exists e | e in events :: ReceivedHead(e.fact, id) && e.signer == signer
  }

  lemma RevokedExactly(events: seq<Event>, x: StarterId)
    ensures x in RevokedStarters(events) <==> RevokedBySender(events, x)
  {
    hide Withdrawn, SenderExpired;
    forall id ensures Withdrawn(events, id) <==> SenderExpired(events, id) { WithdrawnExactly(events, id); }
  }

  lemma WithdrawnExactly(events: seq<Event>, id: InvitationId)
    ensures Withdrawn(events, id) <==> SenderExpired(events, id)
  {
    if SenderExpired(events, id) {
      var i, j :| 0 <= i < |events| && 0 <= j < |events|
        && events[i].fact == InvitationExpired(id) && ReceivedHead(events[j].fact, id) && events[j].signer == events[i].signer;
      assert events[i] in events && events[j] in events;
      assert Offered(events, id, events[i].signer);
    }
    if e :| e in events && e.fact == InvitationExpired(id) && Offered(events, id, e.signer) {
      var i :| 0 <= i < |events| && events[i] == e;
      var f :| f in events && ReceivedHead(f.fact, id) && f.signer == e.signer;
      var j :| 0 <= j < |events| && events[j] == f;
    }
  }

  lemma KindIsShown(owner: Key, events: seq<Event>, kind: StarterKind)
    requires Sound(owner, events)
    ensures KindLive(owner, events, kind) <==> KindActive(owner, events, LayoutOf(owner, events), kind)
    ensures KindLive(owner, events, kind) <==> Position(LayoutOf(owner, events), OfKind(owner, events, kind)).Some?
  {
    hide LayoutOf, StarterKindOf, Live, Sound;
    LayoutShowsLive(owner, events);
    var slots := LayoutOf(owner, events);
    if KindLive(owner, events, kind) {
      var x :| x in Live(owner, events) && StarterKindOf(owner, events, x) == Some(kind);
      var s :| s in slots && !s.Empty? && s.id == x;
      var i :| 0 <= i < |slots| && slots[i] == s;
      assert OfKind(owner, events, kind)(slots[i]);
    }
    if s :| s in slots && SlotKind(owner, events, s) == Some(kind) {
      ShownIds(slots, s);
      var i :| 0 <= i < |slots| && slots[i] == s;
      assert OfKind(owner, events, kind)(slots[i]);
    }
    var p := Position(slots, OfKind(owner, events, kind));
    if p.Some? {
      assert slots[p.value] in slots;
      ShownIds(slots, slots[p.value]);
    }
  }

  /** Five kinds among the live starters take five starters. */
  lemma AllKindsNeedFive(owner: Key, events: seq<Event>)
    requires forall kind: StarterKind :: KindLive(owner, events, kind)
    ensures |Live(owner, events)| >= 5
  {
    hide Live, StarterKindOf;
    var live := Live(owner, events);
    assert KindLive(owner, events, Juice) && KindLive(owner, events, Spark) && KindLive(owner, events, Seed)
        && KindLive(owner, events, Pulse) && KindLive(owner, events, Kick);
    var a :| a in live && StarterKindOf(owner, events, a) == Some(Juice);
    var b :| b in live && StarterKindOf(owner, events, b) == Some(Spark);
    var c :| c in live && StarterKindOf(owner, events, c) == Some(Seed);
    var d :| d in live && StarterKindOf(owner, events, d) == Some(Pulse);
    var e :| e in live && StarterKindOf(owner, events, e) == Some(Kick);
    FiveDistinct(a, b, c, d, e);
    SubsetSize({a, b, c, d, e}, live);
  }

  /** The kind with the least byte that no live starter has, if there is one. */
  lemma MissingExactly(owner: Key, events: seq<Event>)
    requires Sound(owner, events)
    ensures var missing := FirstMissingKind(owner, events, LayoutOf(owner, events));
            && (missing.None? <==> forall kind: StarterKind :: KindLive(owner, events, kind))
            && (missing.Some? ==> && !KindLive(owner, events, missing.value)
                                  && forall kind: StarterKind | KindByte(kind) < KindByte(missing.value) :: KindLive(owner, events, kind))
  {
    hide LayoutOf, KindActive, KindLive, Sound;
    forall kind: StarterKind
      ensures KindLive(owner, events, kind) <==> KindActive(owner, events, LayoutOf(owner, events), kind)
    {
      KindIsShown(owner, events, kind);
    }
    if FirstMissingKind(owner, events, LayoutOf(owner, events)).None? {
      forall kind: StarterKind ensures KindLive(owner, events, kind) {
        match kind case Juice => case Spark => case Seed => case Pulse => case Kick =>
      }
    }
  }

  /** Five starters are live exactly if no slot is empty. */
  lemma FullExactly(owner: Key, events: seq<Event>)
    requires Sound(owner, events)
    ensures |Live(owner, events)| <= 5
    ensures |Live(owner, events)| == 5 <==> Position(LayoutOf(owner, events), IsEmpty).None?
  {
    hide LayoutOf, Live, Sound, SlotIds;
    LayoutShowsLive(owner, events);
    var slots := LayoutOf(owner, events);
    var p := Position(slots, IsEmpty);
    if p.Some? {
      EmptyMeansRoom(slots, p.value);
    } else {
      forall i | 0 <= i < 5 ensures !slots[i].Empty? { assert !IsEmpty(slots[i]); }
      FullSlots(slots);
    }
  }

  /** The plan of an acceptance. An existing starter is named if and only if some live one
      has the offered kind, and it has it. No starter is planned if and only if five are
      live. A planned one goes to the least empty slot; beside an existing starter it has
      the least kind no live starter has, otherwise the offered kind. */
  lemma PlanExactly(owner: Key, events: seq<Event>, kind: StarterKind)
    requires Sound(owner, events)
    ensures var plan, shown := Plan(owner, events, kind), Shown(owner, events);
            && !plan.NoCapacity?
            && (plan.UseExistingStarter? <==> KindLive(owner, events, kind))
            && (plan.UseExistingStarter? ==>
                  plan.starter in Live(owner, events) && StarterKindOf(owner, events, plan.starter) == Some(kind))
            && (PlannedCreation(plan).None? <==> |Live(owner, events)| == 5)
            && (PlannedCreation(plan).Some? ==>
                  var c := PlannedCreation(plan).value;
                  && c.slot < 5 && shown[c.slot] == None && (forall j | 0 <= j < c.slot :: shown[j].Some?)
                  && (if KindLive(owner, events, kind)
                      then && !KindLive(owner, events, c.kind)
                           && forall k: StarterKind | KindByte(k) < KindByte(c.kind) :: KindLive(owner, events, k)
                      else c.kind == kind))
  {
    hide LayoutOf, Live, Sound, StarterKindOf, FirstMissingKind, KindLive, OfKind, KindByte;
    var slots := LayoutOf(owner, events);
    AlwaysCapacity(owner, events, kind);
    KindIsShown(owner, events, kind);
    FullExactly(owner, events);
    MissingExactly(owner, events);
    if Plan(owner, events, kind).UseExistingStarter? { MatchingIsLive(owner, events, kind); }
    if Position(slots, IsEmpty).Some? && FirstMissingKind(owner, events, slots).None? { AllKindsNeedFive(owner, events); }
    var p := Position(slots, IsEmpty);
    if p.Some? {
      assert IsEmpty(slots[p.value]);
      assert forall j | 0 <= j < p.value :: !IsEmpty(slots[j]);
    }
  }

  /** What an accepted invitation adds: the acceptance, and a new starter if and only if
      fewer than five were live. The live starters grow by exactly that one. */
  lemma AcceptAdds(owner: Key, events: seq<Event>, m: Move)
    requires m.Accept? && Sound(owner, events) && Enabled(owner, events, m)
    ensures var all, named := Apply(owner, events, m), NamedStarter(Plan(owner, events, m.kind), m.lineage);
            var grows := |Live(owner, events)| < 5;
            && |all| == |events| + (if grows then 2 else 1) && all[..|events|] == events
            && all[|events|] == Event(InvitationAccepted(m.invitation, m.from, named, m.root), m.at, owner)
            && (grows ==> var e := all[|events| + 1];
                          && e.signer == owner && e.timestamp == m.at && e.fact.StarterCreated?
                          && e.fact.starter == m.lineage && e.fact.nonce == m.nonce)
            && Live(owner, all) == Live(owner, events) + (if grows then {m.lineage} else {})
            && m.lineage !in Live(owner, events)
  {
    hide LayoutOf, StarterKindOf, Sound, Live, RevokedStarters, CreatedIds, BurnedIds, StarterIds, Unused, Resolved;
    var plan := Plan(owner, events, m.kind);
    PlanExactly(owner, events, m.kind);
    FullExactly(owner, events);
    var e := Acceptance(owner, m, NamedStarter(plan, m.lineage));
    AcceptanceMovesNothing(owner, events, e);
    UnusedIsUnknown(owner, events, m.lineage);
    UnknownIsNotLive(owner, events, m.lineage);
    if PlannedCreation(plan).Some? {
      var c := PlannedCreation(plan).value;
      PlanIsSafe(owner, events, m.kind);
      RevokedSame(events, e);
      LiveSnoc(owner, {}, events, e);
      CreationLands(owner, events + [e], m.lineage, c.kind, m.nonce, m.at, c.slot);
    }
  }

  lemma UnknownIsNotLive(owner: Key, events: seq<Event>, x: StarterId)
    requires x !in CreatedIds(owner, events)
    ensures x !in Live(owner, events)
  {
  }

  /** After birth slot `i` shows the `i`-th starter, whose kind has byte `i`, and there is a
      live starter of every kind. */
  lemma BornInOrder(owner: Key, events: seq<Event>, m: Move)
    requires m.Birth? && Sound(owner, events) && Enabled(owner, events, m)
    ensures var all := Apply(owner, events, m);
            && (forall i | 0 <= i < 5 :: Shown(owner, all)[i] == Some(m.ids[i]))
            && (forall i | 0 <= i < 5 :: StarterKindOf(owner, all, m.ids[i]) == KindFromByte(i))
            && Live(owner, all) == (set i | 0 <= i < 5 :: m.ids[i])
            && |all| == |events| + 5 && all[..|events|] == events
  {
    hide StarterKindOf, Live, Sound, Shown;
    BirthLands(owner, events, m, 5);
    BirthLength(owner, events, m, 5);
    assert forall i | 0 <= i < 5 :: Some(BIRTH_KINDS[i]) == KindFromByte(i);
  }

  lemma {:induction false} BirthLength(owner: Key, events: seq<Event>, m: Move, n: nat)
    requires m.Birth? && |m.ids| == 5 && |m.nonces| == 5 && n <= 5
    ensures var all := BirthTo(owner, events, m, n); |all| == |events| + n && all[..|events|] == events
  {
    if n > 0 { BirthLength(owner, events, m, n - 1); }
  }
}
