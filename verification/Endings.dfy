/** When a relationship is over, in the view computed from the whole ledger. The view
    replays every establishment with the final statuses of all invitations, so a later
    refusal can take an establishment away and bring an older one back. */
module Endings {
  import opened Common
  import opened Facts
  import opened Invitation
  import opened Relationship

  type RelationshipKey = (Key, StarterId)

  /** The record of `key` in the view of this ledger. */
  function RecordOf(owner: Key, local: Option<Key>, events: seq<Event>, key: RelationshipKey): Option<Projected> {
    FindByKey(Project(Invitations(owner, events), owner, local, events), key)
  }

  // ----- a closed form -----

  predicate BreaksIt(key: RelationshipKey, e: Event) { e.fact.RelationshipBroken? && (e.fact.peer, e.fact.own) == key }

  /** Signed by the owner's root or transport. */
  predicate LocalBreak(owner: Key, local: Option<Key>, key: RelationshipKey, e: Event) {
    BreaksIt(key, e) && (e.signer == owner || local == Some(e.signer))
  }

  /** Signed by the peer's transport, or by its root if break and record both name that. */
  predicate PeerBreak(owner: Key, local: Option<Key>, key: RelationshipKey, r: Projected, e: Event) {
    && BreaksIt(key, e) && e.signer != owner && local != Some(e.signer)
    && (e.signer == r.peer || (e.fact.peerRoot == Some(e.signer) && r.peerRoot == Some(e.signer)))
  }

  /** The last event that establishes the key under these records. */
  predicate LastEstablished(records: seq<Invitation>, owner: Key, local: Option<Key>, key: RelationshipKey,
                            events: seq<Event>, p: nat) {
    && p < |events| && Reestablishes(records, owner, local, key, events[p])
    && forall j | p < j < |events| :: !Reestablishes(records, owner, local, key, events[j])
  }

  /** A local break after `p`, not dated before it. */
  predicate EndedAfter(owner: Key, local: Option<Key>, key: RelationshipKey, events: seq<Event>, p: nat)
    requires p < |events|
  {
    exists j | p < j < |events| :: LocalBreak(owner, local, key, events[j]) && events[p].timestamp <= events[j].timestamp
  }

  predicate PeerBrokeAfter(owner: Key, local: Option<Key>, key: RelationshipKey, r: Projected, events: seq<Event>, p: nat)
    requires p < |events|
  {
    exists j | p < j < |events| :: PeerBreak(owner, local, key, r, events[j]) && events[p].timestamp <= events[j].timestamp
  }

  /** The record that the establishment at `p` and the breaks after it leave. */
  function Outcome(records: seq<Invitation>, owner: Key, local: Option<Key>, key: RelationshipKey,
                   events: seq<Event>, p: nat): Projected
    requires p < |events| && Reestablishes(records, owner, local, key, events[p])
  {
    var r := Establishes(records, owner, local, events[p]).value;
    var ended := EndedAfter(owner, local, key, events, p);
    r.(active := !ended, pendingRemoteBreak := !ended && PeerBrokeAfter(owner, local, key, r, events, p))
  }

  lemma OutcomeSnoc(records: seq<Invitation>, owner: Key, local: Option<Key>, key: RelationshipKey,
                    events: seq<Event>, p: nat, e: Event)
    requires p < |events| && Reestablishes(records, owner, local, key, events[p])
    requires !Reestablishes(records, owner, local, key, e)
    ensures Outcome(records, owner, local, key, events + [e], p)
         == KeyStep(records, owner, local, key, Some(Outcome(records, owner, local, key, events, p)), e).value
  {
    hide Establishes;
    var all, n := events + [e], |events|;
    assert all[n] == e && forall j | 0 <= j < n :: all[j] == events[j];
    EstablishedFresh(records, owner, local, events[p]);
    EndedSnoc(owner, local, key, events, p, e);
    PeerBrokeSnoc(owner, local, key, Establishes(records, owner, local, events[p]).value, events, p, e);
  }

  lemma EstablishedFresh(records: seq<Invitation>, owner: Key, local: Option<Key>, e: Event)
    ensures var r := Establishes(records, owner, local, e);
            && (r.Some? ==> r.value.active && !r.value.pendingRemoteBreak && r.value.establishedAt == e.timestamp)
            && (e.fact.RelationshipBroken? ==> r.None?)
  {
  }

  lemma EndedSnoc(owner: Key, local: Option<Key>, key: RelationshipKey, events: seq<Event>, p: nat, e: Event)
    requires p < |events|
    ensures EndedAfter(owner, local, key, events + [e], p)
       <==> EndedAfter(owner, local, key, events, p)
            || (LocalBreak(owner, local, key, e) && events[p].timestamp <= e.timestamp)
  {
    var all, n := events + [e], |events|;
    assert all[n] == e && forall j | 0 <= j < n :: all[j] == events[j];
  }

  lemma PeerBrokeSnoc(owner: Key, local: Option<Key>, key: RelationshipKey, r: Projected, events: seq<Event>, p: nat, e: Event)
    requires p < |events|
    ensures PeerBrokeAfter(owner, local, key, r, events + [e], p)
       <==> PeerBrokeAfter(owner, local, key, r, events, p)
            || (PeerBreak(owner, local, key, r, e) && events[p].timestamp <= e.timestamp)
  {
    var all, n := events + [e], |events|;
    assert all[n] == e && forall j | 0 <= j < n :: all[j] == events[j];
  }

  predicate NeverEstablished(records: seq<Invitation>, owner: Key, local: Option<Key>, key: RelationshipKey, events: seq<Event>) {
    forall j | 0 <= j < |events| :: !Reestablishes(records, owner, local, key, events[j])
  }

  /** Under any records, a key has a record exactly if some event establishes it, and the
      record is what the last such event and the breaks after it leave. */
  lemma {:induction false} RecordUnder(records: seq<Invitation>, owner: Key, local: Option<Key>, events: seq<Event>,
                                       key: RelationshipKey)
    ensures var r := FindByKey(Project(records, owner, local, events), key);
            && (r.None? <==> NeverEstablished(records, owner, local, key, events))
            && (forall p: nat | LastEstablished(records, owner, local, key, events, p) ::
                  r == Some(Outcome(records, owner, local, key, events, p)))
  {
    hide Establishes, FindByKey, Reestablishes, Outcome, KeyStep;
    if |events| == 0 {
      NothingProjected(records, owner, local, key);
    } else {
      var n := |events| - 1;
      var before, e := events[..n], events[n];
      assert events == before + [e];
      RecordUnder(records, owner, local, before, key);
      ProjectWellKept(records, owner, local, before);
      ProjectEventByKey(records, owner, local, Project(records, owner, local, before), e, key);
      ProjectSnoc(records, owner, local, before, e);
      var was := FindByKey(Project(records, owner, local, before), key);
      StepCases(records, owner, local, key, was, e);
      if Reestablishes(records, owner, local, key, e) {
        JustEstablished(records, owner, local, key, before, e);
      } else {
        assert forall j | 0 <= j < n :: before[j] == events[j];
        forall p: nat | LastEstablished(records, owner, local, key, events, p)
          ensures KeyStep(records, owner, local, key, was, e) == Some(Outcome(records, owner, local, key, events, p))
        {
          assert LastEstablished(records, owner, local, key, before, p);
          OutcomeSnoc(records, owner, local, key, before, p, e);
        }
      }
    }
  }

  lemma NothingProjected(records: seq<Invitation>, owner: Key, local: Option<Key>, key: RelationshipKey)
    ensures FindByKey(Project(records, owner, local, []), key).None?
  {
  }

  lemma StepCases(records: seq<Invitation>, owner: Key, local: Option<Key>, key: RelationshipKey, was: Option<Projected>, e: Event)
    ensures var r := KeyStep(records, owner, local, key, was, e);
            && (r.None? <==> was.None? && !Reestablishes(records, owner, local, key, e))
            && (Reestablishes(records, owner, local, key, e) ==> r == Establishes(records, owner, local, e))
  {
  }

  lemma JustEstablished(records: seq<Invitation>, owner: Key, local: Option<Key>, key: RelationshipKey,
                        before: seq<Event>, e: Event)
    requires Reestablishes(records, owner, local, key, e)
    ensures Outcome(records, owner, local, key, before + [e], |before|) == Establishes(records, owner, local, e).value
  {
    hide Establishes;
    assert (before + [e])[|before|] == e;
    EstablishedFresh(records, owner, local, e);
  }

  /** The view of a ledger, key by key: there is a record exactly if some establishment of
      the key survives the refusals of the whole ledger, it is ended exactly if a local
      break not dated before the last surviving one follows it, and otherwise a remote
      break is pending exactly if one by the peer follows it. */
  lemma RelationshipExactly(owner: Key, local: Option<Key>, events: seq<Event>, key: RelationshipKey)
    ensures var records, r := Invitations(owner, events), RecordOf(owner, local, events, key);
            && (r.None? <==> NeverEstablished(records, owner, local, key, events))
            && (forall p: nat | LastEstablished(records, owner, local, key, events, p) ::
                  r == Some(Outcome(records, owner, local, key, events, p)))
  {
    RecordUnder(Invitations(owner, events), owner, local, events, key);
  }

  // ----- establishments only vanish -----

  lemma InvitationEvolves(owner: Key, events: seq<Event>, added: seq<Event>, id: InvitationId)
    ensures var r, s := FindInvitation(Invitations(owner, events), id), FindInvitation(Invitations(owner, events + added), id);
            r.Some? ==> s.Some? && Evolves(r.value, s.value, added)
  {
    hide Invitations, Evolves;
    var rs, ss := Invitations(owner, events), Invitations(owner, events + added);
    Lifecycle(owner, events, added);
    IdsUnique(owner, events + added);
    var k := Position(rs, HasId(id));
    if k.Some? {
      assert HasId(id)(rs[k.value]);
      EvolvesKeepsId(rs[k.value], ss[k.value], added);
      assert HasId(id)(ss[k.value]);
      UniqueMember(ss, ss[k.value], ss[Position(ss, HasId(id)).value], IdOf);
    }
  }

  lemma EvolvesKeepsId(r: Invitation, s: Invitation, added: seq<Event>)
    requires Evolves(r, s, added)
    ensures s.id == r.id
  {
  }

  /** Whatever is appended, an event establishes the key afterwards only if it did before,
      with the same record except perhaps the peer's root. */
  lemma EstablishmentsOnlyVanish(owner: Key, local: Option<Key>, events: seq<Event>, added: seq<Event>,
                                 key: RelationshipKey, e: Event)
    requires Reestablishes(Invitations(owner, events + added), owner, local, key, e)
    ensures Reestablishes(Invitations(owner, events), owner, local, key, e)
  {
    hide Invitations;
    var f := ParseEstablished(e.fact).value;
    if f.invitation.Some? { InvitationEvolves(owner, events, added, f.invitation.value); }
  }

  // ----- what an extension does to an ended relationship -----

  /** Over: there is a record and it is neither active nor waiting for us. */
  predicate Over(r: Option<Projected>) { r.Some? && !r.value.active }

  /** Back: there is an active record. */
  predicate Back(r: Option<Projected>) { r.Some? && r.value.active }

  /** An ended relationship comes back, with no new establishment appended, exactly if the
      last establishment that survives the refusals of the longer ledger is an older one
      and is dated after every local break that follows it. */
  lemma EndReturnsExactly(owner: Key, local: Option<Key>, events: seq<Event>, added: seq<Event>, key: RelationshipKey)
    requires Over(RecordOf(owner, local, events, key))
    requires forall e | e in added :: !Reestablishes(Invitations(owner, events + added), owner, local, key, e)
    ensures var all := events + added;
            Back(RecordOf(owner, local, all, key))
            <==> exists p: nat :: && LastEstablished(Invitations(owner, all), owner, local, key, all, p)
                                  && !EndedAfter(owner, local, key, all, p)
    ensures var all := events + added;
            forall p: nat, q: nat | && LastEstablished(Invitations(owner, all), owner, local, key, all, p)
                                    && LastEstablished(Invitations(owner, events), owner, local, key, events, q) ::
              p <= q && (p == q ==> EndedAfter(owner, local, key, all, p))
  {
    hide Invitations, Reestablishes, RecordOf, EndedAfter;
    var all := events + added;
    RelationshipExactly(owner, local, events, key);
    RelationshipExactly(owner, local, all, key);
    OutcomeActive(Invitations(owner, all), owner, local, key, all);
    OutcomeActive(Invitations(owner, events), owner, local, key, events);
    LastExists(Invitations(owner, all), owner, local, key, all);
    forall p: nat, q: nat | && LastEstablished(Invitations(owner, all), owner, local, key, all, p)
                            && LastEstablished(Invitations(owner, events), owner, local, key, events, q)
      ensures p <= q && (p == q ==> EndedAfter(owner, local, key, all, p))
    {
      OldEstablishment(owner, local, events, added, key, p);
      EndedStays(owner, local, key, events, added, q);
    }
  }

  lemma OutcomeActive(records: seq<Invitation>, owner: Key, local: Option<Key>, key: RelationshipKey, events: seq<Event>)
    ensures forall p: nat | LastEstablished(records, owner, local, key, events, p) ::
              Outcome(records, owner, local, key, events, p).active <==> !EndedAfter(owner, local, key, events, p)
  {
  }

  lemma {:induction false} LastExists(records: seq<Invitation>, owner: Key, local: Option<Key>, key: RelationshipKey, events: seq<Event>)
    ensures NeverEstablished(records, owner, local, key, events)
            || exists p: nat :: LastEstablished(records, owner, local, key, events, p)
  {
    hide Reestablishes;
    if |events| > 0 {
      var n := |events| - 1;
      var before := events[..n];
      LastExists(records, owner, local, key, before);
      assert forall j | 0 <= j < n :: before[j] == events[j];
      if Reestablishes(records, owner, local, key, events[n]) {
        assert LastEstablished(records, owner, local, key, events, n);
      } else if p: nat :| LastEstablished(records, owner, local, key, before, p) {
        assert LastEstablished(records, owner, local, key, events, p);
      }
    }
  }

  /** The last surviving establishment is an old one that also counted before. */
  lemma OldEstablishment(owner: Key, local: Option<Key>, events: seq<Event>, added: seq<Event>, key: RelationshipKey, p: nat)
    requires forall e | e in added :: !Reestablishes(Invitations(owner, events + added), owner, local, key, e)
    requires LastEstablished(Invitations(owner, events + added), owner, local, key, events + added, p)
    ensures p < |events| && Reestablishes(Invitations(owner, events), owner, local, key, events[p])
  {
    hide Invitations, Reestablishes;
    var all := events + added;
    forall i | |events| <= i < |all| ensures all[i] in added { assert all[i] == added[i - |events|]; }
    EstablishmentsOnlyVanish(owner, local, events, added, key, all[p]);
  }

  lemma EndedStays(owner: Key, local: Option<Key>, key: RelationshipKey, events: seq<Event>, added: seq<Event>, q: nat)
    requires q < |events| && EndedAfter(owner, local, key, events, q)
    ensures EndedAfter(owner, local, key, events + added, q)
  {
    var all := events + added;
    assert forall j | 0 <= j < |events| :: all[j] == events[j];
  }

  /** Local breaks are dated no earlier than the establishments before them. */
  ghost predicate DatedInOrder(owner: Key, local: Option<Key>, key: RelationshipKey, events: seq<Event>) {
    forall i, j | 0 <= i < j < |events| && Reestablishes(Invitations(owner, events), owner, local, key, events[i])
                  && LocalBreak(owner, local, key, events[j]) :: events[i].timestamp <= events[j].timestamp
  }

  /** So with dates in ledger order a local break is final, under every extension that
      does not establish the key again, refusals of its invitations included. */
  lemma EndIsFinal(owner: Key, local: Option<Key>, events: seq<Event>, added: seq<Event>, key: RelationshipKey)
    requires Over(RecordOf(owner, local, events, key)) && DatedInOrder(owner, local, key, events + added)
    requires forall e | e in added :: !Reestablishes(Invitations(owner, events + added), owner, local, key, e)
    ensures !Back(RecordOf(owner, local, events + added, key))
  {
    hide Invitations, Reestablishes, RecordOf;
    var all := events + added;
    EndReturnsExactly(owner, local, events, added, key);
    RelationshipExactly(owner, local, events, key);
    LastExists(Invitations(owner, events), owner, local, key, events);
    OutcomeActive(Invitations(owner, events), owner, local, key, events);
    var q: nat :| LastEstablished(Invitations(owner, events), owner, local, key, events, q);
    var j :| q < j < |events| && LocalBreak(owner, local, key, events[j]);
    forall p: nat | LastEstablished(Invitations(owner, all), owner, local, key, all, p)
      ensures EndedAfter(owner, local, key, all, p)
    {
      assert p <= q && all[j] == events[j];
    }
  }

  // ----- breaks alone -----

  predicate Answers(e: Event) { IsOffer(e.fact) || TerminalOf(e.fact).Some? }

  lemma {:induction false} OthersChangeNoInvitation(owner: Key, events: seq<Event>, added: seq<Event>)
    requires forall e | e in added :: !Answers(e)
    ensures Invitations(owner, events + added) == Invitations(owner, events)
    decreases |added|
  {
    if |added| == 0 {
      assert events + added == events;
    } else {
      var m := |added| - 1;
      assert added[m] in added && forall e | e in added[..m] :: e in added;
      OthersChangeNoInvitation(owner, events, added[..m]);
      assert events + added == (events + added[..m]) + [added[m]];
      InvitationsSnoc(owner, events + added[..m], added[m]);
    }
  }

  /** Breaks alone, by anyone and however dated, never change an ended relationship. */
  lemma BreaksKeepEnd(owner: Key, local: Option<Key>, events: seq<Event>, added: seq<Event>, key: RelationshipKey)
    requires Over(RecordOf(owner, local, events, key)) && forall e | e in added :: e.fact.RelationshipBroken?
    ensures RecordOf(owner, local, events + added, key) == RecordOf(owner, local, events, key)
  {
    hide Invitations, Project, FindByKey;
    var records := Invitations(owner, events);
    OthersChangeNoInvitation(owner, events, added);
    ProjectWellKept(records, owner, local, events);
    FoundIsWellKept(Project(records, owner, local, events), key);
    forall i | 0 <= i < |added| ensures !Reestablishes(records, owner, local, key, added[i]) {
      assert added[i] in added;
    }
    EndUnderRecords(records, owner, local, events, added, key);
  }

  lemma FoundIsWellKept(ps: seq<Projected>, key: RelationshipKey)
    requires WellKept(ps)
    ensures var r := FindByKey(ps, key); r.Some? ==> r.value.pendingRemoteBreak ==> r.value.active
  {
  }

  // ----- a relationship that comes back -----

  /** The smallest case: an establishment dated 100, a later one for a received offer
      dated 50, and a local break dated 60 that ends it. Then the sender withdraws the
      offer: only the first establishment is left, and the break is older than it. */
  lemma WithdrawalRevives(owner: Key, sender: Key, o: Offer, peer: Key, own: StarterId, theirs: StarterId, kind: StarterKind)
    requires o.senderRoot != Some(owner)
    ensures var est := Establishment(peer, own, theirs, kind, o.id, peer, kind, theirs, None, None);
            var events := [Event(InvitationReceived(o), 10, sender),
                           Event(RelationshipEstablishedLegacy(peer, own, theirs, kind), 100, owner),
                           Event(RelationshipEstablished(est), 50, owner),
                           Event(RelationshipBroken(peer, own, None), 60, owner)];
            var added := [Event(InvitationExpired(o.id), 70, sender)];
            Over(RecordOf(owner, None, events, (peer, own))) && Back(RecordOf(owner, None, events + added, (peer, own)))
  {
    hide RecordOf, Invitations, Reestablishes;
    var key := (peer, own);
    var est := Establishment(peer, own, theirs, kind, o.id, peer, kind, theirs, None, None);
    var offer := Event(InvitationReceived(o), 10, sender);
    var expiry := Event(InvitationExpired(o.id), 70, sender);
    var rest := [Event(RelationshipEstablishedLegacy(peer, own, theirs, kind), 100, owner),
                 Event(RelationshipEstablished(est), 50, owner),
                 Event(RelationshipBroken(peer, own, None), 60, owner)];
    var events := [offer] + rest;
    var all := events + [expiry];
    assert events == [offer, rest[0], rest[1], rest[2]];
    OfferThenExpiry(owner, offer, rest, expiry);
    WhatCounts(Invitations(owner, events), owner, o, peer, own, theirs, kind, offer, expiry);
    WhatCounts(Invitations(owner, all), owner, o, peer, own, theirs, kind, offer, expiry);
    RelationshipExactly(owner, None, events, key);
    RelationshipExactly(owner, None, all, key);
    assert LastEstablished(Invitations(owner, events), owner, None, key, events, 2);
    assert LocalBreak(owner, None, key, events[3]);
    assert LastEstablished(Invitations(owner, all), owner, None, key, all, 1);
    assert !EndedAfter(owner, None, key, all, 1);
  }

  /** Of its events, the one naming the offer counts while the offer is not refused. */
  lemma WhatCounts(records: seq<Invitation>, owner: Key, o: Offer, peer: Key, own: StarterId, theirs: StarterId,
                   kind: StarterKind, offer: Event, expiry: Event)
    requires |records| == 1 && records[0].id == o.id && records[0].incoming && records[0].senderRoot == o.senderRoot
    requires o.senderRoot != Some(owner) && offer.fact.InvitationReceived? && expiry.fact.InvitationExpired?
    ensures var est := Establishment(peer, own, theirs, kind, o.id, peer, kind, theirs, None, None);
            var key := (peer, own);
            && Reestablishes(records, owner, None, key, Event(RelationshipEstablishedLegacy(peer, own, theirs, kind), 100, owner))
            && (Reestablishes(records, owner, None, key, Event(RelationshipEstablished(est), 50, owner))
                <==> !Refused(Some(records[0])))
            && !Reestablishes(records, owner, None, key, Event(RelationshipBroken(peer, own, None), 60, owner))
            && !Reestablishes(records, owner, None, key, offer) && !Reestablishes(records, owner, None, key, expiry)
  {
    assert HasId(o.id)(records[0]);
  }

  lemma OfferThenExpiry(owner: Key, offer: Event, rest: seq<Event>, expiry: Event)
    requires offer.fact.InvitationReceived? && forall e | e in rest :: !Answers(e)
    requires expiry == Event(InvitationExpired(offer.fact.offer.id), expiry.timestamp, offer.signer)
    ensures Invitations(owner, [offer] + rest) == [NewInvitation(offer)]
    ensures var rs := Invitations(owner, [offer] + rest + [expiry]);
            && |rs| == 1 && rs[0].id == offer.fact.offer.id && rs[0].incoming && rs[0].status == Expired
            && rs[0].senderRoot == offer.fact.offer.senderRoot
  {
    assert [offer][..0] == [];
    OthersChangeNoInvitation(owner, [offer], rest);
    InvitationsSnoc(owner, [offer] + rest, expiry);
    assert HasId(offer.fact.offer.id)(NewInvitation(offer));
  }
}
