/** One handshake seen from both ends: the relationship the accepting capsule records
    when it finalises an acceptance, and the one the inviting capsule records when the
    acceptance is delivered, are mirror images. */
module Handshake {
  import opened Common
  import opened Facts
  import Invitation
  import opened Slot
  import opened Allocation
  import Relationship
  import opened Lookup
  import Router
  import Mirror

  /** What `finalize_local_acceptance` records for the incoming offer `found`, when the
      acceptance names `own`. A payload without the peer's root has no room for ours. */
  function LocalEstablishment(owner: Key, from: Key, found: Found, own: StarterId, id: InvitationId): Establishment {
    Establishment(from, own, found.starter, found.kind, id, found.peer, found.kind, found.starter,
                  found.senderRoot, if found.senderRoot.Some? then Some(owner) else None)
  }

  /** Spelled out from the offer: the accepter records whom it accepts, the starter it
      names, the offered starter and kind, and as sender the transport the offer came from. */
  lemma RecordedByAccepter(owner: Key, events: seq<Event>, from: Key, own: StarterId, id: InvitationId, k: nat)
    requires Position(events, OfferIn(owner, id, Some(true))) == Some(k) && events[k].fact.offer.KindHint().Some?
    ensures FindOffer(owner, events, id, Some(true)).Some?
    ensures var o, kind := events[k].fact.offer, events[k].fact.offer.KindHint().value;
            LocalEstablishment(owner, from, FindOffer(owner, events, id, Some(true)).value, own, id)
            == Establishment(from, own, o.starter, kind, id,
                             if o.senderTransport.Some? then o.senderTransport.value else events[k].signer,
                             kind, o.starter, o.senderRoot, if o.senderRoot.Some? then Some(owner) else None)
  {
    assert OfferIn(owner, id, Some(true))(events[k]);
  }

  /** The story entry an establishment becomes in the relationship view of `owner`. */
  function EntryIn(records: seq<Invitation.Invitation>, owner: Key, local: Key, e: Event): Option<Mirror.Entry> {
    match Relationship.Establishes(records, owner, Some(local), e)
    case Some(p) => Some(Mirror.Entry(p.own, p.peerStarter, p.kind))
    case None => None
  }

  /** `a` offered `o`, with its root and kind byte; `b` received it and accepts with the
      starter its plan names. Both then record the relationship, each seeing the other's
      transport, and their views get mirrored entries: the next step of a story as the
      mirror agreement needs it. */
  lemma HandshakeMirrors(a: Router.Capsule, aEvents: seq<Event>, b: Router.Capsule, bEvents: seq<Event>, o: Offer,
                         plan: AcceptPlan, lineage: StarterId, m: Envelope, at: u64, bt: u64,
                         aRecords: seq<Invitation.Invitation>, bRecords: seq<Invitation.Invitation>)
    requires a.owner != b.owner && a.endpoint != b.endpoint && a.endpoint != b.owner && b.endpoint != a.owner
    requires o.KindHint().Some? && o.senderRoot == Some(a.owner)
    requires var k := Position(aEvents, OfferIn(a.owner, o.id, Some(false)));
             k.Some? && aEvents[k.value].fact.offer == o
    requires var k := Position(bEvents, OfferIn(b.owner, o.id, Some(true)));
             k.Some? && bEvents[k.value].fact.offer == o
    requires m.from == b.endpoint
    requires m.payload == InvitationAccepted(o.id, a.endpoint, NamedStarter(plan, lineage), Some(b.owner))
    requires var inv := Invitation.FindInvitation(aRecords, o.id); !Relationship.Refused(inv)
    requires var inv := Invitation.FindInvitation(bRecords, o.id); !Relationship.Refused(inv)
    ensures var mine := FindOffer(a.owner, aEvents, o.id, Some(false)).value;
            var theirs := FindOffer(b.owner, bEvents, o.id, Some(true)).value;
            var x := RelationshipEstablished(Router.Establishes(a, m.from, m.payload, mine));
            var y := RelationshipEstablished(LocalEstablishment(b.owner, a.endpoint, theirs, NamedStarter(plan, lineage), o.id));
            var p := EntryIn(aRecords, a.owner, a.endpoint, Event(x, at, a.owner));
            var q := EntryIn(bRecords, b.owner, b.endpoint, Event(y, bt, b.owner));
            && p == Some(Mirror.Entry(o.starter, NamedStarter(plan, lineage), o.KindHint().value))
            && q == Some(Mirror.Flip(p.value))
  {
  }

  /** The inviter's record, read in the accepter's ledger, tells the accepter the same as
      its own record: it is recognised as the other side's and turned around. */
  lemma InviterRecordReadsBack(a: Router.Capsule, aEvents: seq<Event>, b: Router.Capsule, bEvents: seq<Event>, o: Offer,
                               plan: AcceptPlan, lineage: StarterId, m: Envelope, at: u64,
                               bRecords: seq<Invitation.Invitation>)
    requires a.owner != b.owner && a.endpoint != b.endpoint
    requires o.KindHint().Some? && o.senderRoot == Some(a.owner)
    requires var k := Position(aEvents, OfferIn(a.owner, o.id, Some(false)));
             k.Some? && aEvents[k.value].fact.offer == o
    requires var k := Position(bEvents, OfferIn(b.owner, o.id, Some(true)));
             k.Some? && bEvents[k.value].fact.offer == o
    requires m.from == b.endpoint
    requires m.payload == InvitationAccepted(o.id, a.endpoint, NamedStarter(plan, lineage), Some(b.owner))
    requires var inv := Invitation.FindInvitation(bRecords, o.id); !Relationship.Refused(inv)
    ensures var mine := FindOffer(a.owner, aEvents, o.id, Some(false)).value;
            var theirs := FindOffer(b.owner, bEvents, o.id, Some(true)).value;
            var x := RelationshipEstablished(Router.Establishes(a, m.from, m.payload, mine));
            var y := RelationshipEstablished(LocalEstablishment(b.owner, a.endpoint, theirs, NamedStarter(plan, lineage), o.id));
            && Relationship.Establishes(bRecords, b.owner, Some(b.endpoint), Event(x, at, a.owner))
               == Relationship.Establishes(bRecords, b.owner, Some(b.endpoint), Event(y, at, b.owner))
            && Relationship.Establishes(bRecords, b.owner, Some(b.endpoint), Event(y, at, b.owner)).Some?
  {
  }
}
