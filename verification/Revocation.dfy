/** What a sender's revocation of an incoming offer undoes, across all folds. */
module Revocation {
  import opened Common
  import opened Facts
  import opened Invitation
  import opened Relationship
  import opened Slot

  /** Once an expiry signed by the offer's signer follows a canonical incoming
      offer, the invitation is expired (or rejected, if a rejection came first),
      the relationship view is as if no establishment had named the invitation,
      and no starter that an acceptance of it names is in a slot, even if that
      starter existed before the acceptance. */
  lemma RevocationIsComplete(owner: Key, local: Option<Key>, events: seq<Event>, id: InvitationId, i: nat, j: nat)
    requires FirstOffer(events, |events|, id, i) && events[i].fact.InvitationReceived?
    requires i < j < |events| && events[j] == Event(InvitationExpired(id), events[j].timestamp, events[i].signer)
    ensures var r := FindInvitation(Invitations(owner, events), id);
            && r.Some? && (r.value.status == Expired || r.value.status.Rejected?)
            && (r.value.status.Rejected? <==>
                 exists k | i < k < j :: FirstEffective(owner, events, i, |events|, k) && events[k].fact.InvitationRejected?)
    ensures CurrentView(owner, local, events) == CurrentView(owner, local, Filter(events, Without(id)))
    ensures forall k | 0 <= k < |events| && events[k].fact.InvitationAccepted? && events[k].fact.id == id ::
              !Contains(LayoutOf(owner, events), events[k].fact.created)
  {
    hide Invitations, CurrentView, LayoutOf, Contains, SlotIds;
    RevokedStatus(owner, events, id, i, j);
    RefusedLeavesNoTrace(owner, local, events, id);
    RevokedNotShown(owner, events);
    assert SenderExpired(events, id) by {
      assert events[j].fact == InvitationExpired(id) && ReceivedHead(events[i].fact, id);
    }
    forall k | 0 <= k < |events| && events[k].fact.InvitationAccepted? && events[k].fact.id == id
      ensures !Contains(LayoutOf(owner, events), events[k].fact.created)
    {
      assert events[k].fact.created in RevokedStarters(events);
      ContainsIsMember(LayoutOf(owner, events), events[k].fact.created);
    }
  }
}
