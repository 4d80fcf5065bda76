/** What an invitation record says beside its status: whom it is about, when and by whom it
    was answered, and whether the owner had a part in that. */
module InvitationRecords {
  import opened Common
  import opened Facts
  import opened Invitation

  /** The event answers the offer with this status. */
  predicate Gives(owner: Key, offer: Event, e: Event, status: Status)
    requires IsOffer(offer.fact)
  {
    Effective(owner, NewInvitation(offer), e) && TerminalOf(e.fact).value.1 == status
  }

  /** The owner's own answer: accepting or rejecting what it received, expiring what it sent. */
  predicate OwnAnswer(owner: Key, offer: Event, e: Event)
    requires IsOffer(offer.fact)
  {
    && Effective(owner, NewInvitation(offer), e) && e.signer == owner
    && (if offer.fact.InvitationReceived? then e.fact.InvitationAccepted? || e.fact.InvitationRejected? else e.fact.InvitationExpired?)
  }

  /** The answer on record is the first event that gave the final status. */
  predicate AnsweredBy(owner: Key, events: seq<Event>, i: nat, n: nat, r: Invitation)
    requires i < n <= |events| && IsOffer(events[i].fact)
  {
    if r.status == Pending then r.respondedAt == None && r.respondedSigner == None
    else exists k | i < k < n ::
           && Gives(owner, events[i], events[k], r.status) && (forall j | i < j < k :: !Gives(owner, events[i], events[j], r.status))
           && r.respondedAt == Some(events[k].timestamp) && r.respondedSigner == Some(events[k].signer)
  }

  lemma {:induction false} LifeAnswered(owner: Key, events: seq<Event>, i: nat, n: nat)
    requires i < n <= |events| && IsOffer(events[i].fact)
    ensures AnsweredBy(owner, events, i, n, Life(owner, events, i, n))
    decreases n
  {
    hide NewInvitation, AnsweredBy, Answer, Gives;
    if n == i + 1 {
      Unanswered(owner, events, i);
    } else {
      LifeAnswered(owner, events, i, n - 1);
      LifeKeepsIdentity(owner, events, i, n - 1);
      NoEarlierStatus(owner, events, i, n - 1, Life(owner, events, i, n - 1).status);
      AnsweredNext(owner, events, i, n);
    }
  }

  lemma Unanswered(owner: Key, events: seq<Event>, i: nat)
    requires i < |events| && IsOffer(events[i].fact)
    ensures AnsweredBy(owner, events, i, i + 1, Life(owner, events, i, i + 1))
  {
    OfferFields(events[i]);
  }

  lemma {:induction false} LifeLocal(owner: Key, events: seq<Event>, i: nat, n: nat)
    requires i < n <= |events| && IsOffer(events[i].fact)
    ensures Life(owner, events, i, n).hasLocalTerminal <==> exists j | i < j < n :: OwnAnswer(owner, events[i], events[j])
    decreases n
  {
    hide NewInvitation, OwnAnswer, Answer;
    OfferFields(events[i]);
    if n > i + 1 {
      LifeLocal(owner, events, i, n - 1);
      LifeKeepsIdentity(owner, events, i, n - 1);
      AnswerLocal(owner, events[i], Life(owner, events, i, n - 1), events[n-1]);
    }
  }

  lemma AnswerLocal(owner: Key, offer: Event, r: Invitation, e: Event)
    requires IsOffer(offer.fact) && SameOffer(NewInvitation(offer), r)
    ensures Answer(owner, r, e).hasLocalTerminal <==> r.hasLocalTerminal || OwnAnswer(owner, offer, e)
  {
    EffectiveSame(owner, NewInvitation(offer), r, e);
  }

  lemma OfferFields(e: Event)
    requires IsOffer(e.fact)
    ensures var r := NewInvitation(e);
            && r.id == e.fact.offer.id && r.status == Pending && r.respondedAt == None && r.respondedSigner == None
            && !r.hasLocalTerminal && r.incoming == e.fact.InvitationReceived?
  {
  }

  /** While pending nothing was effective; while accepted nothing expired it. */
  lemma NoEarlierStatus(owner: Key, events: seq<Event>, i: nat, n: nat, status: Status)
    requires i < n <= |events| && IsOffer(events[i].fact) && status == Life(owner, events, i, n).status
    ensures status == Pending ==> forall j | i < j < n :: !Effective(owner, NewInvitation(events[i]), events[j])
    ensures status.Accepted? && events[i].fact.InvitationReceived? ==>
              forall j | i < j < n :: !Gives(owner, events[i], events[j], Expired)
  {
    LifeStatus(owner, events, i, n);
    if status.Accepted? && events[i].fact.InvitationReceived? {
      forall j | i < j < n ensures !Gives(owner, events[i], events[j], Expired) {
        if Gives(owner, events[i], events[j], Expired) {
          var k := EarliestEffective(owner, events, i, n, j);
          assert Revokes(NewInvitation(events[i]), events[j]);
        }
      }
    }
  }

  lemma {:induction false} EarliestEffective(owner: Key, events: seq<Event>, i: nat, n: nat, j: nat) returns (k: nat)
    requires i < j < n <= |events| && IsOffer(events[i].fact) && Effective(owner, NewInvitation(events[i]), events[j])
    ensures k <= j && FirstEffective(owner, events, i, n, k)
  {
    if exists m | i < m < j :: Effective(owner, NewInvitation(events[i]), events[m]) {
      var m :| i < m < j && Effective(owner, NewInvitation(events[i]), events[m]);
      k := EarliestEffective(owner, events, i, n, m);
    } else {
      k := j;
    }
  }

  lemma AnsweredNext(owner: Key, events: seq<Event>, i: nat, n: nat)
    requires i + 1 < n <= |events| && IsOffer(events[i].fact)
    requires var before := Life(owner, events, i, n - 1);
             && AnsweredBy(owner, events, i, n - 1, before) && SameOffer(NewInvitation(events[i]), before)
             && (before.status == Pending ==> forall j | i < j < n - 1 :: !Effective(owner, NewInvitation(events[i]), events[j]))
             && (before.status.Accepted? && events[i].fact.InvitationReceived? ==>
                   forall j | i < j < n - 1 :: !Gives(owner, events[i], events[j], Expired))
    ensures AnsweredBy(owner, events, i, n, Life(owner, events, i, n))
  {
    var before, e := Life(owner, events, i, n - 1), events[n-1];
    var after := Answer(owner, before, e);
    EffectiveSame(owner, NewInvitation(events[i]), before, e);
    if after.status != before.status {
      assert Gives(owner, events[i], e, after.status);
    } else if after.status != Pending {
      var k :| i < k < n - 1
        && Gives(owner, events[i], events[k], before.status) && (forall j | i < j < k :: !Gives(owner, events[i], events[j], before.status))
        && before.respondedAt == Some(events[k].timestamp) && before.respondedSigner == Some(events[k].signer);
    }
  }

  /** The record of an invitation, from the event of its first offer and what followed:
      the peer is the addressee of what we sent and the sender's transport of what we
      received; the answer is the first event that gave the final status; the owner had a
      part in it if and only if one of its own answers was effective. */
  lemma RecordExactly(owner: Key, events: seq<Event>, id: InvitationId, i: nat)
    requires FirstOffer(events, |events|, id, i)
    ensures var found := FindInvitation(Invitations(owner, events), id);
            found.Some? &&
            var r, e, o := found.value, events[i], events[i].fact.offer;
            var transport := if o.senderTransport.Some? then o.senderTransport.value else e.signer;
            && r.id == id && r.starter == o.starter && r.sentAt == e.timestamp && r.offerSigner == e.signer
            && r.incoming == e.fact.InvitationReceived? && r.recipient == o.to
            && r.senderTransport == transport && r.senderRoot == o.senderRoot && r.cardSignature == o.cardSignature
            && r.peer == (if e.fact.InvitationReceived? then transport else o.to)
            && r.kindHint == (if o.kindByte.Some? then KindFromByte(o.kindByte.value) else None)
            && AnsweredBy(owner, events, i, |events|, r)
            && (r.hasLocalTerminal <==> exists j | i < j < |events| :: OwnAnswer(owner, e, events[j]))
  {
    hide Life, Invitations, AnsweredBy;
    InvitationIsItsLife(owner, events, id);
    LifeKeepsIdentity(owner, events, i, |events|);
    LifeAnswered(owner, events, i, |events|);
    LifeLocal(owner, events, i, |events|);
  }
}
