/** Which deliveries are written to the ledger, in both directions and in terms of the
    message and the events alone. */
module Admission {
  import opened Common
  import opened Facts
  import Invitation
  import opened Slot
  import opened Allocation
  import opened Lookup
  import opened Router
  import opened Rerouting

  // ----- the message -----

  /** Not from ourselves, the capsule is loaded, neither inbox takes it, the kind is one of
      the ledger's, and it carries a proof of this kind and a known version. */
  predicate Presentable(c: Capsule, m: Envelope, t: Turn, kind: EventKind) {
    && m.from != c.endpoint && t.loaded && t.aside == NotMatched && m.kind <= 9
    && m.proof.Some? && m.proof.value.kind == kind && (m.proof.value.version == 4 || m.proof.value.version == 5)
  }

  /** The ledger takes it: the signature is good, and a v5 ledger gets a v5 event. */
  predicate Taken(c: Capsule, m: Envelope, t: Turn)
    requires m.proof.Some?
  {
    t.admitted && (c.legacy.Some? ==> m.proof.value.version == 5)
  }

  /** The answer to a delivery that is wanted and refused, or that nobody could look at. */
  predicate TryAgain(c: Capsule, m: Envelope, t: Turn, wanted: bool, taken: bool) {
    m.from != c.endpoint && (!t.loaded || t.aside == Full || (wanted && !taken))
  }

  /** The event a delivery becomes: on a v5 ledger with its own date, on a v4 ledger dated
      now and after the last event. */
  function Arrived(c: Capsule, events: seq<Event>, m: Envelope, f: Fact, t: Turn): Event
    requires m.proof.Some?
  {
    var last := if events == [] || events[|events|-1].timestamp == U64_MAX then 0 else events[|events|-1].timestamp + 1;
    Event(f,
          if c.legacy.Some? then m.timestamp
          else if events != [] && events[|events|-1].timestamp == U64_MAX then U64_MAX
          else Max(t.now, last),
          m.proof.value.signer)
  }

  /** The delivery's own event is the next one in the ledger. */
  predicate Writes(c: Capsule, events: seq<Event>, m: Envelope, f: Fact, t: Turn) {
    && m.proof.Some? && |events| < |Route(c, events, m, t).0|
    && Route(c, events, m, t).0[|events|] == Arrived(c, events, m, f, t)
  }

  lemma WritesWhen(c: Capsule, events: seq<Event>, m: Envelope, f: Fact, t: Turn)
    requires f == LocalFact(m.payload) && !f.RelationshipEstablished? && !f.StarterBurned?
    ensures Writes(c, events, m, f, t)
       <==> Checked(c, events, m, t) && !Skips(c, events, m) && AppendRemote(c, events, m, t).Some?
  {
    hide ShouldSkip, Addressed, FindOffer, LayoutOf, HasFact, SignerMatches, Contains, Establishes, StoredSince;
    RouteExtends(c, events, m, t);
    if m.proof.Some? { DatedAlike(c, events, m, f, t); }
  }

  lemma DatedAlike(c: Capsule, events: seq<Event>, m: Envelope, f: Fact, t: Turn)
    requires f == LocalFact(m.payload) && m.proof.Some?
    ensures AppendRemote(c, events, m, t).Some? ==> AppendRemote(c, events, m, t).value == events + [Arrived(c, events, m, f, t)]
  {
  }

  /** Offers, expiries and breaks have no further effect. */
  lemma QuietAnswer(c: Capsule, events: seq<Event>, m: Envelope, f: Fact, t: Turn)
    requires f == LocalFact(m.payload) && (f.InvitationReceived? || f.InvitationExpired? || f.RelationshipBroken?)
    ensures var wanted := Checked(c, events, m, t) && !Skips(c, events, m);
            var taken := wanted && AppendRemote(c, events, m, t).Some?;
            && |Route(c, events, m, t).0| == |events| + (if taken then 1 else 0)
            && Route(c, events, m, t).1 == (if TryAgain(c, m, t, wanted, taken) then Retry else Consumed)
  {
    hide ShouldSkip, Addressed, SignerMatches, StoredSince, LocalDate;
  }

  // ----- what the events say -----

  /** An answer that names the invitation; a rejection of the right length does even with
      an unknown reason. */
  predicate Ends(f: Fact, id: InvitationId) {
    || ((f.InvitationAccepted? || f.InvitationRejected? || f.InvitationExpired?) && f.id == id)
    || (f.Malformed? && f.badKind == InvitationRejectedKind && f.length == 33 && f.head == Some(id))
  }

  predicate Ended(events: seq<Event>, id: InvitationId) { exists e | e in events :: Ends(e.fact, id) }

  lemma EndedExactly(events: seq<Event>, id: InvitationId)
    ensures Ended(events, id) <==> Resolved(events, id)
  {
    if e :| e in events && Ends(e.fact, id) {
      var i :| 0 <= i < |events| && events[i] == e;
      assert TerminalShape(events[i].fact) == Some(id);
    }
    if i :| 0 <= i < |events| && TerminalShape(events[i].fact) == Some(id) {
      assert Ends(events[i].fact, id);
    }
  }

  /** An offer of ours: sent, and not by another key to us. */
  predicate SentByUs(owner: Key, e: Event, id: InvitationId) {
    e.fact.InvitationSent? && e.fact.offer.id == id && (e.fact.offer.to == owner ==> e.signer == owner)
  }

  predicate OfferedByUs(owner: Key, events: seq<Event>, id: InvitationId) { exists e | e in events :: SentByUs(owner, e, id) }

  lemma OfferedExactly(owner: Key, events: seq<Event>, id: InvitationId)
    ensures OfferedByUs(owner, events, id) <==> FindOffer(owner, events, id, Some(false)).Some?
  {
    var p := OfferIn(owner, id, Some(false));
    if e :| e in events && SentByUs(owner, e, id) {
      var i :| 0 <= i < |events| && events[i] == e;
      assert p(events[i]);
    }
    var k := Position(events, p);
    if k.Some? {
      assert p(events[k.value]);
      assert SentByUs(owner, events[k.value], id) && events[k.value] in events;
    }
  }

  /** An offer to us: received, or sent to us by another key. */
  predicate SentToUs(owner: Key, e: Event, id: InvitationId) {
    Invitation.IsOffer(e.fact) && e.fact.offer.id == id
    && (e.fact.InvitationReceived? || (e.fact.offer.to == owner && e.signer != owner))
  }

  /** The signer is the transport or the root of the sender of our first offer of `id`. */
  predicate SentThisOffer(owner: Key, events: seq<Event>, id: InvitationId, signer: Key) {
    exists k | 0 <= k < |events| ::
      && SentToUs(owner, events[k], id) && (forall j | 0 <= j < k :: !SentToUs(owner, events[j], id))
      && var o := events[k].fact.offer;
         || o.senderRoot == Some(signer)
         || (if o.senderTransport.Some? then o.senderTransport.value else events[k].signer) == signer
  }

  lemma SentThisExactly(owner: Key, events: seq<Event>, id: InvitationId, signer: Key)
    ensures SentThisOffer(owner, events, id, signer) <==> ExpiredMatches(owner, events, id, signer)
  {
    hide OfferKind;
    var p := OfferIn(owner, id, Some(true));
    assert forall e :: p(e) <==> SentToUs(owner, e, id);
    var k := Position(events, p);
    if k.Some? { assert p(events[k.value]); }
  }

  // ----- offers -----

  /** Another offer of this starter, from the same sender, was rejected here because no
      slot was free. */
  predicate StarterRejected(events: seq<Event>, o: Offer, signer: Key) {
    exists r, e | r in events && e in events ::
      && r.fact.InvitationRejected? && r.fact.reason == EmptySlot && r.fact.id != o.id
      && e.fact.InvitationReceived? && e.fact.offer.id == r.fact.id && e.fact.offer.starter == o.starter
      && (if e.fact.offer.senderRoot.Some? then e.fact.offer.senderRoot.value else e.signer) == signer
  }

  /** An offer is written if and only if it is presentable, addressed to us, signed by the
      root it names, and: no answer names its id, this signer sent none of that id before,
      and no other offer of that starter from this sender was rejected for want of a slot. */
  lemma OfferExactly(c: Capsule, events: seq<Event>, m: Envelope, t: Turn)
    requires m.payload.InvitationSent? || m.payload.InvitationReceived?
    ensures var o := m.payload.offer;
            var wanted := && Presentable(c, m, t, InvitationReceivedKind)
                          && (m.to == c.endpoint || (m.payload.InvitationSent? && o.to == c.endpoint))
                          && o.senderRoot == Some(m.proof.value.signer)
                          && !Ended(events, o.id)
                          && (forall e | e in events && e.fact.InvitationReceived? && e.fact.offer.id == o.id ::
                                e.signer != m.proof.value.signer)
                          && !StarterRejected(events, o, m.proof.value.signer);
            var taken := wanted && Taken(c, m, t);
            && (Writes(c, events, m, InvitationReceived(o), t) <==> taken)
            && |Route(c, events, m, t).0| == |events| + (if taken then 1 else 0)
            && Route(c, events, m, t).1 == (if TryAgain(c, m, t, wanted, taken) then Retry else Consumed)
  {
    hide Route, Arrived, Resolved, ReusesRejectedStarter, StarterRejected, Ended;
    var f := InvitationReceived(m.payload.offer);
    WritesWhen(c, events, m, f, t);
    QuietAnswer(c, events, m, f, t);
    EndedExactly(events, f.offer.id);
    if m.proof.Some? {
      if f.offer.senderRoot == Some(m.proof.value.signer) { RejectedExactly(events, f.offer, m.proof.value.signer); }
      NotStoredOffer(events, f, m.timestamp, m.proof.value.signer);
    }
  }

  lemma RejectedExactly(events: seq<Event>, o: Offer, signer: Key)
    requires o.senderRoot == Some(signer)
    ensures StarterRejected(events, o, signer) <==> ReusesRejectedStarter(events, o.id, o.starter, SenderAnchor(o, signer))
  {
  }

  lemma NotStoredOffer(events: seq<Event>, f: Fact, ts: u64, signer: Key)
    requires f.InvitationReceived?
    ensures (forall e | e in events && e.fact.InvitationReceived? && e.fact.offer.id == f.offer.id :: e.signer != signer)
            ==> !HasSigned(events, f, signer) && forall n: nat :: !StoredSince(events, n, Event(f, ts, signer))
  {
  }

  // ----- answers -----

  /** An acceptance is written if and only if it is presentable, addressed to us, signed by
      the root it names, and answers an offer of ours that no answer names yet. */
  lemma AcceptanceExactly(c: Capsule, events: seq<Event>, m: Envelope, t: Turn)
    requires m.payload.InvitationAccepted?
    ensures Writes(c, events, m, m.payload, t)
       <==> && Presentable(c, m, t, InvitationAcceptedKind) && Taken(c, m, t) && m.to == c.endpoint
            && m.payload.accepterRoot == Some(m.proof.value.signer)
            && OfferedByUs(c.owner, events, m.payload.id) && !Ended(events, m.payload.id)
  {
    hide Route, Arrived, FindOffer;
    WritesWhen(c, events, m, m.payload, t);
    AnswerConditions(c, events, m);
  }

  /** A rejection, likewise; it names no root, so any good signature will do. */
  lemma RejectionExactly(c: Capsule, events: seq<Event>, m: Envelope, t: Turn)
    requires m.payload.InvitationRejected?
    ensures Writes(c, events, m, m.payload, t)
       <==> && Presentable(c, m, t, InvitationRejectedKind) && Taken(c, m, t) && m.to == c.endpoint
            && OfferedByUs(c.owner, events, m.payload.id) && !Ended(events, m.payload.id)
  {
    hide Route, Arrived, FindOffer;
    WritesWhen(c, events, m, m.payload, t);
    AnswerConditions(c, events, m);
  }

  lemma AnswerConditions(c: Capsule, events: seq<Event>, m: Envelope)
    requires m.payload.InvitationAccepted? || m.payload.InvitationRejected?
    ensures var id := m.payload.id;
            && (OfferedByUs(c.owner, events, id) <==> FindOffer(c.owner, events, id, Some(false)).Some?)
            && (Ended(events, id) <==> Resolved(events, id))
            && (!Ended(events, id) ==> forall signer :: !HasSigned(events, m.payload, signer))
            && (!Ended(events, id) ==> forall n: nat, ts, signer :: !StoredSince(events, n, Event(m.payload, ts, signer)))
  {
    OfferedExactly(c.owner, events, m.payload.id);
    EndedExactly(events, m.payload.id);
    if e :| e in events && e.fact == m.payload { assert Ends(e.fact, m.payload.id); }
  }

  /** The relationship an acceptance leads to, spelled out. */
  function Relationship(c: Capsule, events: seq<Event>, m: Envelope): Fact
    requires m.payload.InvitationAccepted? && FindOffer(c.owner, events, m.payload.id, Some(false)).Some?
  {
    var offer := FindOffer(c.owner, events, m.payload.id, Some(false)).value;
    RelationshipEstablished(Establishment(
      m.from, offer.starter, m.payload.created, offer.kind, m.payload.id, m.payload.from, offer.kind, offer.starter,
      m.payload.accepterRoot, Some(c.owner)))
  }

  /** An acceptance that is presentable, addressed to us and rightly signed is answered
      Consumed if and only if it answers an offer of ours, is written or the offer already
      has an answer, and its relationship is on record or can be recorded now; then the
      relationship is the last event, signed by us, unless it was there before. */
  lemma AcceptanceAnswer(c: Capsule, events: seq<Event>, m: Envelope, t: Turn)
    requires m.payload.InvitationAccepted? && Presentable(c, m, t, InvitationAcceptedKind) && m.to == c.endpoint
    requires m.payload.accepterRoot == Some(m.proof.value.signer)
    ensures var id := m.payload.id;
            var offered := FindOffer(c.owner, events, id, Some(false)).Some?;
            var heard := Ended(events, id) || Taken(c, m, t);
            var written := if Writes(c, events, m, m.payload, t) then 1 else 0;
            && (Route(c, events, m, t).1 == Consumed
                <==> && OfferedByUs(c.owner, events, id) && heard && m.from != c.owner && t.prepared
                     && (offered ==> t.stored || HasFact(events, Relationship(c, events, m))))
            && (Route(c, events, m, t).1 == Consumed ==>
                  offered &&
                  var recorded := if HasFact(events, Relationship(c, events, m)) then 0 else 1;
                  && |Route(c, events, m, t).0| == |events| + written + recorded
                  && (recorded == 1 ==> Route(c, events, m, t).0[|events| + written]
                                        == Event(Relationship(c, events, m), t.stamp, c.owner)))
            && (Route(c, events, m, t).1 != Consumed ==> |Route(c, events, m, t).0| == |events| + written)
  {
    hide FindOffer, HasFact, Ended, OfferedByUs, StarterKindOf, ShouldSkip, LocalDate;
    AcceptanceExactly(c, events, m, t);
    AnswerConditions(c, events, m);
    AcceptanceSkips(c, events, m);
    if !Skips(c, events, m) && AppendRemote(c, events, m, t).Some? {
      SameRelationship(c, events, m, AppendRemote(c, events, m, t).value[|events|]);
      assert AppendRemote(c, events, m, t).value == events + [AppendRemote(c, events, m, t).value[|events|]];
    }
  }

  /** The skip decision for an acceptance. */
  lemma AcceptanceSkips(c: Capsule, events: seq<Event>, m: Envelope)
    requires m.payload.InvitationAccepted? && m.proof.Some?
    ensures Skips(c, events, m) <==> Ended(events, m.payload.id) || !OfferedByUs(c.owner, events, m.payload.id)
  {
    hide FindOffer, Resolved, Ended, OfferedByUs;
    AnswerConditions(c, events, m);
  }

  /** Writing the acceptance changes neither the offer nor what is on record. */
  lemma SameRelationship(c: Capsule, events: seq<Event>, m: Envelope, e: Event)
    requires m.payload.InvitationAccepted? && e.fact == m.payload
    ensures var more := events + [e];
            && FindOffer(c.owner, more, m.payload.id, Some(false)) == FindOffer(c.owner, events, m.payload.id, Some(false))
            && forall f: Fact | f.RelationshipEstablished? :: HasFact(more, f) <==> HasFact(events, f)
  {
    hide StarterKindOf;
    var more, p := events + [e], OfferIn(c.owner, m.payload.id, Some(false));
    SameKindOf(c.owner, events, e);
    assert Extends(more, events);
    if FindOffer(c.owner, events, m.payload.id, Some(false)).Some? {
      OfferStays(c.owner, events, more, m.payload.id, Some(false));
    } else {
      assert forall i | 0 <= i < |more| :: !p(more[i]) by { assert forall i | 0 <= i < |events| :: more[i] == events[i] && !p(events[i]); }
    }
    assert forall x :: x in more <==> x in events || x == e;
  }

  /** A rejection that is presentable and addressed to us: for want of a slot it burns the
      offered starter if and only if that is in a slot, and for any other reason nothing.
      It is answered Consumed once it was heard and the burn, if any, is on record. */
  lemma RejectionAnswer(c: Capsule, events: seq<Event>, m: Envelope, t: Turn)
    requires m.payload.InvitationRejected? && Presentable(c, m, t, InvitationRejectedKind) && m.to == c.endpoint
    requires OfferedByUs(c.owner, events, m.payload.id)
    ensures var id := m.payload.id;
            FindOffer(c.owner, events, id, Some(false)).Some? &&
            var starter := FindOffer(c.owner, events, id, Some(false)).value.starter;
            var heard := Ended(events, id) || Taken(c, m, t);
            var base := if Writes(c, events, m, m.payload, t) then events + [Arrived(c, events, m, m.payload, t)] else events;
            var burns := heard && m.payload.reason == EmptySlot && starter in SlotIds(LayoutOf(c.owner, base));
            var (after, answer) := Route(c, events, m, t);
            && (answer == Consumed <==> heard && (burns ==> t.prepared && t.stored))
            && after == base + (if burns && t.prepared && t.stored then [Event(StarterBurned(starter, 0), t.stamp, c.owner)] else [])
  {
    hide FindOffer, Ended, OfferedByUs, ShouldSkip, LayoutOf, Arrived, SlotIds, Contains, LocalDate;
    var id := m.payload.id;
    RejectionExactly(c, events, m, t);
    AnswerConditions(c, events, m);
    RejectionSkips(c, events, m);
    DatedAlike(c, events, m, m.payload, t);
    var base := if Writes(c, events, m, m.payload, t) then events + [Arrived(c, events, m, m.payload, t)] else events;
    ContainsIsMember(LayoutOf(c.owner, base), FindOffer(c.owner, events, id, Some(false)).value.starter);
    assert base + [] == base;
    if base != events {
      assert Extends(base, events);
      SameStarter(c, events, base, id);
    }
  }

  lemma SameStarter(c: Capsule, events: seq<Event>, more: seq<Event>, id: InvitationId)
    requires Extends(more, events) && FindOffer(c.owner, events, id, Some(false)).Some?
    ensures FindOffer(c.owner, more, id, Some(false)).Some?
    ensures FindOffer(c.owner, more, id, Some(false)).value.starter == FindOffer(c.owner, events, id, Some(false)).value.starter
  {
    OfferStays(c.owner, events, more, id, Some(false));
  }

  lemma RejectionSkips(c: Capsule, events: seq<Event>, m: Envelope)
    requires m.payload.InvitationRejected? && m.proof.Some?
    ensures Skips(c, events, m) <==> Ended(events, m.payload.id) || !OfferedByUs(c.owner, events, m.payload.id)
  {
    hide FindOffer, Resolved, Ended, OfferedByUs;
    AnswerConditions(c, events, m);
  }

  /** An expiry is written if and only if it is presentable, signed by the sender of our
      first offer of that id, addressed to us or sent by that sender, and not yet here
      under this signature. An earlier answer does not matter. */
  lemma ExpiryExactly(c: Capsule, events: seq<Event>, m: Envelope, t: Turn)
    requires m.payload.InvitationExpired?
    ensures var wanted := && Presentable(c, m, t, InvitationExpiredKind)
                          && (m.to == c.endpoint || SentThisOffer(c.owner, events, m.payload.id, m.from))
                          && SentThisOffer(c.owner, events, m.payload.id, m.proof.value.signer)
                          && (forall e | e in events && e.fact == m.payload :: e.signer != m.proof.value.signer);
            var taken := wanted && Taken(c, m, t);
            && (Writes(c, events, m, m.payload, t) <==> taken)
            && |Route(c, events, m, t).0| == |events| + (if taken then 1 else 0)
            && Route(c, events, m, t).1 == (if TryAgain(c, m, t, wanted, taken) then Retry else Consumed)
  {
    hide Route, Arrived, ExpiredMatches, SentThisOffer, Resolved;
    WritesWhen(c, events, m, m.payload, t);
    QuietAnswer(c, events, m, m.payload, t);
    SentThisExactly(c.owner, events, m.payload.id, m.from);
    if m.proof.Some? {
      SentThisExactly(c.owner, events, m.payload.id, m.proof.value.signer);
    }
  }

  // ----- breaks -----

  /** The key's relationship stands: it was established and not broken since, by anyone. */
  predicate Stands(events: seq<Event>, key: RelKey) {
    exists i | 0 <= i < |events| :: EstablishesKey(events[i].fact, key)
                                    && forall j | i < j < |events| :: !BreaksKey(events[j].fact, key)
  }

  lemma {:induction false} StandsExactly(events: seq<Event>, key: RelKey)
    ensures Stands(events, key) <==> KeyActive(events, key)
  {
    if events != [] {
      var n := |events| - 1;
      var before := events[..n];
      StandsExactly(before, key);
      assert forall i | 0 <= i < n :: before[i] == events[i];
      if i :| 0 <= i < |events| && EstablishesKey(events[i].fact, key) && forall j | i < j < |events| :: !BreaksKey(events[j].fact, key) {
        if i < n { assert Stands(before, key); }
      }
      if KeyActive(events, key) {
        if EstablishesKey(events[n].fact, key) {
          assert Stands(events, key);
        } else {
          var i :| 0 <= i < n && EstablishesKey(before[i].fact, key) && forall j | i < j < n :: !BreaksKey(before[j].fact, key);
          assert EstablishesKey(events[i].fact, key) && forall j | i < j < |events| :: !BreaksKey(events[j].fact, key);
        }
      }
    }
  }

  /** The date of a break in milliseconds; what is too small for that counts as seconds. */
  function InMillis(ts: u64): nat {
    if ts == 0 || ts >= 100_000_000_000 then ts else ts * 1000
  }

  /** A break is written if and only if it is presentable, addressed to us, signed by the
      root it names, its relationship stands, it is dated after every break of the key and
      not before any establishment of it, and a v5 ledger does not have it yet. */
  lemma BreakExactly(c: Capsule, events: seq<Event>, m: Envelope, t: Turn)
    requires m.payload.RelationshipBroken?
    ensures var key := RelKey(m.payload.peer, m.payload.own);
            var wanted := && Presentable(c, m, t, RelationshipBrokenKind) && m.to == c.endpoint
                          && m.payload.peerRoot == Some(m.proof.value.signer)
                          && Stands(events, key)
                          && (forall e | e in events && BreaksKey(e.fact, key) :: e.timestamp < InMillis(m.timestamp))
                          && (forall e | e in events && EstablishesKey(e.fact, key) :: e.timestamp <= InMillis(m.timestamp));
            var taken := && wanted && Taken(c, m, t)
                         && (c.legacy.Some? ==> forall i | c.legacy.value <= i < |events| ::
                               events[i] != Event(m.payload, m.timestamp, m.proof.value.signer));
            && (Writes(c, events, m, m.payload, t) <==> taken)
            && |Route(c, events, m, t).0| == |events| + (if taken then 1 else 0)
            && Route(c, events, m, t).1 == (if TryAgain(c, m, t, wanted, taken) then Retry else Consumed)
  {
    hide Route, Arrived, KeyActive, Stands, Latest, Normalize, InMillis;
    var key := RelKey(m.payload.peer, m.payload.own);
    WritesWhen(c, events, m, m.payload, t);
    QuietAnswer(c, events, m, m.payload, t);
    StandsExactly(events, key);
    MillisExactly(m.timestamp);
    LatestIsGreatest(events, Breaking(key));
    LatestIsGreatest(events, Establishing(key));
  }

  lemma MillisExactly(ts: u64)
    ensures Normalize(ts) == InMillis(ts)
  {
  }

  // ----- everything else -----

  /** What never reaches the skip decision changes nothing: our own deliveries and what the
      other inboxes take are consumed, what nobody can look at now is tried again. */
  lemma Preliminaries(c: Capsule, events: seq<Event>, m: Envelope, t: Turn)
    ensures m.from == c.endpoint ==> Route(c, events, m, t) == (events, Consumed)
    ensures m.from != c.endpoint && (!t.loaded || t.aside == Full) ==> Route(c, events, m, t) == (events, Retry)
    ensures m.from != c.endpoint && t.loaded && t.aside == Aside.Taken ==> Route(c, events, m, t) == (events, Consumed)
  {
    hide ShouldSkip, Project, Addressed, SignerMatches;
  }

  /** A loaded capsule that no inbox relieves consumes, unwritten, an answer that carries no
      fitting proof, is not addressed to it, or is an acceptance of another root. */
  lemma AnswerTurnedAway(c: Capsule, events: seq<Event>, m: Envelope, t: Turn)
    requires m.payload.InvitationAccepted? || m.payload.InvitationRejected?
    requires t.loaded && t.aside == NotMatched
    requires !Presentable(c, m, t, KindOf(m.payload)) || m.to != c.endpoint
             || (m.payload.InvitationAccepted? && m.payload.accepterRoot != Some(m.proof.value.signer))
    ensures Route(c, events, m, t) == (events, Consumed)
  {
    hide ShouldSkip, Project;
  }

  /** An answer to an offer we never made is not written; it is tried again until it expires. */
  lemma AnswerWithoutOffer(c: Capsule, events: seq<Event>, m: Envelope, t: Turn)
    requires m.payload.InvitationAccepted? || m.payload.InvitationRejected?
    requires Presentable(c, m, t, KindOf(m.payload)) && m.to == c.endpoint
    requires m.payload.InvitationAccepted? ==> m.payload.accepterRoot == Some(m.proof.value.signer)
    requires !OfferedByUs(c.owner, events, m.payload.id)
    ensures Route(c, events, m, t) == (events, Retry)
  {
    hide FindOffer, OfferedByUs, Resolved;
    OfferedExactly(c.owner, events, m.payload.id);
  }

  /** Kinds that only the capsule itself writes are never taken from a delivery. */
  lemma OwnKindsNeverTaken(c: Capsule, events: seq<Event>, m: Envelope, t: Turn)
    requires KindOf(m.payload) in {CapsuleCreatedKind, StarterCreatedKind, StarterBurnedKind, RelationshipEstablishedKind}
    ensures Route(c, events, m, t).0 == events
    ensures m.from != c.endpoint ==> Route(c, events, m, t).1 == (if !t.loaded || t.aside == Full then Retry else Consumed)
  {
    hide ShouldSkip, Project, Addressed;
  }

  /** Should a relationship ever be delivered, the skip decision lets it through only from
      its peer, for an accepted invitation without relationship, while the key does not
      stand, and once. */
  lemma RelationshipSkipExactly(owner: Key, events: seq<Event>, f: Establishment, signer: Key, ts: u64)
    ensures !ShouldSkip(owner, events, RelationshipEstablished(f), signer, ts)
       <==> && f.peer == signer
            && (exists e | e in events :: e.fact.InvitationAccepted? && e.fact.id == f.invitation)
            && (forall e | e in events && e.fact.RelationshipEstablished? :: e.fact.fact.invitation != f.invitation)
            && !Stands(events, RelKey(f.peer, f.own))
  {
    hide Stands, KeyActive;
    StandsExactly(events, RelKey(f.peer, f.own));
  }

  /** The events leave room for it: an offer has a new id without answer, a rejection of 33
      bytes answers an open offer of ours, and this signer did not send the same before. */
  predicate MalformedNew(c: Capsule, events: seq<Event>, f: Fact, signer: Key)
    requires f.Malformed?
  {
    && (f.badKind == InvitationReceivedKind && f.head.Some? ==>
          && !Ended(events, f.head.value)
          && forall e | e in events && e.fact.InvitationReceived? && e.fact.offer.id == f.head.value :: e.signer != signer)
    && (f.badKind == InvitationRejectedKind && f.length == 33 && f.head.Some? ==>
          !Ended(events, f.head.value) && OfferedByUs(c.owner, events, f.head.value))
    && (forall e | e in events && e.fact == f :: e.signer != signer)
  }

  lemma MalformedSkips(c: Capsule, events: seq<Event>, m: Envelope, f: Fact)
    requires f == LocalFact(m.payload) && f.Malformed? && m.proof.Some?
    requires f.badKind in {InvitationReceivedKind, InvitationRejectedKind, InvitationExpiredKind}
    ensures Skips(c, events, m) <==> !MalformedNew(c, events, f, m.proof.value.signer)
  {
    hide Resolved, FindOffer, Ended, OfferedByUs;
    if f.head.Some? {
      EndedExactly(events, f.head.value);
      OfferedExactly(c.owner, events, f.head.value);
    }
  }

  /** A payload no codec reads is written if and only if it is presentable, addressed to us
      and new; one in the place of an offer also needs 128 bytes and its signer as root. */
  lemma MalformedExactly(c: Capsule, events: seq<Event>, m: Envelope, t: Turn)
    requires m.payload.Malformed?
    requires m.payload.badKind in {InvitationSentKind, InvitationReceivedKind, InvitationRejectedKind, InvitationExpiredKind}
    ensures var sent := m.payload.badKind == InvitationSentKind;
            var f := if sent then m.payload.(badKind := InvitationReceivedKind) else m.payload;
            var wanted := && Presentable(c, m, t, f.badKind)
                          && (m.to == c.endpoint || (sent && m.payload.length >= 96 && (c.rawTo)(m.payload) == c.endpoint))
                          && (f.badKind == InvitationReceivedKind ==> f.length >= 128 && (c.rawRoot)(f) == m.proof.value.signer)
                          && MalformedNew(c, events, f, m.proof.value.signer);
            var taken := && wanted && Taken(c, m, t)
                         && (c.legacy.Some? ==> !StoredSince(events, c.legacy.value, Event(f, m.timestamp, m.proof.value.signer)));
            && (Writes(c, events, m, f, t) <==> taken)
            && |Route(c, events, m, t).0| == |events| + (if taken then 1 else 0)
            && Route(c, events, m, t).1 == (if TryAgain(c, m, t, wanted, taken) then Retry else Consumed)
  {
    hide Route, Arrived, Skips, MalformedNew, StoredSince;
    var f := LocalFact(m.payload);
    WritesWhen(c, events, m, f, t);
    MalformedQuiet(c, events, m, f, t);
    if m.proof.Some? { MalformedSkips(c, events, m, f); }
  }

  lemma MalformedQuiet(c: Capsule, events: seq<Event>, m: Envelope, f: Fact, t: Turn)
    requires f == LocalFact(m.payload) && f.Malformed?
    ensures var wanted := Checked(c, events, m, t) && !Skips(c, events, m);
            var taken := wanted && AppendRemote(c, events, m, t).Some?;
            && |Route(c, events, m, t).0| == |events| + (if taken then 1 else 0)
            && Route(c, events, m, t).1 == (if TryAgain(c, m, t, wanted, taken) then Retry else Consumed)
  {
    hide ShouldSkip, Addressed, SignerMatches, StoredSince, LocalDate;
  }
}
