/** What the router looks up in the ledger before it appends a delivery: offers by
    direction, relationship keys, timestamps, and the decision to skip
    (platform/hivra-ffi/src/invitation_support.rs). */
module Lookup {
  import opened Common
  import opened Facts
  import Invitation
  import opened Slot
  import opened Allocation

  /** `more` continues `events`. */
  predicate Extends(more: seq<Event>, events: seq<Event>) {
    |events| <= |more| && more[..|events|] == events
  }

  lemma ExtendsTransitive(a: seq<Event>, b: seq<Event>, c: seq<Event>)
    requires Extends(b, a) && Extends(c, b)
    ensures Extends(c, a)
  {
    assert c[..|a|] == c[..|b|][..|a|];
  }

  lemma ExtendsMembers(more: seq<Event>, events: seq<Event>)
    requires Extends(more, events)
    ensures forall e | e in events :: e in more
    ensures forall i | 0 <= i < |events| :: more[i] == events[i]
  {
    forall i | 0 <= i < |events| ensures more[i] == events[i] { assert more[..|events|][i] == events[i]; }
  }

  // ----- offers -----

  datatype Found = Found(starter: StarterId, kind: StarterKind, peer: Key, incoming: bool, senderRoot: Option<Key>)

  predicate Incoming(owner: Key, e: Event)
    requires Invitation.IsOffer(e.fact)
  {
    e.fact.InvitationReceived? || (e.fact.offer.to == owner && e.signer != owner)
  }

  function OfferIn(owner: Key, id: InvitationId, direction: Option<bool>): Event -> bool {
    (e: Event) => Invitation.IsOffer(e.fact) && e.fact.offer.id == id
                  && (direction.None? || direction.value == Incoming(owner, e))
  }

  /** The kind an offer is for: its own byte, the latest creation of its starter, or Juice. */
  function OfferKind(owner: Key, events: seq<Event>, o: Offer): StarterKind {
    match o.KindHint()
    case Some(k) => k
    case None => match StarterKindOf(owner, events, o.starter) case Some(k) => k case None => Juice
  }

  function Describe(owner: Key, events: seq<Event>, e: Event): Found
    requires Invitation.IsOffer(e.fact)
  {
    var o, incoming := e.fact.offer, Incoming(owner, e);
    var peer := if !incoming then o.to else if o.senderTransport.Some? then o.senderTransport.value else e.signer;
    Found(o.starter, OfferKind(owner, events, o), peer, incoming, o.senderRoot)
  }

  function FindOffer(owner: Key, events: seq<Event>, id: InvitationId, direction: Option<bool>): Option<Found> {
    match Position(events, OfferIn(owner, id, direction))
    case Some(k) => Some(Describe(owner, events, events[k]))
    case None => None
  }

  /** `find_invitation_sent_in_runtime_with_direction`. */
  method FindInvitationSent(owner: Key, events: seq<Event>, id: InvitationId, direction: Option<bool>)
    returns (found: Option<Found>)
    ensures found == FindOffer(owner, events, id, direction)
  {
    hide StarterKindOf;
    for n := 0 to |events|
      invariant forall i | 0 <= i < n :: !OfferIn(owner, id, direction)(events[i])
    {
      var e := events[n];
      if !Invitation.IsOffer(e.fact) || e.fact.offer.id != id { continue; }
      var candidate := Describe(owner, events, e);
      if direction.None? || direction.value == candidate.incoming {
        assert OfferIn(owner, id, direction)(events[n]);
        return Some(candidate);
      }
    }
    found := None;
  }

  lemma FirstStays<T(!new)>(s: seq<T>, t: seq<T>, p: T -> bool)
    requires |s| <= |t| && t[..|s|] == s && Position(s, p).Some?
    ensures Position(t, p) == Position(s, p)
  {
    assert forall i | 0 <= i < |s| :: t[i] == t[..|s|][i] == s[i];
    var k := Position(s, p).value;
    assert p(t[k]);
  }

  /** The offer that answers a lookup never changes; only the kind of an offer
      without kind byte can. */
  lemma OfferStays(owner: Key, events: seq<Event>, more: seq<Event>, id: InvitationId, direction: Option<bool>)
    requires Extends(more, events) && FindOffer(owner, events, id, direction).Some?
    ensures var k := Position(events, OfferIn(owner, id, direction)).value;
            && Position(more, OfferIn(owner, id, direction)) == Some(k) && more[k] == events[k]
            && FindOffer(owner, more, id, direction)
               == Some(FindOffer(owner, events, id, direction).value
                       .(kind := OfferKind(owner, more, events[k].fact.offer)))
  {
    FirstStays(events, more, OfferIn(owner, id, direction));
    ExtendsMembers(more, events);
  }

  // ----- relationship keys -----

  datatype RelKey = RelKey(peer: Key, own: StarterId)

  predicate EstablishesKey(f: Fact, key: RelKey) {
    f.RelationshipEstablished? && RelKey(f.fact.peer, f.fact.own) == key
  }

  predicate BreaksKey(f: Fact, key: RelKey) {
    f.RelationshipBroken? && RelKey(f.peer, f.own) == key
  }

  predicate KeyActive(events: seq<Event>, key: RelKey) {
    if events == [] then false
    else
      var f := events[|events|-1].fact;
      if EstablishesKey(f, key) then true
      else if BreaksKey(f, key) then false
      else KeyActive(events[..|events|-1], key)
  }

  function Later(a: Option<u64>, b: u64): Option<u64> { Some(if a.Some? then Max(a.value, b) else b) }

  function Latest(events: seq<Event>, p: Fact -> bool): Option<u64> {
    if events == [] then None
    else
      var before, e := Latest(events[..|events|-1], p), events[|events|-1];
      if p(e.fact) then Later(before, e.timestamp) else before
  }

  function Establishing(key: RelKey): Fact -> bool { (f: Fact) => EstablishesKey(f, key) }

  function Breaking(key: RelKey): Fact -> bool { (f: Fact) => BreaksKey(f, key) }

  /** `relationship_key_is_active_in_runtime`. */
  method KeyIsActive(events: seq<Event>, key: RelKey) returns (active: bool)
    ensures active == KeyActive(events, key)
  {
    active := false;
    for n := 0 to |events|
      invariant active == KeyActive(events[..n], key)
    {
      assert events[..n+1][..n] == events[..n];
      if EstablishesKey(events[n].fact, key) {
        active := true;
      } else if BreaksKey(events[n].fact, key) {
        active := false;
      }
    }
    assert events[..|events|] == events;
  }

  /** `relationship_key_latest_timestamps_in_runtime`. */
  method LatestTimestamps(events: seq<Event>, key: RelKey) returns (established: Option<u64>, broken: Option<u64>)
    ensures established == Latest(events, Establishing(key)) && broken == Latest(events, Breaking(key))
  {
    established, broken := None, None;
    for n := 0 to |events|
      invariant established == Latest(events[..n], Establishing(key)) && broken == Latest(events[..n], Breaking(key))
    {
      assert events[..n+1][..n] == events[..n];
      var ts := events[n].timestamp;
      if EstablishesKey(events[n].fact, key) {
        established := Some(if established.None? then ts else Max(established.value, ts));
      } else if BreaksKey(events[n].fact, key) {
        broken := Some(if broken.None? then ts else Max(broken.value, ts));
      }
    }
    assert events[..|events|] == events;
  }

  /** The latest timestamp is that of some matching event and at least that of each. */
  lemma {:induction false} LatestIsGreatest(events: seq<Event>, p: Fact -> bool)
    ensures Latest(events, p).Some? <==> exists e | e in events :: p(e.fact)
    ensures Latest(events, p).Some? ==>
              && (exists e | e in events :: p(e.fact) && e.timestamp == Latest(events, p).value)
              && forall e | e in events && p(e.fact) :: e.timestamp <= Latest(events, p).value
  {
    if events != [] {
      var before, last := events[..|events|-1], events[|events|-1];
      assert events == before + [last];
      LatestIsGreatest(before, p);
      assert last in events;
    }
  }

  lemma LatestGrows(events: seq<Event>, more: seq<Event>, p: Fact -> bool)
    requires Extends(more, events) && Latest(events, p).Some?
    ensures Latest(more, p).Some? && Latest(events, p).value <= Latest(more, p).value
  {
    LatestIsGreatest(events, p);
    LatestIsGreatest(more, p);
    ExtendsMembers(more, events);
  }

  // ----- the skip decision -----

  predicate HasFact(events: seq<Event>, f: Fact) { exists e | e in events :: e.fact == f }

  predicate HasSigned(events: seq<Event>, f: Fact, signer: Key) {
    exists e | e in events :: e.fact == f && e.signer == signer
  }

  predicate AcceptedExists(events: seq<Event>, id: InvitationId) {
    exists e | e in events :: e.fact.InvitationAccepted? && e.fact.id == id
  }

  predicate EstablishedFor(events: seq<Event>, id: InvitationId) {
    exists e | e in events :: e.fact.RelationshipEstablished? && e.fact.fact.invitation == id
  }

  predicate ReceivedOffer(events: seq<Event>, id: InvitationId, signer: Key) {
    exists e | e in events :: e.fact.InvitationReceived? && e.fact.offer.id == id && e.signer == signer
  }

  function SenderAnchor(o: Offer, signer: Key): Key {
    if o.senderRoot.Some? then o.senderRoot.value else signer
  }

  /** Another offer of this sender's starter was rejected here for want of a slot. */
  predicate ReusesRejectedStarter(events: seq<Event>, id: InvitationId, starter: StarterId, anchor: Key) {
    exists r, e | r in events && e in events ::
      && r.fact.InvitationRejected? && r.fact.reason == EmptySlot && r.fact.id != id
      && e.fact.InvitationReceived? && e.fact.offer.id == r.fact.id
      && e.fact.offer.starter == starter && SenderAnchor(e.fact.offer, e.signer) == anchor
  }

  predicate ExpiredMatches(owner: Key, events: seq<Event>, id: InvitationId, signer: Key) {
    var found := FindOffer(owner, events, id, Some(true));
    found.Some? && (found.value.peer == signer || found.value.senderRoot == Some(signer))
  }

  const MILLIS_FROM: nat := 100_000_000_000

  /** Small timestamps are taken for seconds. */
  function Normalize(raw: u64): u64 {
    if raw == 0 then 0 else if raw < MILLIS_FROM then Min(raw * 1000, U64_MAX) else raw
  }

  predicate SkipEstablished(events: seq<Event>, f: Fact, signer: Key) {
    !f.RelationshipEstablished? || f.fact.peer != signer
    || !AcceptedExists(events, f.fact.invitation) || EstablishedFor(events, f.fact.invitation)
    || KeyActive(events, RelKey(f.fact.peer, f.fact.own))
  }

  predicate BreakSignerMatches(f: Fact, signer: Key)
    requires f.RelationshipBroken?
  {
    if f.peerRoot.Some? then f.peerRoot.value == signer else f.peer == signer
  }

  predicate SkipBroken(events: seq<Event>, f: Fact, signer: Key, ts: u64) {
    !f.RelationshipBroken? || !BreakSignerMatches(f, signer)
    || var key := RelKey(f.peer, f.own);
       var established, broken := Latest(events, Establishing(key)), Latest(events, Breaking(key));
       || (broken.Some? && Normalize(ts) <= broken.value)
       || (established.Some? && Normalize(ts) < established.value)
       || !KeyActive(events, key)
  }

  /** The first 32 bytes of an `InvitationReceived` payload that has them. */
  function ReceivedId(f: Fact): Option<InvitationId> {
    if f.InvitationReceived? then Some(f.offer.id)
    else if f.Malformed? && f.badKind == InvitationReceivedKind then f.head
    else None
  }

  predicate SkipReceived(owner: Key, events: seq<Event>, f: Fact, signer: Key) {
    var id := ReceivedId(f);
    id.Some? &&
    (|| Resolved(events, id.value)
     || ReceivedOffer(events, id.value, signer)
     || (f.InvitationReceived? && ReusesRejectedStarter(events, id.value, f.offer.starter, SenderAnchor(f.offer, signer))))
  }

  predicate SkipTerminal(owner: Key, events: seq<Event>, f: Fact, signer: Key) {
    var id := TerminalShape(f);
    id.Some? &&
    (|| (Resolved(events, id.value) && !(f.InvitationExpired? && ExpiredMatches(owner, events, id.value, signer)))
     || (if f.InvitationExpired? then !ExpiredMatches(owner, events, id.value, signer)
         else FindOffer(owner, events, id.value, Some(false)).None?))
  }

  /** `should_skip_incoming_delivery_append_with_timestamp`. */
  predicate ShouldSkip(owner: Key, events: seq<Event>, f: Fact, signer: Key, ts: u64) {
    if KindOf(f) == RelationshipBrokenKind then SkipBroken(events, f, signer, ts)
    else
      || (KindOf(f) == RelationshipEstablishedKind && SkipEstablished(events, f, signer))
      || SkipReceived(owner, events, f, signer)
      || SkipTerminal(owner, events, f, signer)
      || HasSigned(events, f, signer)
  }

  lemma HasFactGrows(events: seq<Event>, more: seq<Event>, f: Fact, signer: Key)
    requires Extends(more, events)
    ensures HasFact(events, f) ==> HasFact(more, f)
    ensures HasSigned(events, f, signer) ==> HasSigned(more, f, signer)
  {
    ExtendsMembers(more, events);
  }

  lemma ResolvedGrows(events: seq<Event>, more: seq<Event>, id: InvitationId)
    requires Extends(more, events) && Resolved(events, id)
    ensures Resolved(more, id)
  {
    ExtendsMembers(more, events);
    var i :| 0 <= i < |events| && TerminalShape(events[i].fact) == Some(id);
    assert TerminalShape(more[i].fact) == Some(id);
  }

  // ----- breaks -----

  /** A break delivery is skipped now and after anything else is appended, exactly if
      its signer does not match, its normalized timestamp is not after the last
      recorded break of the key, or it is before the last establishment of the key.
      That the key is inactive is not enough: it can be established again. */
  lemma BreakStaysSkipped(owner: Key, events: seq<Event>, f: Fact, signer: Key, ts: u64)
    requires f.RelationshipBroken?
    ensures var key := RelKey(f.peer, f.own);
            var established, broken := Latest(events, Establishing(key)), Latest(events, Breaking(key));
            (forall more | Extends(more, events) :: ShouldSkip(owner, more, f, signer, ts))
            <==> (|| !BreakSignerMatches(f, signer)
                  || (broken.Some? && Normalize(ts) <= broken.value)
                  || (established.Some? && Normalize(ts) < established.value))
  {
    hide Latest, KeyActive, Normalize;
    var key := RelKey(f.peer, f.own);
    var established, broken := Latest(events, Establishing(key)), Latest(events, Breaking(key));
    forall more | Extends(more, events)
      ensures broken.Some? && Normalize(ts) <= broken.value ==> ShouldSkip(owner, more, f, signer, ts)
      ensures established.Some? && Normalize(ts) < established.value ==> ShouldSkip(owner, more, f, signer, ts)
    {
      if broken.Some? { LatestGrows(events, more, Breaking(key)); }
      if established.Some? { LatestGrows(events, more, Establishing(key)); }
    }
    var again := events + [Event(RelationshipEstablished(Reestablishment(f)), Normalize(ts), signer)];
    assert Extends(again, events);
    Reestablished(events, f, Normalize(ts), signer);
  }

  function Reestablishment(f: Fact): Establishment
    requires f.RelationshipBroken?
  {
    Establishment(f.peer, f.own, 0, Juice, 0, f.peer, Juice, 0, None, None)
  }

  lemma Reestablished(events: seq<Event>, f: Fact, ts: u64, signer: Key)
    requires f.RelationshipBroken?
    ensures var key := RelKey(f.peer, f.own);
            var again := events + [Event(RelationshipEstablished(Reestablishment(f)), ts, signer)];
            && KeyActive(again, key)
            && Latest(again, Breaking(key)) == Latest(events, Breaking(key))
            && Latest(again, Establishing(key)) == Later(Latest(events, Establishing(key)), ts)
  {
    var again := events + [Event(RelationshipEstablished(Reestablishment(f)), ts, signer)];
    assert again[..|events|] == events;
  }

  /** A recorded break at least as late as the delivery's normalized date silences the
      delivery for good. */
  lemma RecordedBreakSilences(owner: Key, events: seq<Event>, f: Fact, signer: Key, ts: u64, e: Event)
    requires f.RelationshipBroken? && e in events && e.fact == f && Normalize(ts) <= e.timestamp
    ensures ShouldSkip(owner, events, f, signer, ts)
  {
    hide KeyActive, Latest, Normalize;
    var key := RelKey(f.peer, f.own);
    LatestIsGreatest(events, Breaking(key));
    assert Breaking(key)(f);
  }

  // ----- burned starters -----

  /** Once the owner burned a starter it is in no slot again, whatever is appended. */
  lemma BurnedNotShown(owner: Key, events: seq<Event>, id: StarterId)
    requires id in BurnedIds(owner, events)
    ensures !Contains(LayoutOf(owner, events), id)
  {
    hide Replay, RevokedStarters, LockedStarters, LockFirst, SlotIds, BurnedIds, Contains;
    var revoked := RevokedStarters(events);
    BurnedNotReplayed(owner, revoked, events);
    ReplayNoDuplicates(owner, revoked, events);
    ReplayOccupied(owner, revoked, events);
    LockedLayout(Replay(owner, revoked, events).slots, LockedStarters(owner, events));
    ContainsIsMember(LayoutOf(owner, events), id);
  }

  lemma {:induction false} BurnedNotReplayed(owner: Key, revoked: set<StarterId>, events: seq<Event>)
    ensures var r := Replay(owner, revoked, events);
            r.burned == BurnedIds(owner, events) && SlotIds(r.slots) !! r.burned
  {
    if |events| > 0 {
      var before, e := events[..|events|-1], events[|events|-1];
      assert events == before + [e];
      BurnedNotReplayed(owner, revoked, before);
      ReplayNoDuplicates(owner, revoked, before);
      LiveSnoc(owner, revoked, before, e);
      BurnedStep(owner, revoked, Replay(owner, revoked, before), e);
    }
  }

  lemma BurnedStep(owner: Key, revoked: set<StarterId>, r: Replayed, e: Event)
    requires NoDuplicates(r.slots) && SlotIds(r.slots) !! r.burned
    ensures var r' := ReplayEvent(owner, revoked, r, e);
            && SlotIds(r'.slots) !! r'.burned
            && r'.burned == r.burned + (if e.signer == owner && e.fact.StarterBurned? then {e.fact.starter} else {})
  {
    hide SlotIds, NoDuplicates, FreeStarter, Contains;
    if e.signer == owner && e.fact.StarterCreated? {
      ContainsIsMember(r.slots, e.fact.starter);
      if Position(r.slots, IsEmpty).Some? && !Contains(r.slots, e.fact.starter) {
        OccupyEffect(r.slots, e.fact.starter);
      }
    } else if e.signer == owner && e.fact.StarterBurned? {
      FreeEffect(r.slots, e.fact.starter);
    }
  }
}
