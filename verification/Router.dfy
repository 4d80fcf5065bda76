/** The inbound router: what one delivery does to the ledger and how it is answered
    (`route_inbound_envelope` and the projections it calls,
    platform/hivra-ffi/src/{invitation_api,invitation_support}.rs). */
module Router {
  import opened Common
  import opened Facts
  import Invitation
  import opened Slot
  import opened Allocation
  import opened Lookup

  datatype Disposition = Consumed | Retry | Quarantined | AdapterRejected

  /** The answer of the chat and attestation inboxes. */
  datatype Aside = Taken | Full | NotMatched

  /** The capsule: root key, transport key, ledger protocol. `legacy` is None for a v4
      ledger and the number of migrated v4 events at the front of a v5 ledger. `rawTo`
      and `rawRoot` are bytes 64..96 and 96..128 of a payload that has no known shape. */
  datatype Capsule = Capsule(owner: Key, endpoint: Key, legacy: Option<nat>, rawTo: Fact -> Key, rawRoot: Fact -> Key)

  /** What the surroundings do during one call: whether the capsule is loaded, what
      the other inboxes say, the wall clock, whether the received event's signature is
      good, and whether the capsule's own event can be signed and stored, with which
      timestamp. */
  datatype Turn = Turn(
    loaded: bool, aside: Aside, now: u64, admitted: bool, prepared: bool, stored: bool, stamp: u64)

  function KindFromCode(n: nat): Option<EventKind> {
    if n == 0 then Some(CapsuleCreatedKind)
    else if n == 1 then Some(InvitationSentKind)
    else if n == 2 then Some(InvitationAcceptedKind)
    else if n == 3 then Some(InvitationRejectedKind)
    else if n == 4 then Some(InvitationExpiredKind)
    else if n == 5 then Some(StarterCreatedKind)
    else if n == 6 then Some(StarterBurnedKind)
    else if n == 7 then Some(RelationshipEstablishedKind)
    else if n == 8 then Some(RelationshipBrokenKind)
    else if n == 9 then Some(InvitationReceivedKind)
    else None
  }

  /** A sent offer is received here. */
  function LocalFact(f: Fact): Fact {
    if f.InvitationSent? then InvitationReceived(f.offer)
    else if f.Malformed? && f.badKind == InvitationSentKind then f.(badKind := InvitationReceivedKind)
    else f
  }

  predicate OfferTargetsLocal(c: Capsule, f: Fact) {
    || (f.InvitationSent? && f.offer.to == c.endpoint)
    || (f.Malformed? && f.badKind == InvitationSentKind && f.length >= 96 && (c.rawTo)(f) == c.endpoint)
  }

  predicate Addressed(c: Capsule, events: seq<Event>, m: Envelope) {
    || m.to == c.endpoint
    || OfferTargetsLocal(c, m.payload)
    || (m.payload.InvitationExpired? && ExpiredMatches(c.owner, events, m.payload.id, m.from))
  }

  predicate Proved(m: Envelope) {
    m.proof.Some? && m.proof.value.kind == KindOf(LocalFact(m.payload)) && m.proof.value.version in {4, 5}
  }

  /** The proof's signer is the root the payload names; rejections and expiries name none. */
  predicate SignerMatches(c: Capsule, f: Fact, signer: Key) {
    match f
    case InvitationReceived(o) => o.senderRoot == Some(signer)
    case InvitationAccepted(_, _, _, root) => root == Some(signer)
    case RelationshipBroken(_, _, root) => root == Some(signer)
    case InvitationRejected(_, _) => true
    case InvitationExpired(_) => true
    case Malformed(kind, length, _, _) =>
      || kind == InvitationRejectedKind || kind == InvitationExpiredKind
      || (kind == InvitationReceivedKind && length >= 128 && (c.rawRoot)(f) == signer)
    case _ => false
  }

  // ----- the projections -----

  /** The relationship the inviter records for an acceptance of its offer. */
  function Establishes(c: Capsule, from: Key, f: Fact, offer: Found): Establishment
    requires f.InvitationAccepted?
  {
    Establishment(from, offer.starter, f.created, offer.kind, f.id, f.from, offer.kind, offer.starter,
                  f.accepterRoot, Some(c.owner))
  }

  /** `project_relationship_from_invitation_accepted`; None when it fails. */
  function ProjectAccepted(c: Capsule, events: seq<Event>, from: Key, f: Fact, t: Turn): Option<seq<Event>>
    requires f.InvitationAccepted?
  {
    var offer := FindOffer(c.owner, events, f.id, Some(false));
    if from == c.owner || offer.None? || !t.prepared then None
    else
      var est := RelationshipEstablished(Establishes(c, from, f, offer.value));
      if HasFact(events, est) then Some(events)
      else if t.stored then Some(events + [Event(est, t.stamp, c.owner)])
      else None
  }

  const EMPTY_SLOT_CODE: nat := 0

  /** `project_effects_from_invitation_rejected`. */
  function ProjectRejected(c: Capsule, events: seq<Event>, f: Fact, t: Turn): Option<seq<Event>>
    requires f.InvitationRejected?
  {
    var offer := FindOffer(c.owner, events, f.id, Some(false));
    if offer.None? then None
    else if f.reason != EmptySlot || !Contains(LayoutOf(c.owner, events), offer.value.starter) then Some(events)
    else if t.prepared && t.stored then
      Some(events + [Event(StarterBurned(offer.value.starter, EMPTY_SLOT_CODE), t.stamp, c.owner)])
    else None
  }

  function Project(c: Capsule, events: seq<Event>, from: Key, f: Fact, t: Turn): Option<seq<Event>> {
    if f.InvitationAccepted? then ProjectAccepted(c, events, from, f, t)
    else if f.InvitationRejected? then ProjectRejected(c, events, f, t)
    else Some(events)
  }

  /** The v5 part of the ledger holds this event: same kind, payload, timestamp and
      signer, so the same event id. */
  predicate StoredSince(events: seq<Event>, legacy: nat, e: Event) {
    exists i | legacy <= i < |events| :: events[i] == e
  }

  /** The date a v4 ledger gives a received event: after its last one. */
  function LocalDate(events: seq<Event>, t: Turn): u64 {
    Max(t.now, if events == [] then 0 else SatAdd(events[|events|-1].timestamp, 1))
  }

  /** `append_verified_runtime_event`: a v5 ledger keeps the event as it came and refuses
      an id it already has; a v4 ledger dates the event anew. */
  function AppendRemote(c: Capsule, events: seq<Event>, m: Envelope, t: Turn): Option<seq<Event>>
    requires m.proof.Some?
  {
    var f, signer := LocalFact(m.payload), m.proof.value.signer;
    if !t.admitted then None
    else
      match c.legacy
      case None => Some(events + [Event(f, LocalDate(events, t), signer)])
      case Some(n) =>
        var e := Event(f, m.timestamp, signer);
        if m.proof.value.version != 5 || StoredSince(events, n, e) then None else Some(events + [e])
  }

  // ----- the router -----

  /** The delivery gets as far as the skip decision. */
  predicate Checked(c: Capsule, events: seq<Event>, m: Envelope, t: Turn) {
    && m.from != c.endpoint && t.loaded && t.aside == NotMatched
    && KindFromCode(m.kind).Some?
    && Addressed(c, events, m)
    && Proved(m)
    && SignerMatches(c, LocalFact(m.payload), m.proof.value.signer)
  }

  function Outcome(before: seq<Event>, after: Option<seq<Event>>): (seq<Event>, Disposition) {
    if after.Some? then (after.value, Consumed) else (before, Retry)
  }

  /** From the skip decision on. */
  function Settle(c: Capsule, events: seq<Event>, m: Envelope, t: Turn): (seq<Event>, Disposition)
    requires m.proof.Some?
  {
    var f := LocalFact(m.payload);
    if ShouldSkip(c.owner, events, f, m.proof.value.signer, m.timestamp)
    then Outcome(events, Project(c, events, m.from, f, t))
    else
      match AppendRemote(c, events, m, t)
      case None => (events, Retry)
      case Some(appended) => Outcome(appended, Project(c, appended, m.from, f, t))
  }

  /** `route_inbound_envelope`. */
  function Route(c: Capsule, events: seq<Event>, m: Envelope, t: Turn): (seq<Event>, Disposition) {
    if m.from == c.endpoint then (events, Consumed)
    else if !t.loaded || t.aside == Full then (events, Retry)
    else if !Checked(c, events, m, t) then (events, Consumed)
    else Settle(c, events, m, t)
  }

  class Runtime {
    const capsule: Capsule
    var ledger: seq<Event>

    constructor (capsule: Capsule, ledger: seq<Event>)
      ensures this.capsule == capsule && this.ledger == ledger
    {
      this.capsule := capsule;
      this.ledger := ledger;
    }

    /** `append_relationship_established_if_missing` and its lookup. */
    method ProjectRelationship(from: Key, f: Fact, t: Turn) returns (ok: bool)
      requires f.InvitationAccepted?
      modifies this`ledger
      ensures (ledger, ok) == (var r := ProjectAccepted(capsule, old(ledger), from, f, t);
                               if r.Some? then (r.value, true) else (old(ledger), false))
    {
      if from == capsule.owner { return false; }
      var offer := FindInvitationSent(capsule.owner, ledger, f.id, Some(false));
      if offer.None? || !t.prepared { return false; }
      var est := RelationshipEstablished(Establishes(capsule, from, f, offer.value));
      if HasFact(ledger, est) { return true; }
      if !t.stored { return false; }
      ledger := ledger + [Event(est, t.stamp, capsule.owner)];
      ok := true;
    }

    method ProjectRejection(f: Fact, t: Turn) returns (ok: bool)
      requires f.InvitationRejected?
      modifies this`ledger
      ensures (ledger, ok) == (var r := ProjectRejected(capsule, old(ledger), f, t);
                               if r.Some? then (r.value, true) else (old(ledger), false))
    {
      var offer := FindInvitationSent(capsule.owner, ledger, f.id, Some(false));
      if offer.None? { return false; }
      if f.reason == Other { return true; }
      if !Contains(LayoutOf(capsule.owner, ledger), offer.value.starter) { return true; }
      if !t.prepared || !t.stored { return false; }
      ledger := ledger + [Event(StarterBurned(offer.value.starter, EMPTY_SLOT_CODE), t.stamp, capsule.owner)];
      ok := true;
    }

    method ProjectEffects(from: Key, f: Fact, t: Turn) returns (ok: bool)
      modifies this`ledger
      ensures (ledger, ok) == (var r := Project(capsule, old(ledger), from, f, t);
                               if r.Some? then (r.value, true) else (old(ledger), false))
    {
      ok := true;
      if f.InvitationAccepted? {
        ok := ProjectRelationship(from, f, t);
      } else if f.InvitationRejected? {
        ok := ProjectRejection(f, t);
      }
    }

    method RouteInbound(m: Envelope, t: Turn) returns (d: Disposition)
      modifies this`ledger
      ensures (ledger, d) == Route(capsule, old(ledger), m, t)
    {
      hide ShouldSkip, Project, SignerMatches, Addressed, LocalFact;
      if m.from == capsule.endpoint { return Consumed; }
      if !t.loaded { return Retry; }
      if t.aside == Taken { return Consumed; }
      if t.aside == Full { return Retry; }
      if KindFromCode(m.kind).None? { return Consumed; }
      if !Addressed(capsule, ledger, m) { return Consumed; }
      if !Proved(m) { return Consumed; }
      var f, signer := LocalFact(m.payload), m.proof.value.signer;
      if !SignerMatches(capsule, f, signer) { return Consumed; }
      if !ShouldSkip(capsule.owner, ledger, f, signer, m.timestamp) {
        var appended := AppendRemote(capsule, ledger, m, t);
        if appended.None? { return Retry; }
        ledger := appended.value;
      }
      var ok := ProjectEffects(m.from, f, t);
      d := if ok then Consumed else Retry;
    }
  }

  // ----- one delivery -----

  /** A delivery adds at most its own event and one local effect. */
  lemma RouteExtends(c: Capsule, events: seq<Event>, m: Envelope, t: Turn)
    ensures Extends(Route(c, events, m, t).0, events) && |Route(c, events, m, t).0| <= |events| + 2
  {
    hide ShouldSkip, FindOffer, LayoutOf, HasFact, Checked;
  }

  /** An acceptance past the checks is answered Consumed only if the ledger then holds
      the relationship of the offer it accepts. */
  lemma AcceptanceEstablishes(c: Capsule, events: seq<Event>, m: Envelope, t: Turn)
    requires Checked(c, events, m, t) && m.payload.InvitationAccepted?
    requires Route(c, events, m, t).1 == Consumed
    ensures var after := Route(c, events, m, t).0;
            var offer := FindOffer(c.owner, after, m.payload.id, Some(false));
            offer.Some? && HasFact(after, RelationshipEstablished(Establishes(c, m.from, m.payload, offer.value)))
  {
    hide ShouldSkip, FindOffer, Addressed, SignerMatches;
    var f := m.payload;
    var base := if ShouldSkip(c.owner, events, f, m.proof.value.signer, m.timestamp) then events
                else AppendRemote(c, events, m, t).value;
    var after := Route(c, events, m, t).0;
    assert ProjectAccepted(c, base, m.from, f, t) == Some(after);
    LateKind(c, base, m.from, f, t);
  }

  /** Recording the relationship does not change the offer it came from. */
  lemma LateKind(c: Capsule, base: seq<Event>, from: Key, f: Fact, t: Turn)
    requires f.InvitationAccepted? && ProjectAccepted(c, base, from, f, t).Some?
    ensures var after := ProjectAccepted(c, base, from, f, t).value;
            var offer := FindOffer(c.owner, after, f.id, Some(false));
            && Extends(after, base) && offer == FindOffer(c.owner, base, f.id, Some(false))
            && offer.Some? && HasFact(after, RelationshipEstablished(Establishes(c, from, f, offer.value)))
  {
    hide StarterKindOf;
    var after := ProjectAccepted(c, base, from, f, t).value;
    var est := RelationshipEstablished(Establishes(c, from, f, FindOffer(c.owner, base, f.id, Some(false)).value));
    assert Extends(after, base);
    OfferStays(c.owner, base, after, f.id, Some(false));
    if after != base {
      SameKindOf(c.owner, base, after[|base|]);
      assert after == base + [after[|base|]];
      assert after[|base|] in after;
    }
  }

  /** Only a creation by the owner changes what kind a starter has. */
  lemma SameKindOf(owner: Key, events: seq<Event>, e: Event)
    requires !e.fact.StarterCreated?
    ensures forall id :: StarterKindOf(owner, events + [e], id) == StarterKindOf(owner, events, id)
  {
    assert (events + [e])[..|events|] == events;
  }
}
