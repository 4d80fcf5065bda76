/** The canonical invitation projection: one fold over the ledger that collects
    offers and resolves them by terminals (core/hivra-core/src/invitation.rs). */
module Invitation {
  import opened Common
  import opened Facts

  datatype Status =
    | Pending
    | Accepted(created: StarterId, from: Key, accepterRoot: Option<Key>)
    | Rejected(reason: RejectReason)
    | Expired

  datatype Invitation = Invitation(
    id: InvitationId, starter: StarterId, kindHint: Option<StarterKind>, peer: Key, incoming: bool,
    offerSigner: Key, senderRoot: Option<Key>, senderTransport: Key, cardSignature: Option<nat>,
    recipient: Key, sentAt: u64, respondedAt: Option<u64>, respondedSigner: Option<Key>,
    hasLocalTerminal: bool, status: Status)

  predicate IsOffer(f: Fact) { f.InvitationSent? || f.InvitationReceived? }

  function NewInvitation(e: Event): Invitation
    requires IsOffer(e.fact)
  {
    var o := e.fact.offer;
    var incoming := e.fact.InvitationReceived?;
    var transport := if o.senderTransport.Some? then o.senderTransport.value else e.signer;
    Invitation(o.id, o.starter, o.KindHint(), if incoming then transport else o.to, incoming,
               e.signer, o.senderRoot, transport, o.cardSignature, o.to, e.timestamp,
               None, None, false, Pending)
  }

  /** The id a well-formed terminal names and the status it brings. */
  function TerminalOf(f: Fact): Option<(InvitationId, Status)> {
    match f
    case InvitationAccepted(id, from, created, accepterRoot) => Some((id, Accepted(created, from, accepterRoot)))
    case InvitationRejected(id, reason) => Some((id, Rejected(reason)))
    case InvitationExpired(id) => Some((id, Expired))
    case _ => None
  }

  predicate ValidExpirySigner(owner: Key, r: Invitation, signer: Key) {
    if r.incoming then signer == r.offerSigner else signer == owner
  }

  /** A terminal event that names `r` and may resolve it. */
  predicate Effective(owner: Key, r: Invitation, e: Event) {
    var t := TerminalOf(e.fact);
    t.Some? && t.value.0 == r.id && (t.value.1 == Expired ==> ValidExpirySigner(owner, r, e.signer))
  }

  predicate IsLocalTerminal(owner: Key, r: Invitation, terminal: Status, signer: Key) {
    signer == owner && (if r.incoming then terminal.Accepted? || terminal.Rejected? else terminal == Expired)
  }

  function Resolve(r: Invitation, terminal: Status, e: Event): Invitation {
    r.(status := terminal, respondedAt := Some(e.timestamp), respondedSigner := Some(e.signer))
  }

  /** What one event does to one record. */
  function Answer(owner: Key, r: Invitation, e: Event): Invitation {
    if !Effective(owner, r, e) then r
    else
      var terminal := TerminalOf(e.fact).value.1;
      var s := if IsLocalTerminal(owner, r, terminal, e.signer) then r.(hasLocalTerminal := true) else r;
      if r.status == Pending then Resolve(s, terminal, e)
      else if r.incoming && r.status.Accepted? && terminal == Expired then Resolve(s, Expired, e)
      else s
  }

  function HasId(id: InvitationId): Invitation -> bool { (r: Invitation) => r.id == id }
  function IdOf(r: Invitation): InvitationId { r.id }

  /** One iteration of the fold. */
  function Record(owner: Key, rs: seq<Invitation>, e: Event): seq<Invitation> {
    if IsOffer(e.fact) then
      if exists r | r in rs :: r.id == e.fact.offer.id then rs else rs + [NewInvitation(e)]
    else
      match TerminalOf(e.fact)
      case None => rs
      case Some(t) =>
        match Position(rs, HasId(t.0))
        case None => rs
        case Some(k) => rs[k := Answer(owner, rs[k], e)]
  }

  function Invitations(owner: Key, events: seq<Event>): seq<Invitation> {
    if |events| == 0 then []
    else Record(owner, Invitations(owner, events[..|events|-1]), events[|events|-1])
  }

  lemma InvitationsSnoc(owner: Key, events: seq<Event>, e: Event)
    ensures Invitations(owner, events + [e]) == Record(owner, Invitations(owner, events), e)
  {
    assert (events + [e])[..|events|] == events;
  }

  function FindInvitation(rs: seq<Invitation>, id: InvitationId): Option<Invitation> {
    var k := Position(rs, HasId(id));
    if k.Some? then Some(rs[k.value]) else None
  }

  /** `invitations_with_status`: records are pushed and rewritten in place. */
  method InvitationsWithStatus(owner: Key, events: seq<Event>) returns (rs: seq<Invitation>)
    ensures rs == Invitations(owner, events)
  {
    rs := [];
    var n := 0;
    while n < |events|
      invariant 0 <= n <= |events|
      invariant rs == Invitations(owner, events[..n])
    {
      var e := events[n];
      assert events[..n+1] == events[..n] + [e];
      InvitationsSnoc(owner, events[..n], e);
      if IsOffer(e.fact) {
        if !exists r | r in rs :: r.id == e.fact.offer.id { rs := rs + [NewInvitation(e)]; }
      } else {
        var terminal := TerminalOf(e.fact);
        if terminal.Some? {
          var k := Position(rs, HasId(terminal.value.0));
          if k.Some? {
            var r := rs[k.value];
            var status := terminal.value.1;
            if status != Expired || ValidExpirySigner(owner, r, e.signer) {
              if IsLocalTerminal(owner, r, status, e.signer) { r := r.(hasLocalTerminal := true); }
              if r.status == Pending {
                r := Resolve(r, status, e);
              } else if r.incoming && r.status.Accepted? && status == Expired {
                r := Resolve(r, Expired, e);
              }
            }
            rs := rs[k.value := r];
          }
        }
      }
      n := n + 1;
    }
    assert events[..n] == events;
  }

  // ----- one invitation on its own -----

  /** The life of the invitation first offered at index `i`, up to index `n`:
      only the events after its own offer matter. */
  function Life(owner: Key, events: seq<Event>, i: nat, n: nat): Invitation
    requires i < n <= |events| && IsOffer(events[i].fact)
    decreases n
  {
    if n == i + 1 then NewInvitation(events[i])
    else Answer(owner, Life(owner, events, i, n - 1), events[n-1])
  }

  predicate OffersId(e: Event, id: InvitationId) { IsOffer(e.fact) && e.fact.offer.id == id }

  /** `i` is the first offer of `id` among the first `n` events. */
  predicate FirstOffer(events: seq<Event>, n: nat, id: InvitationId, i: nat)
    requires n <= |events|
  {
    i < n && OffersId(events[i], id) && !Offered(events[..i], id)
  }

  predicate Offered(events: seq<Event>, id: InvitationId) {
    exists j | 0 <= j < |events| :: OffersId(events[j], id)
  }

  lemma AnswerKeepsIdentity(owner: Key, r: Invitation, e: Event)
    ensures var a := Answer(owner, r, e);
            a == r.(status := a.status, respondedAt := a.respondedAt, respondedSigner := a.respondedSigner,
                    hasLocalTerminal := a.hasLocalTerminal)
  {
  }

  lemma {:induction false} LifeKeepsIdentity(owner: Key, events: seq<Event>, i: nat, n: nat)
    requires i < n <= |events| && IsOffer(events[i].fact)
    ensures var a, r := Life(owner, events, i, n), NewInvitation(events[i]);
            a == r.(status := a.status, respondedAt := a.respondedAt, respondedSigner := a.respondedSigner,
                    hasLocalTerminal := a.hasLocalTerminal)
    decreases n
  {
    if n > i + 1 {
      LifeKeepsIdentity(owner, events, i, n - 1);
      AnswerKeepsIdentity(owner, Life(owner, events, i, n - 1), events[n-1]);
    }
  }

  lemma {:induction false} LifeOfPrefix(owner: Key, a: seq<Event>, b: seq<Event>, i: nat, n: nat)
    requires i < n <= |a| <= |b| && b[..|a|] == a && IsOffer(a[i].fact)
    ensures b[i] == a[i] && Life(owner, b, i, n) == Life(owner, a, i, n)
    decreases n
  {
    assert b[i] == b[..|a|][i];
    assert b[n-1] == b[..|a|][n-1];
    if n > i + 1 { LifeOfPrefix(owner, a, b, i, n - 1); }
  }

  /** With distinct ids, one event acts on every record separately, and appends
      at most the record of a new id. */
  lemma RecordPointwise(owner: Key, rs: seq<Invitation>, e: Event)
    requires UniqueBy(rs, IdOf)
    ensures var rs' := Record(owner, rs, e);
            && UniqueBy(rs', IdOf)
            && (forall k | 0 <= k < |rs| :: k < |rs'| && rs'[k] == Answer(owner, rs[k], e))
            && (if IsOffer(e.fact) && !(exists r | r in rs :: r.id == e.fact.offer.id)
                then |rs'| == |rs| + 1 && rs'[|rs|] == NewInvitation(e)
                else |rs'| == |rs|)
  {
    var rs' := Record(owner, rs, e);
    if IsOffer(e.fact) {
      if !(exists r | r in rs :: r.id == e.fact.offer.id) { UniqueAppend(rs, NewInvitation(e), IdOf); }
    } else if TerminalOf(e.fact).Some? {
      var id := TerminalOf(e.fact).value.0;
      var k := Position(rs, HasId(id));
      if k.Some? {
        forall j | 0 <= j < |rs| && j != k.value ensures rs'[j] == Answer(owner, rs[j], e) {
          assert IdOf(rs[j]) != IdOf(rs[k.value]);
        }
        forall i, j | 0 <= i < j < |rs'| ensures IdOf(rs'[i]) != IdOf(rs'[j]) {
          assert IdOf(rs[i]) != IdOf(rs[j]);
        }
      } else {
        forall j | 0 <= j < |rs| ensures rs'[j] == Answer(owner, rs[j], e) {
          assert !HasId(id)(rs[j]);
        }
      }
    }
  }

  lemma {:induction false} IdsUnique(owner: Key, events: seq<Event>)
    ensures UniqueBy(Invitations(owner, events), IdOf)
  {
    if |events| > 0 {
      IdsUnique(owner, events[..|events|-1]);
      RecordPointwise(owner, Invitations(owner, events[..|events|-1]), events[|events|-1]);
    }
  }

  ghost function OfferIndices(events: seq<Event>): (at: seq<nat>)
    ensures forall k | 0 <= k < |at| :: at[k] < |events| && IsOffer(events[at[k]].fact)
    ensures forall j, k | 0 <= j < k < |at| :: at[j] < at[k]
  {
    if |events| == 0 then []
    else
      var n := |events| - 1;
      var prev := OfferIndices(events[..n]);
      assert forall k | 0 <= k < |prev| :: events[prev[k]] == events[..n][prev[k]];
      if IsOffer(events[n].fact) && !Offered(events[..n], events[n].fact.offer.id) then prev + [n] else prev
  }

  ghost predicate AllFirst(events: seq<Event>, at: seq<nat>) {
    forall k | 0 <= k < |at| ::
      && at[k] < |events| && IsOffer(events[at[k]].fact)
      && !Offered(events[..at[k]], events[at[k]].fact.offer.id)
  }

  lemma OfferedPrefix(events: seq<Event>, id: InvitationId)
    requires |events| > 0
    ensures Offered(events, id) <==> Offered(events[..|events|-1], id) || OffersId(events[|events|-1], id)
  {
    var n := |events| - 1;
    assert forall j | 0 <= j < n :: events[..n][j] == events[j];
  }

  /** Every offered id has an index in the list. */
  lemma {:induction false} OfferIndexOf(events: seq<Event>, id: InvitationId) returns (k: nat)
    requires Offered(events, id)
    ensures k < |OfferIndices(events)| && OffersId(events[OfferIndices(events)[k]], id)
  {
    hide Offered;
    var n := |events| - 1;
    OfferedNonempty(events, id);
    OfferedPrefix(events, id);
    if Offered(events[..n], id) {
      k := OfferIndexOf(events[..n], id);
    } else {
      k := |OfferIndices(events[..n])|;
    }
  }

  lemma OfferedNonempty(events: seq<Event>, id: InvitationId)
    requires Offered(events, id)
    ensures |events| > 0
  {
  }

  /** The index list holds only first offers. */
  lemma {:induction false} OfferIndicesFirst(events: seq<Event>)
    ensures AllFirst(events, OfferIndices(events))
  {
    if |events| > 0 {
      var n := |events| - 1;
      var prev := OfferIndices(events[..n]);
      OfferIndicesFirst(events[..n]);
      forall k | 0 <= k < |prev| ensures events[..n][..prev[k]] == events[..prev[k]] {}
    }
  }

  lemma {:induction false} Lives(owner: Key, events: seq<Event>)
    ensures var rs, at := Invitations(owner, events), OfferIndices(events);
            && |rs| == |at|
            && (forall k | 0 <= k < |at| :: rs[k] == Life(owner, events, at[k], |events|))
  {
    if |events| > 0 {
      var n := |events| - 1;
      var prev := events[..n];
      Lives(owner, prev);
      IdsUnique(owner, prev);
      var rs, at := Invitations(owner, prev), OfferIndices(prev);
      RecordPointwise(owner, rs, events[n]);
      forall k | 0 <= k < |at| ensures Life(owner, events, at[k], |events|) == Answer(owner, rs[k], events[n]) {
        LifeOfPrefix(owner, prev, events, at[k], n);
      }
      if IsOffer(events[n].fact) {
        OfferedIsRecorded(owner, prev, events[n].fact.offer.id);
      }
    }
  }

  lemma OfferedIsRecorded(owner: Key, events: seq<Event>, id: InvitationId)
    requires var rs, at := Invitations(owner, events), OfferIndices(events);
             && |rs| == |at|
             && (forall k | 0 <= k < |at| :: rs[k] == Life(owner, events, at[k], |events|))
    ensures Offered(events, id) <==> exists r | r in Invitations(owner, events) :: r.id == id
  {
    var rs, at := Invitations(owner, events), OfferIndices(events);
    forall k | 0 <= k < |at| ensures rs[k].id == events[at[k]].fact.offer.id {
      LifeKeepsIdentity(owner, events, at[k], |events|);
    }
    if Offered(events, id) {
      var k := OfferIndexOf(events, id);
      assert rs[k] in rs;
    }
    if exists r | r in rs :: r.id == id {
      var r :| r in rs && r.id == id;
      var k :| 0 <= k < |rs| && rs[k] == r;
      assert OffersId(events[at[k]], id);
    }
  }

  lemma FirstOfferUnique(events: seq<Event>, id: InvitationId, i: nat, j: nat)
    requires FirstOffer(events, |events|, id, i) && FirstOffer(events, |events|, id, j)
    ensures i == j
  {
  }

  /** The list-shaped fold is a fold per invitation: each offered id has exactly
      one record, and it is the life of its first offer. In particular a terminal
      before the offer is orphan history, and later offers of the id are ignored. */
  lemma InvitationIsItsLife(owner: Key, events: seq<Event>, id: InvitationId)
    ensures FindInvitation(Invitations(owner, events), id).Some? <==> Offered(events, id)
    ensures forall i: nat | FirstOffer(events, |events|, id, i) ::
              FindInvitation(Invitations(owner, events), id) == Some(Life(owner, events, i, |events|))
  {
    var rs, at := Invitations(owner, events), OfferIndices(events);
    Lives(owner, events);
    OfferedIsRecorded(owner, events, id);
    OfferIndicesFirst(events);
    IdsUnique(owner, events);
    var f := Position(rs, HasId(id));
    if f.None? {
      forall r | r in rs ensures r.id != id {
        var k :| 0 <= k < |rs| && rs[k] == r;
        assert !HasId(id)(rs[k]);
      }
    }
    forall i: nat | FirstOffer(events, |events|, id, i)
      ensures FindInvitation(rs, id) == Some(Life(owner, events, i, |events|))
    {
      assert Offered(events, id);
      var k := OfferIndexOf(events, id);
      assert FirstOffer(events, |events|, id, at[k]);
      FirstOfferUnique(events, id, at[k], i);
      LifeKeepsIdentity(owner, events, i, |events|);
      assert HasId(id)(rs[k]);
      UniqueMember(rs, rs[k], rs[f.value], IdOf);
    }
  }

  // ----- the lifecycle under every extension of the ledger -----

  /** Everything but the answer. */
  predicate SameOffer(r: Invitation, s: Invitation) {
    s == r.(status := s.status, respondedAt := s.respondedAt, respondedSigner := s.respondedSigner,
            hasLocalTerminal := s.hasLocalTerminal)
  }

  predicate Revokes(r: Invitation, e: Event) { e.fact == InvitationExpired(r.id) && e.signer == r.offerSigner }

  /** How a record may change while `added` is appended. */
  ghost predicate Evolves(r: Invitation, s: Invitation, added: seq<Event>) {
    && SameOffer(r, s)
    && (r.hasLocalTerminal ==> s.hasLocalTerminal)
    && (r.status != Pending ==>
          || (s.status == r.status && s.respondedAt == r.respondedAt && s.respondedSigner == r.respondedSigner)
          || (&& r.incoming && r.status.Accepted? && s.status == Expired
              && exists e | e in added :: Revokes(r, e)))
  }

  lemma AnswerEvolves(owner: Key, r: Invitation, e: Event)
    ensures Evolves(r, Answer(owner, r, e), [e])
  {
    AnswerKeepsIdentity(owner, r, e);
    assert e in [e];
    assert r.incoming && Effective(owner, r, e) && TerminalOf(e.fact).value.1 == Expired ==> Revokes(r, e);
  }

  lemma EvolvesTransitive(r: Invitation, s: Invitation, t: Invitation, a: seq<Event>, b: seq<Event>)
    requires Evolves(r, s, a) && Evolves(s, t, b)
    ensures Evolves(r, t, a + b)
  {
    if r.status != Pending && t.status != r.status {
      if s.status == r.status {
        var e :| e in b && Revokes(s, e);
        assert e in a + b && Revokes(r, e);
      } else {
        var e :| e in a && Revokes(r, e);
        assert e in a + b;
      }
    }
  }

  /** Under every extension of the ledger no record is dropped, reordered or
      re-addressed; an answer, once given, stays, except that the signer of an
      incoming offer may still turn an acceptance into an expiry. */
  lemma {:induction false} Lifecycle(owner: Key, events: seq<Event>, added: seq<Event>)
    ensures var rs, rs' := Invitations(owner, events), Invitations(owner, events + added);
            |rs| <= |rs'| && forall k | 0 <= k < |rs| :: Evolves(rs[k], rs'[k], added)
    decreases |added|
  {
    if |added| == 0 {
      assert events + added == events;
    } else {
      var m := |added| - 1;
      var e := added[m];
      Lifecycle(owner, events, added[..m]);
      assert events + added == (events + added[..m]) + [e];
      assert added == added[..m] + [e];
      InvitationsSnoc(owner, events + added[..m], e);
      IdsUnique(owner, events + added[..m]);
      var rs, mid := Invitations(owner, events), Invitations(owner, events + added[..m]);
      RecordPointwise(owner, mid, e);
      forall k | 0 <= k < |rs| ensures Evolves(rs[k], Answer(owner, mid[k], e), added) {
        AnswerEvolves(owner, mid[k], e);
        EvolvesTransitive(rs[k], mid[k], Answer(owner, mid[k], e), added[..m], [e]);
      }
    }
  }

  // ----- revocation by the sender -----

  /** Index of the first event after `i` that may resolve the offer at `i`. */
  predicate FirstEffective(owner: Key, events: seq<Event>, i: nat, n: nat, k: nat)
    requires i < n <= |events| && IsOffer(events[i].fact)
  {
    && i < k < n && Effective(owner, NewInvitation(events[i]), events[k])
    && forall j | i < j < k :: !Effective(owner, NewInvitation(events[i]), events[j])
  }

  lemma EffectiveSame(owner: Key, r: Invitation, s: Invitation, e: Event)
    requires SameOffer(r, s)
    ensures Effective(owner, r, e) == Effective(owner, s, e)
  {
  }

  lemma FreshIsPending(e: Event)
    requires IsOffer(e.fact)
    ensures NewInvitation(e).status == Pending
  {
  }

  /** The first effective terminal decides, save that a later revocation replaces
      an acceptance of an incoming offer. */
  lemma {:induction false} LifeStatus(owner: Key, events: seq<Event>, i: nat, n: nat)
    requires i < n <= |events| && IsOffer(events[i].fact)
    ensures var s := Life(owner, events, i, n).status;
            var r := NewInvitation(events[i]);
            && (s == Pending <==> forall k | i < k < n :: !Effective(owner, r, events[k]))
            && (forall k: nat | FirstEffective(owner, events, i, n, k) ::
                  var first := TerminalOf(events[k].fact).value.1;
                  if first.Accepted? && r.incoming && exists j | k < j < n :: Revokes(r, events[j])
                  then s == Expired else s == first)
    decreases n
  {
    hide NewInvitation, IsLocalTerminal;
    FreshIsPending(events[i]);
    if n > i + 1 {
      LifeStatus(owner, events, i, n - 1);
      LifeKeepsIdentity(owner, events, i, n - 1);
      var before := Life(owner, events, i, n - 1);
      var r := NewInvitation(events[i]);
      EffectiveSame(owner, r, before, events[n-1]);
      forall k: nat | FirstEffective(owner, events, i, n, k)
        ensures var first := TerminalOf(events[k].fact).value.1;
                if first.Accepted? && r.incoming && exists j | k < j < n :: Revokes(r, events[j])
                then Life(owner, events, i, n).status == Expired
                else Life(owner, events, i, n).status == first
      {
        if k < n - 1 {
          assert FirstEffective(owner, events, i, n - 1, k);
          assert r.incoming && Revokes(r, events[n-1]) ==> Effective(owner, before, events[n-1]);
        }
      }
    }
  }

  /** Once the signer of a canonical incoming offer has signed its expiry, the
      invitation is expired, or rejected if a rejection came first. */
  lemma RevokedStatus(owner: Key, events: seq<Event>, id: InvitationId, i: nat, j: nat)
    requires FirstOffer(events, |events|, id, i) && events[i].fact.InvitationReceived?
    requires i < j < |events| && events[j] == Event(InvitationExpired(id), events[j].timestamp, events[i].signer)
    ensures var r := FindInvitation(Invitations(owner, events), id);
            && r.Some? && (r.value.status == Expired || r.value.status.Rejected?)
            && (r.value.status.Rejected? <==>
                 exists k | i < k < j :: FirstEffective(owner, events, i, |events|, k) && events[k].fact.InvitationRejected?)
  {
    InvitationIsItsLife(owner, events, id);
    LifeStatus(owner, events, i, |events|);
    var r := NewInvitation(events[i]);
    assert Revokes(r, events[j]) && Effective(owner, r, events[j]);
    var k := FirstEffectiveIndex(owner, events, i, j);
  }

  lemma {:induction false} FirstEffectiveIndex(owner: Key, events: seq<Event>, i: nat, j: nat) returns (k: nat)
    requires i < j < |events| && IsOffer(events[i].fact) && Effective(owner, NewInvitation(events[i]), events[j])
    ensures k <= j && FirstEffective(owner, events, i, |events|, k)
  {
    if exists m | i < m < j :: Effective(owner, NewInvitation(events[i]), events[m]) {
      var m :| i < m < j && Effective(owner, NewInvitation(events[i]), events[m]);
      k := FirstEffectiveIndex(owner, events, i, m);
    } else {
      k := j;
    }
  }
}
