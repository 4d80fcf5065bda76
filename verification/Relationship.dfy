/** The relationship projection: establishments and breaks folded into one record
    per peer transport and own starter (core/hivra-core/src/relationship.rs). */
module Relationship {
  import opened Common
  import opened Facts
  import opened Invitation

  datatype Projected = Projected(
    peer: Key, peerRoot: Option<Key>, own: StarterId, peerStarter: StarterId, kind: StarterKind,
    establishedAt: u64, active: bool, pendingRemoteBreak: bool)

  datatype EstablishedFact = EstablishedFact(
    peer: Key, sender: Option<Key>, invitation: Option<InvitationId>, peerRoot: Option<Key>,
    senderRoot: Option<Key>, own: StarterId, peerStarter: StarterId, kind: StarterKind)

  function ParseEstablished(f: Fact): Option<EstablishedFact> {
    match f
    case RelationshipEstablishedLegacy(peer, own, peerStarter, kind) =>
      Some(EstablishedFact(peer, None, None, None, None, own, peerStarter, kind))
    case RelationshipEstablished(p) =>
      Some(EstablishedFact(p.peer, Some(p.sender), Some(p.invitation), p.peerRoot, p.senderRoot,
                           p.own, p.peerStarter, p.kind))
    case _ => None
  }

  function ResolvePeerRoot(peerRoot: Option<Key>, senderRoot: Option<Key>, owner: Key): Option<Key> {
    if peerRoot.None? then senderRoot
    else if senderRoot.Some? && peerRoot.value == owner && senderRoot.value != owner then senderRoot
    else peerRoot
  }

  /** The establishment as this capsule sees it: a fact written by the other side,
      which names us as its peer, is turned around. */
  function Orient(f: EstablishedFact, owner: Key, at: u64): Projected {
    var root := ResolvePeerRoot(f.peerRoot, f.senderRoot, owner);
    if f.peerRoot == Some(owner) && f.senderRoot.Some? && f.senderRoot.value != owner && f.sender.Some? then
      Projected(f.sender.value, root, f.peerStarter, f.own, f.kind, at, true, false)
    else
      Projected(f.peer, root, f.own, f.peerStarter, f.kind, at, true, false)
  }

  function InvitationFor(records: seq<Invitation>, f: EstablishedFact): Option<Invitation> {
    if f.invitation.Some? then FindInvitation(records, f.invitation.value) else None
  }

  predicate Refused(inv: Option<Invitation>) {
    inv.Some? && (inv.value.status.Rejected? || inv.value.status == Expired)
  }

  /** The root an invitation can contribute when the establishment has none. */
  function LineageRoot(inv: Option<Invitation>, owner: Key, local: Option<Key>): Option<Key> {
    if inv.None? then None
    else if inv.value.incoming then inv.value.senderRoot
    else
      match inv.value.status
      case Accepted(_, from, accepterRoot) =>
        if local == Some(from) && inv.value.respondedSigner != Some(owner) then accepterRoot else None
      case _ => None
  }

  /** What an event establishes for this capsule, if anything. `records` are the
      invitations of the whole ledger, so a later refusal undoes an establishment. */
  function Establishes(records: seq<Invitation>, owner: Key, local: Option<Key>, e: Event): Option<Projected> {
    match ParseEstablished(e.fact)
    case None => None
    case Some(f) =>
      var inv := InvitationFor(records, f);
      if Refused(inv) then None
      else
        var r := Orient(f, owner, e.timestamp);
        var r' := if r.peerRoot.None? then r.(peerRoot := LineageRoot(inv, owner, local)) else r;
        if r'.peerRoot == Some(owner) || local == Some(r'.peer) then None else Some(r')
  }

  function KeyOf(r: Projected): (Key, StarterId) { (r.peer, r.own) }
  function HasKey(key: (Key, StarterId)): Projected -> bool { (r: Projected) => (r.peer, r.own) == key }

  function Upsert(ps: seq<Projected>, r: Projected): seq<Projected> {
    match Position(ps, HasKey(KeyOf(r)))
    case Some(k) => ps[k := r]
    case None => ps + [r]
  }

  predicate LocalSigner(owner: Key, local: Option<Key>, signer: Key) { signer == owner || local == Some(signer) }

  predicate PeerSigner(r: Projected, brokenRoot: Option<Key>, signer: Key) {
    signer == r.peer || (brokenRoot == Some(signer) && r.peerRoot == Some(signer))
  }

  /** What a break does to the record it names. */
  function Broken(r: Projected, owner: Key, local: Option<Key>, brokenRoot: Option<Key>, e: Event): Projected {
    if e.timestamp < r.establishedAt then r
    else
      var isLocal := LocalSigner(owner, local, e.signer);
      var isPeer := PeerSigner(r, brokenRoot, e.signer);
      if !isLocal && !isPeer then r
      else
        var remote := !isLocal && isPeer;
        if remote && !r.active && !r.pendingRemoteBreak then r
        else r.(active := remote, pendingRemoteBreak := remote)
  }

  /** One iteration of the fold. */
  function ProjectEvent(records: seq<Invitation>, owner: Key, local: Option<Key>, ps: seq<Projected>, e: Event): seq<Projected> {
    match e.fact
    case RelationshipBroken(peer, own, root) => (
      match Position(ps, HasKey((peer, own)))
      case Some(k) => ps[k := Broken(ps[k], owner, local, root, e)]
      case None => ps)
    case _ =>
      match Establishes(records, owner, local, e)
      case Some(r) => Upsert(ps, r)
      case None => ps
  }

  function Project(records: seq<Invitation>, owner: Key, local: Option<Key>, events: seq<Event>): seq<Projected> {
    if |events| == 0 then []
    else ProjectEvent(records, owner, local, Project(records, owner, local, events[..|events|-1]), events[|events|-1])
  }

  // ----- the view -----

  datatype ItemStatus = ActiveItem | PendingRemoteBreakItem | BrokenItem

  datatype Item = Item(
    peer: Key, peerRoot: Option<Key>, identity: Key, own: StarterId, peerStarter: StarterId,
    kind: StarterKind, establishedAt: u64, status: ItemStatus)

  datatype View = View(activePeers: seq<Key>, items: seq<Item>)

  predicate LaterFirst(a: Projected, b: Projected) { b.establishedAt <= a.establishedAt }

  function RootedAt(peer: Key): Projected -> bool { (r: Projected) => r.peer == peer && r.peerRoot.Some? }

  /** The peer's root if any record with its transport knows one. */
  function Identity(ps: seq<Projected>, r: Projected): Key {
    if r.peerRoot.Some? then r.peerRoot.value
    else
      match Position(ps, RootedAt(r.peer))
      case Some(k) => ps[k].peerRoot.value
      case None => r.peer
  }

  function StatusOf(r: Projected): ItemStatus {
    if r.pendingRemoteBreak then PendingRemoteBreakItem else if r.active then ActiveItem else BrokenItem
  }

  function ItemOf(ps: seq<Projected>, r: Projected): Item {
    Item(r.peer, r.peerRoot, Identity(ps, r), r.own, r.peerStarter, r.kind, r.establishedAt, StatusOf(r))
  }

  function ActivePeers(ps: seq<Projected>, n: nat): seq<Key>
    requires n <= |ps|
  {
    if n == 0 then []
    else
      var before := ActivePeers(ps, n - 1);
      var id := Identity(ps, ps[n-1]);
      if ps[n-1].active && id !in before then before + [id] else before
  }

  function ViewOf(ps: seq<Projected>): View {
    View(ActivePeers(ps, |ps|), seq(|ps|, i requires 0 <= i < |ps| => ItemOf(ps, ps[i])))
  }

  function SortedProjection(owner: Key, local: Option<Key>, events: seq<Event>): seq<Projected> {
    Sort(Project(Invitations(owner, events), owner, local, events), LaterFirst)
  }

  /** `relationship_current_view_v1`. */
  function CurrentView(owner: Key, local: Option<Key>, events: seq<Event>): View {
    ViewOf(SortedProjection(owner, local, events))
  }

  method ProjectRelationships(records: seq<Invitation>, owner: Key, local: Option<Key>, events: seq<Event>)
    returns (projected: seq<Projected>)
    ensures projected == Project(records, owner, local, events)
  {
    hide Establishes, Broken;
    projected := [];
    var n := 0;
    while n < |events|
      invariant 0 <= n <= |events|
      invariant projected == Project(records, owner, local, events[..n])
    {
      var e := events[n];
      assert events[..n+1][..n] == events[..n];
      if e.fact.RelationshipBroken? {
        var k := Position(projected, HasKey((e.fact.peer, e.fact.own)));
        if k.Some? {
          projected := projected[k.value := Broken(projected[k.value], owner, local, e.fact.peerRoot, e)];
        }
      } else {
        var established := Establishes(records, owner, local, e);
        if established.Some? {
          var k := Position(projected, HasKey(KeyOf(established.value)));
          if k.Some? {
            projected := projected[k.value := established.value];
          } else {
            projected := projected + [established.value];
          }
        }
      }
      n := n + 1;
    }
    assert events[..n] == events;
  }

  method RelationshipCurrentView(owner: Key, local: Option<Key>, events: seq<Event>) returns (view: View)
    ensures view == CurrentView(owner, local, events)
  {
    hide Project, Invitations, Identity;
    var records := InvitationsWithStatus(owner, events);
    var projected := ProjectRelationships(records, owner, local, events);
    projected := Sort(projected, LaterFirst);
    var active: seq<Key> := [];
    var items: seq<Item> := [];
    var n := 0;
    while n < |projected|
      invariant 0 <= n <= |projected|
      invariant active == ActivePeers(projected, n)
      invariant |items| == n && forall i | 0 <= i < n :: items[i] == ItemOf(projected, projected[i])
    {
      var identity := Identity(projected, projected[n]);
      if projected[n].active && identity !in active { active := active + [identity]; }
      items := items + [ItemOf(projected, projected[n])];
      n := n + 1;
    }
    assert items == ViewOf(projected).items;
    view := View(active, items);
  }

  // ----- the state machine of one relationship -----

  lemma UpsertUnique(ps: seq<Projected>, r: Projected)
    requires UniqueBy(ps, KeyOf)
    ensures UniqueBy(Upsert(ps, r), KeyOf)
  {
    var k := Position(ps, HasKey(KeyOf(r)));
    var qs := Upsert(ps, r);
    if k.Some? {
      forall i, j | 0 <= i < j < |qs| ensures KeyOf(qs[i]) != KeyOf(qs[j]) {
        assert KeyOf(ps[i]) != KeyOf(ps[j]);
      }
    } else {
      forall q | q in ps ensures KeyOf(q) != KeyOf(r) {
        var i :| 0 <= i < |ps| && ps[i] == q;
        assert !HasKey(KeyOf(r))(ps[i]);
      }
      UniqueAppend(ps, r, KeyOf);
    }
  }

  ghost predicate WellKept(ps: seq<Projected>) {
    UniqueBy(ps, KeyOf) && forall r | r in ps :: r.pendingRemoteBreak ==> r.active
  }

  lemma EventWellKept(records: seq<Invitation>, owner: Key, local: Option<Key>, ps: seq<Projected>, e: Event)
    requires WellKept(ps)
    ensures WellKept(ProjectEvent(records, owner, local, ps, e))
  {
    var qs := ProjectEvent(records, owner, local, ps, e);
    if e.fact.RelationshipBroken? {
      var k := Position(ps, HasKey((e.fact.peer, e.fact.own)));
      if k.Some? {
        assert ps[k.value] in ps;
        forall i, j | 0 <= i < j < |qs| ensures KeyOf(qs[i]) != KeyOf(qs[j]) {
          assert KeyOf(ps[i]) != KeyOf(ps[j]);
        }
      }
    } else {
      var est := Establishes(records, owner, local, e);
      if est.Some? { UpsertUnique(ps, est.value); }
    }
  }

  /** There is one record per peer transport and own starter, and a relationship
      whose remote break is pending is still active. */
  lemma {:induction false} ProjectWellKept(records: seq<Invitation>, owner: Key, local: Option<Key>, events: seq<Event>)
    ensures WellKept(Project(records, owner, local, events))
  {
    if |events| > 0 {
      ProjectWellKept(records, owner, local, events[..|events|-1]);
      EventWellKept(records, owner, local, Project(records, owner, local, events[..|events|-1]), events[|events|-1]);
    }
  }

  function FindByKey(ps: seq<Projected>, key: (Key, StarterId)): Option<Projected> {
    var k := Position(ps, HasKey(key));
    if k.Some? then Some(ps[k.value]) else None
  }

  /** One event, seen from one relationship. */
  function KeyStep(records: seq<Invitation>, owner: Key, local: Option<Key>, key: (Key, StarterId),
                   r: Option<Projected>, e: Event): Option<Projected> {
    if e.fact.RelationshipBroken? then
      if r.Some? && (e.fact.peer, e.fact.own) == key then Some(Broken(r.value, owner, local, e.fact.peerRoot, e)) else r
    else
      var est := Establishes(records, owner, local, e);
      if est.Some? && KeyOf(est.value) == key then est else r
  }

  /** The fold over the list is a fold per relationship. */
  lemma ProjectEventByKey(records: seq<Invitation>, owner: Key, local: Option<Key>, ps: seq<Projected>, e: Event,
                          key: (Key, StarterId))
    requires WellKept(ps)
    ensures FindByKey(ProjectEvent(records, owner, local, ps, e), key)
         == KeyStep(records, owner, local, key, FindByKey(ps, key), e)
  {
    if e.fact.RelationshipBroken? {
      var k := Position(ps, HasKey((e.fact.peer, e.fact.own)));
      if k.Some? {
        ReplaceByKey(ps, k.value, Broken(ps[k.value], owner, local, e.fact.peerRoot, e), key);
      }
    } else {
      var est := Establishes(records, owner, local, e);
      if est.Some? {
        var k := Position(ps, HasKey(KeyOf(est.value)));
        if k.Some? { ReplaceByKey(ps, k.value, est.value, key); } else { AppendByKey(ps, est.value, key); }
      }
    }
  }

  lemma ReplaceByKey(ps: seq<Projected>, k: nat, r: Projected, key: (Key, StarterId))
    requires UniqueBy(ps, KeyOf) && k < |ps| && KeyOf(r) == KeyOf(ps[k])
    ensures FindByKey(ps[k := r], key) == if key == KeyOf(r) then Some(r) else FindByKey(ps, key)
  {
    var qs := ps[k := r];
    assert forall i | 0 <= i < |ps| :: HasKey(key)(qs[i]) == HasKey(key)(ps[i]);
    var p, q := Position(ps, HasKey(key)), Position(qs, HasKey(key));
    if key == KeyOf(r) {
      assert HasKey(key)(qs[k]);
      assert forall i | 0 <= i < k :: KeyOf(ps[i]) != KeyOf(ps[k]);
      assert q == Some(k);
    } else {
      assert !HasKey(key)(qs[k]);
      assert p == q;
    }
  }

  lemma AppendByKey(ps: seq<Projected>, r: Projected, key: (Key, StarterId))
    requires Position(ps, HasKey(KeyOf(r))).None?
    ensures FindByKey(ps + [r], key) == if key == KeyOf(r) then Some(r) else FindByKey(ps, key)
  {
    var qs := ps + [r];
    assert forall i | 0 <= i < |ps| :: HasKey(key)(qs[i]) == HasKey(key)(ps[i]);
    assert HasKey(key)(qs[|ps|]) <==> key == KeyOf(r);
    var p, q := Position(ps, HasKey(key)), Position(qs, HasKey(key));
    if p.Some? { assert q == p; }
  }

  predicate Reestablishes(records: seq<Invitation>, owner: Key, local: Option<Key>, key: (Key, StarterId), e: Event) {
    var est := Establishes(records, owner, local, e);
    est.Some? && KeyOf(est.value) == key
  }

  /** A break signed by a stranger changes nothing, a break signed by the peer
      leaves an active relationship active, and a break signed locally, not older
      than the establishment, ends it. */
  lemma BreakRules(records: seq<Invitation>, owner: Key, local: Option<Key>, events: seq<Event>, e: Event)
    requires e.fact.RelationshipBroken?
    ensures var before, key := Project(records, owner, local, events), (e.fact.peer, e.fact.own);
            var r := FindByKey(before, key);
            var r' := FindByKey(Project(records, owner, local, events + [e]), key);
            && (r.None? <==> r'.None?)
            && (r.Some? ==>
                 var isLocal := LocalSigner(owner, local, e.signer);
                 var isPeer := PeerSigner(r.value, e.fact.peerRoot, e.signer);
                 && (!isLocal && !isPeer ==> r' == r)
                 && (!isLocal && r.value.active ==> r'.value.active)
                 && (isLocal && r.value.establishedAt <= e.timestamp ==>
                      !r'.value.active && !r'.value.pendingRemoteBreak))
            && (forall other | other != key ::
                  FindByKey(Project(records, owner, local, events + [e]), other) == FindByKey(before, other))
  {
    hide Project, FindByKey;
    ProjectSnoc(records, owner, local, events, e);
    ProjectWellKept(records, owner, local, events);
    forall key {
      ProjectEventByKey(records, owner, local, Project(records, owner, local, events), e, key);
    }
  }

  lemma ProjectSnoc(records: seq<Invitation>, owner: Key, local: Option<Key>, events: seq<Event>, e: Event)
    ensures Project(records, owner, local, events + [e])
         == ProjectEvent(records, owner, local, Project(records, owner, local, events), e)
  {
    assert (events + [e])[..|events|] == events;
  }

  /** While the invitation records are the same, an ended relationship stays ended until
      an establishment for its own key. */
  lemma {:induction false} EndUnderRecords(records: seq<Invitation>, owner: Key, local: Option<Key>,
                                      events: seq<Event>, added: seq<Event>, key: (Key, StarterId))
    requires var r := FindByKey(Project(records, owner, local, events), key);
             r.Some? && !r.value.active && !r.value.pendingRemoteBreak
    requires forall i | 0 <= i < |added| :: !Reestablishes(records, owner, local, key, added[i])
    ensures FindByKey(Project(records, owner, local, events + added), key)
         == FindByKey(Project(records, owner, local, events), key)
    decreases |added|
  {
    hide Project, FindByKey, Establishes;
    if |added| == 0 {
      assert events + added == events;
    } else {
      var m := |added| - 1;
      EndUnderRecords(records, owner, local, events, added[..m], key);
      assert events + added == (events + added[..m]) + [added[m]];
      assert !Reestablishes(records, owner, local, key, added[m]);
      ProjectSnoc(records, owner, local, events + added[..m], added[m]);
      ProjectWellKept(records, owner, local, events + added[..m]);
      ProjectEventByKey(records, owner, local, Project(records, owner, local, events + added[..m]), added[m], key);
    }
  }

  // ----- revocation -----

  predicate NamesInvitation(e: Event, id: InvitationId) {
    e.fact.RelationshipEstablished? && e.fact.fact.invitation == id
  }

  function Without(id: InvitationId): Event -> bool { (e: Event) => !NamesInvitation(e, id) }

  lemma RecordIgnores(owner: Key, rs: seq<Invitation>, e: Event)
    requires e.fact.RelationshipEstablished?
    ensures Record(owner, rs, e) == rs
  {
  }

  lemma {:induction false} InvitationsIgnoreEstablishments(owner: Key, events: seq<Event>, id: InvitationId)
    ensures Invitations(owner, Filter(events, Without(id))) == Invitations(owner, events)
  {
    hide Record;
    if |events| > 0 {
      var n := |events| - 1;
      InvitationsIgnoreEstablishments(owner, events[..n], id);
      if NamesInvitation(events[n], id) { RecordIgnores(owner, Invitations(owner, events[..n]), events[n]); }
      InvitationsSnoc(owner, Filter(events[..n], Without(id)), events[n]);
    }
  }

  lemma {:induction false} RefusedEstablishesNothing(records: seq<Invitation>, owner: Key, local: Option<Key>,
                                                     events: seq<Event>, id: InvitationId)
    requires Refused(FindInvitation(records, id))
    ensures Project(records, owner, local, Filter(events, Without(id))) == Project(records, owner, local, events)
  {
    if |events| > 0 {
      var n := |events| - 1;
      RefusedEstablishesNothing(records, owner, local, events[..n], id);
      ProjectSnoc(records, owner, local, Filter(events[..n], Without(id)), events[n]);
    }
  }

  /** A refused invitation leaves the view as if none of its establishments had
      ever been recorded. */
  lemma RefusedLeavesNoTrace(owner: Key, local: Option<Key>, events: seq<Event>, id: InvitationId)
    requires Refused(FindInvitation(Invitations(owner, events), id))
    ensures CurrentView(owner, local, events) == CurrentView(owner, local, Filter(events, Without(id)))
  {
    InvitationsIgnoreEstablishments(owner, events, id);
    RefusedEstablishesNothing(Invitations(owner, events), owner, local, events, id);
  }
}
