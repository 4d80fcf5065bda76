/** What the relationship view of a ledger says, item by item, from the events and the
    final invitation statuses. */
module RelationshipItems {
  import opened Common
  import opened Facts
  import opened Invitation
  import opened Relationship
  import opened Endings
  import PairCounts

  // ----- which facts count, and how they are read -----

  /** The invitation an establishment names is rejected or expired in the end. */
  predicate NamesRefused(records: seq<Invitation>, id: InvitationId) {
    exists r | r in records :: r.id == id && (r.status.Rejected? || r.status == Expired)
  }

  /** The fact names us as its peer and another capsule as its sender: it is the other
      side's record, and is read from our side. */
  predicate FromOtherSide(owner: Key, f: Establishment) {
    f.peerRoot == Some(owner) && f.senderRoot.Some? && f.senderRoot.value != owner
  }

  /** The root of the peer as the fact itself knows it. */
  function RootIn(owner: Key, f: Establishment): Option<Key> {
    if f.peerRoot.None? || FromOtherSide(owner, f) then f.senderRoot else f.peerRoot
  }

  /** The root the invitation adds: the sender's of a received offer; of an offer of ours
      that our own transport accepted under another signature, the accepter's. */
  predicate RootFromInvitation(records: seq<Invitation>, owner: Key, local: Option<Key>, id: InvitationId, root: Option<Key>) {
    match FindInvitation(records, id)
    case None => root.None?
    case Some(r) =>
      if r.incoming then root == r.senderRoot
      else if r.status.Accepted? && local == Some(r.status.from) && r.respondedSigner != Some(owner)
      then root == r.status.accepterRoot
      else root.None?
  }

  /** An establishment counts unless its invitation was refused in the end, or it turns out
      to be with ourselves; and what it says is read from our side. */
  lemma EstablishesExactly(records: seq<Invitation>, owner: Key, local: Option<Key>, e: Event, root: Option<Key>)
    requires UniqueBy(records, IdOf) && e.fact.RelationshipEstablished?
    requires RootFromInvitation(records, owner, local, e.fact.fact.invitation, root)
    ensures var f := e.fact.fact;
            var turned := FromOtherSide(owner, f);
            var peer := if turned then f.sender else f.peer;
            var known := if RootIn(owner, f).Some? then RootIn(owner, f) else root;
            Establishes(records, owner, local, e)
            == if NamesRefused(records, f.invitation) || known == Some(owner) || local == Some(peer) then None
               else Some(Projected(peer, known, if turned then f.peerStarter else f.own, if turned then f.own else f.peerStarter,
                                   f.kind, e.timestamp, true, false))
  {
    RefusedExactly(records, e.fact.fact.invitation);
  }

  lemma RefusedExactly(records: seq<Invitation>, id: InvitationId)
    requires UniqueBy(records, IdOf)
    ensures Refused(FindInvitation(records, id)) <==> NamesRefused(records, id)
  {
    var k := Position(records, HasId(id));
    if k.Some? { assert HasId(id)(records[k.value]) && records[k.value] in records; }
    if r :| r in records && r.id == id && (r.status.Rejected? || r.status == Expired) {
      var i :| 0 <= i < |records| && records[i] == r;
      assert HasId(id)(records[i]);
      UniqueMember(records, r, records[k.value], IdOf);
    }
  }

  /** The 97-byte form has no invitation and no roots: it counts unless it is with ourselves. */
  lemma LegacyExactly(records: seq<Invitation>, owner: Key, local: Option<Key>, e: Event)
    requires e.fact.RelationshipEstablishedLegacy?
    ensures Establishes(records, owner, local, e)
         == if local == Some(e.fact.peer) then None
            else Some(Projected(e.fact.peer, None, e.fact.own, e.fact.peerStarter, e.fact.legacyKind, e.timestamp, true, false))
  {
  }

  lemma OthersEstablishNothing(records: seq<Invitation>, owner: Key, local: Option<Key>, e: Event)
    requires !e.fact.RelationshipEstablished? && !e.fact.RelationshipEstablishedLegacy?
    ensures Establishes(records, owner, local, e).None?
  {
  }

  // ----- the items -----

  /** The item is the last surviving establishment of its key, broken if a local break not
      dated before it follows, else waiting for us if the peer's does, else active. */
  ghost predicate Tells(owner: Key, local: Option<Key>, events: seq<Event>, i: Item) {
    var records, key := Invitations(owner, events), (i.peer, i.own);
    exists p: nat ::
      && LastEstablished(records, owner, local, key, events, p)
      && var r := Establishes(records, owner, local, events[p]).value;
         && i.peerStarter == r.peerStarter && i.kind == r.kind && i.peerRoot == r.peerRoot
         && i.establishedAt == events[p].timestamp
         && i.status == (if EndedAfter(owner, local, key, events, p) then BrokenItem
                         else if PeerBrokeAfter(owner, local, key, r, events, p) then PendingRemoteBreakItem
                         else ActiveItem)
  }

  /** Its own root; else the root of the first item of the same transport that has one; else
      the transport. */
  predicate Identified(items: seq<Item>, i: Item) {
    || i.peerRoot == Some(i.identity)
    || (i.peerRoot.None? && exists k | 0 <= k < |items| ::
          && items[k].peer == i.peer && items[k].peerRoot == Some(i.identity)
          && forall j | 0 <= j < k :: items[j].peer == i.peer ==> items[j].peerRoot.None?)
    || (i.peerRoot.None? && i.identity == i.peer && forall x | x in items && x.peer == i.peer :: x.peerRoot.None?)
  }

  /** The view lists, latest first, one item for each key with a surviving establishment;
      each item tells what the events say and is filed under the right identity; the active
      peers are the identities of the items that are not broken, each once. */
  lemma ViewExactly(owner: Key, local: Option<Key>, events: seq<Event>)
    ensures var view, records := CurrentView(owner, local, events), Invitations(owner, events);
            && (forall j, k | 0 <= j < k < |view.items| ::
                  && view.items[j].establishedAt >= view.items[k].establishedAt
                  && (view.items[j].peer, view.items[j].own) != (view.items[k].peer, view.items[k].own))
            && (forall i | i in view.items :: Tells(owner, local, events, i) && Identified(view.items, i))
            && (forall key :: Shows(view.items, key) <==> !NeverEstablished(records, owner, local, key, events))
            && NoRepeats(view.activePeers)
            && (forall x :: x in view.activePeers <==> ActiveAs(view.items, x))
  {
    hide Invitations, Project, Tells, Identified, Establishes, NeverEstablished, Identity;
    var records := Invitations(owner, events);
    var ps, sorted := Project(records, owner, local, events), SortedProjection(owner, local, events);
    var items := CurrentView(owner, local, events).items;
    ProjectWellKept(records, owner, local, events);
    SortContents(ps, LaterFirst);
    SortSorted(ps, LaterFirst);
    UniqueSort(ps, LaterFirst, Relationship.KeyOf);
    forall j, k | 0 <= j < k < |items|
      ensures items[j].establishedAt >= items[k].establishedAt && (items[j].peer, items[j].own) != (items[k].peer, items[k].own)
    {
      assert LaterFirst(sorted[j], sorted[k]) && Relationship.KeyOf(sorted[j]) != Relationship.KeyOf(sorted[k]);
    }
    forall i | i in items ensures Tells(owner, local, events, i) && Identified(items, i) {
      var k :| 0 <= k < |items| && items[k] == i;
      assert sorted[k] in sorted;
      ItemTells(owner, local, events, ps, sorted[k], i);
      ItemIdentified(sorted, k);
    }
    forall key ensures Shows(items, key) <==> !NeverEstablished(records, owner, local, key, events) {
      RelationshipExactly(owner, local, events, key);
      ShowsExactly(ps, sorted, items, key);
    }
    PairCounts.ActivePeersExactly(sorted, |sorted|);
    PairCounts.SortedWellKept(owner, local, events);
    forall x ensures x in CurrentView(owner, local, events).activePeers <==> ActiveAs(items, x) {
      ActiveExactly(sorted, items, x);
    }
  }

  /** Some relationship with this identity is not broken. */
  predicate ActiveAs(items: seq<Item>, x: Key) { exists i | i in items :: i.identity == x && i.status != BrokenItem }

  predicate Shows(items: seq<Item>, key: RelationshipKey) { exists i | i in items :: (i.peer, i.own) == key }

  lemma ItemTells(owner: Key, local: Option<Key>, events: seq<Event>, ps: seq<Projected>, r: Projected, i: Item)
    requires ps == Project(Invitations(owner, events), owner, local, events) && r in ps
    requires exists qs :: i == ItemOf(qs, r)
    ensures Tells(owner, local, events, i)
  {
    hide Invitations, Project, Establishes, EndedAfter, PeerBrokeAfter, Identity, LastEstablished;
    var records, key := Invitations(owner, events), (r.peer, r.own);
    ProjectWellKept(records, owner, local, events);
    Found(ps, r);
    RelationshipExactly(owner, local, events, key);
    LastExists(records, owner, local, key, events);
    var p: nat :| LastEstablished(records, owner, local, key, events, p);
    IsEstablished(records, owner, local, key, events, p);
  }

  lemma IsEstablished(records: seq<Invitation>, owner: Key, local: Option<Key>, key: RelationshipKey, events: seq<Event>, p: nat)
    requires LastEstablished(records, owner, local, key, events, p)
    ensures p < |events| && Reestablishes(records, owner, local, key, events[p])
    ensures Establishes(records, owner, local, events[p]).value.establishedAt == events[p].timestamp
  {
    EstablishedFresh(records, owner, local, events[p]);
  }

  lemma Found(ps: seq<Projected>, r: Projected)
    requires WellKept(ps) && r in ps
    ensures FindByKey(ps, (r.peer, r.own)) == Some(r)
  {
    var i :| 0 <= i < |ps| && ps[i] == r;
    assert HasKey((r.peer, r.own))(ps[i]);
    UniqueMember(ps, r, ps[Position(ps, HasKey((r.peer, r.own))).value], Relationship.KeyOf);
  }

  lemma ItemIdentified(sorted: seq<Projected>, k: nat)
    requires k < |sorted|
    ensures Identified(ViewOf(sorted).items, ViewOf(sorted).items[k])
  {
    var items, r := ViewOf(sorted).items, sorted[k];
    var p := Position(sorted, RootedAt(r.peer));
    if r.peerRoot.None? {
      if p.Some? {
        assert RootedAt(r.peer)(sorted[p.value]);
        forall j | 0 <= j < p.value ensures items[j].peer == r.peer ==> items[j].peerRoot.None? {
          assert !RootedAt(r.peer)(sorted[j]);
        }
        assert items[p.value].peer == r.peer && items[p.value].peerRoot == Some(items[k].identity);
      } else {
        forall x | x in items && x.peer == r.peer ensures x.peerRoot.None? {
          var j :| 0 <= j < |items| && items[j] == x;
          assert !RootedAt(r.peer)(sorted[j]);
        }
      }
    }
  }

  lemma ShowsExactly(ps: seq<Projected>, sorted: seq<Projected>, items: seq<Item>, key: RelationshipKey)
    requires (forall r :: r in sorted <==> r in ps) && |items| == |sorted|
    requires forall k | 0 <= k < |items| :: items[k].peer == sorted[k].peer && items[k].own == sorted[k].own
    ensures Shows(items, key) <==> FindByKey(ps, key).Some?
  {
    if i :| i in items && (i.peer, i.own) == key {
      var k :| 0 <= k < |items| && items[k] == i;
      assert sorted[k] in sorted;
      var j :| 0 <= j < |ps| && ps[j] == sorted[k];
      assert HasKey(key)(ps[j]);
    }
    var p := Position(ps, HasKey(key));
    if p.Some? {
      assert HasKey(key)(ps[p.value]) && ps[p.value] in ps && ps[p.value] in sorted;
      var k :| 0 <= k < |sorted| && sorted[k] == ps[p.value];
      assert items[k] in items;
    }
  }

  lemma ActiveExactly(sorted: seq<Projected>, items: seq<Item>, x: Key)
    requires items == ViewOf(sorted).items && forall r | r in sorted :: r.pendingRemoteBreak ==> r.active
    ensures (exists k | 0 <= k < |sorted| :: sorted[k].active && Identity(sorted, sorted[k]) == x) <==> ActiveAs(items, x)
  {
    hide Identity;
    if k :| 0 <= k < |sorted| && sorted[k].active && Identity(sorted, sorted[k]) == x {
      assert items[k] in items && items[k].identity == x;
    }
    if i :| i in items && i.identity == x && i.status != BrokenItem {
      var k :| 0 <= k < |items| && items[k] == i;
      assert sorted[k] in sorted;
    }
  }
}
