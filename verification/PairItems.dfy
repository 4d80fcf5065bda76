/** What each item of the pair view says, from the relationship items and the invitations
    alone: whom it is about, which invitations are finished and which are pending, and
    what blocks the pair. */
module PairItems {
  import opened Common
  import opened Facts
  import opened Invitation
  import opened Relationship
  import opened Pair

  // ----- what belongs to a peer -----

  /** The invitation counts for this peer; those filed under the capsule itself do not. */
  predicate Filed(owner: Key, local: Option<Key>, items: seq<Item>, r: Invitation, peer: Key) {
    InvitationIdentity(items, r) == peer && peer != owner && local != Some(peer)
  }

  function Finished(owner: Key, local: Option<Key>, items: seq<Item>, peer: Key): Invitation -> nat {
    (r: Invitation) => if Filed(owner, local, items, r, peer) && r.status != Pending then 1 else 0
  }

  function PendingIds(owner: Key, local: Option<Key>, items: seq<Item>, rs: seq<Invitation>, peer: Key): set<InvitationId> {
    set r | r in rs && Filed(owner, local, items, r, peer) && r.status == Pending :: r.id
  }

  function StartersWith(items: seq<Item>, peer: Key, status: ItemStatus): set<StarterId> {
    set i | i in items && i.identity == peer && i.status == status :: i.own
  }

  predicate RootedByItem(items: seq<Item>, peer: Key) { exists i | i in items :: i.identity == peer && i.peerRoot.Some? }

  /** The invitation itself names a root, or a relationship knows one for its transport. */
  predicate NamesRoot(items: seq<Item>, r: Invitation) {
    InvitationRoot(r).Some? || RootKnown(items, InvitationTransport(r))
  }

  predicate RootedByInvitation(owner: Key, local: Option<Key>, items: seq<Item>, rs: seq<Invitation>, peer: Key) {
    exists r | r in rs :: Filed(owner, local, items, r, peer) && NamesRoot(items, r)
  }

  // ----- the accumulators -----

  ghost predicate Gathers<T(!new)>(values: seq<T>, all: set<T>) { NoRepeats(values) && Elements(values) == all }

  lemma PushGathers<T(!new)>(values: seq<T>, all: set<T>, x: T)
    requires Gathers(values, all)
    ensures Gathers(PushUnique(values, x), all + {x})
  {
  }

  ghost predicate ItemsGathered(acc: Accumulator, items: seq<Item>, peer: Key) {
    && acc.finalized == 0 && acc.pendingInvitations == []
    && Gathers(acc.pendingRemoteBreaks, StartersWith(items, peer, PendingRemoteBreakItem))
    && Gathers(acc.broken, StartersWith(items, peer, BrokenItem))
    && (acc.rooted <==> RootedByItem(items, peer))
  }

  lemma AddGathers(acc: Accumulator, items: seq<Item>, i: Item, peer: Key)
    requires ItemsGathered(acc, items, peer)
    ensures ItemsGathered(if i.identity == peer then AddItem(acc, i) else acc, items + [i], peer)
  {
    hide Gathers, PushUnique, FactOf, StartersWith, RootedByItem;
    StartersSnoc(items, i, peer, PendingRemoteBreakItem);
    StartersSnoc(items, i, peer, BrokenItem);
    PushGathers(acc.pendingRemoteBreaks, StartersWith(items, peer, PendingRemoteBreakItem), i.own);
    PushGathers(acc.broken, StartersWith(items, peer, BrokenItem), i.own);
  }

  lemma StartersSnoc(items: seq<Item>, i: Item, peer: Key, status: ItemStatus)
    ensures StartersWith(items + [i], peer, status)
         == if i.identity == peer && i.status == status then StartersWith(items, peer, status) + {i.own}
            else StartersWith(items, peer, status)
    ensures RootedByItem(items + [i], peer) <==> RootedByItem(items, peer) || (i.identity == peer && i.peerRoot.Some?)
  {
    assert forall x :: x in items + [i] <==> x in items || x == i;
  }

  predicate HasPair(pairs: Pairs, peer: Key) { exists p | p in pairs :: p.0 == peer }

  lemma {:induction false} ItemPairsGather(items: seq<Item>, n: nat, peer: Key)
    requires n <= |items|
    ensures ItemsGathered(PairFor(ItemPairs(items, n), peer), items[..n], peer)
    ensures HasPair(ItemPairs(items, n), peer) <==> exists i | i in items[..n] :: i.identity == peer
  {
    hide SetPair, PairFor, AddItem, ItemsGathered;
    if n == 0 {
      NothingGathered(items, peer);
    } else {
      ItemPairsGather(items, n - 1, peer);
      ItemPairsActive(items, n - 1, peer);
      var before, i := ItemPairs(items, n - 1), items[n-1];
      SetPairEffect(before, i.identity, AddItem(PairFor(before, i.identity), i), peer);
      AddGathers(PairFor(before, peer), items[..n-1], i, peer);
      assert items[..n] == items[..n-1] + [i];
    }
  }

  lemma NothingGathered(items: seq<Item>, peer: Key)
    ensures ItemsGathered(PairFor([], peer), items[..0], peer) && !HasPair([], peer)
  {
    assert Elements<StarterId>([]) == {};
  }

  ghost predicate Gathered(acc: Accumulator, owner: Key, local: Option<Key>, items: seq<Item>, rs: seq<Invitation>, peer: Key) {
    && acc.finalized == Sum(rs, Finished(owner, local, items, peer))
    && Gathers(acc.pendingInvitations, PendingIds(owner, local, items, rs, peer))
    && Gathers(acc.pendingRemoteBreaks, StartersWith(items, peer, PendingRemoteBreakItem))
    && Gathers(acc.broken, StartersWith(items, peer, BrokenItem))
    && (acc.rooted <==> RootedByItem(items, peer) || RootedByInvitation(owner, local, items, rs, peer))
  }

  lemma AddInvitationGathers(acc: Accumulator, owner: Key, local: Option<Key>, items: seq<Item>, rs: seq<Invitation>,
                             r: Invitation, peer: Key)
    requires Gathered(acc, owner, local, items, rs, peer)
    ensures Gathered(if Filed(owner, local, items, r, peer) then AddInvitation(acc, items, r) else acc,
                     owner, local, items, rs + [r], peer)
  {
    hide Gathers, PushUnique, Filed, InvitationRoot, InvitationTransport, RootKnown, RootedByItem, StartersWith, PendingIds,
         RootedByInvitation;
    InvitationsSnocPeer(owner, local, items, rs, r, peer);
    SumAppend(rs, r, Finished(owner, local, items, peer));
    PushGathers(acc.pendingInvitations, PendingIds(owner, local, items, rs, peer), r.id);
  }

  lemma InvitationsSnocPeer(owner: Key, local: Option<Key>, items: seq<Item>, rs: seq<Invitation>, r: Invitation, peer: Key)
    ensures PendingIds(owner, local, items, rs + [r], peer)
         == if Filed(owner, local, items, r, peer) && r.status == Pending then PendingIds(owner, local, items, rs, peer) + {r.id}
            else PendingIds(owner, local, items, rs, peer)
    ensures RootedByInvitation(owner, local, items, rs + [r], peer)
       <==> RootedByInvitation(owner, local, items, rs, peer) || (Filed(owner, local, items, r, peer) && NamesRoot(items, r))
  {
    hide Filed, NamesRoot;
    assert forall x :: x in rs + [r] <==> x in rs || x == r;
  }

  lemma {:induction false} AllPairsGather(owner: Key, local: Option<Key>, items: seq<Item>, rs: seq<Invitation>, n: nat, peer: Key)
    requires n <= |rs|
    ensures var pairs := AllPairs(owner, local, items, rs, n);
            && Gathered(PairFor(pairs, peer), owner, local, items, rs[..n], peer)
            && (HasPair(pairs, peer) <==> Known(owner, local, items, rs[..n], peer))
  {
    hide SetPair, PairFor, ItemPairs, AddInvitation, Gathered, InvitationIdentity;
    if n == 0 {
      ItemPairsGather(items, |items|, peer);
      assert items[..|items|] == items;
      NoInvitationsYet(PairFor(ItemPairs(items, |items|), peer), owner, local, items, rs, peer);
    } else {
      AllPairsGather(owner, local, items, rs, n - 1, peer);
      AllPairsActive(owner, local, items, rs, n - 1, peer);
      var before, r := AllPairs(owner, local, items, rs, n - 1), rs[n-1];
      var identity := InvitationIdentity(items, r);
      SetPairEffect(before, identity, AddInvitation(PairFor(before, identity), items, r), peer);
      AddInvitationGathers(PairFor(before, peer), owner, local, items, rs[..n-1], r, peer);
      assert rs[..n] == rs[..n-1] + [r];
      assert forall q :: q in rs[..n] <==> q in rs[..n-1] || q == r;
    }
  }

  lemma NoInvitationsYet(acc: Accumulator, owner: Key, local: Option<Key>, items: seq<Item>, rs: seq<Invitation>, peer: Key)
    requires ItemsGathered(acc, items, peer)
    ensures Gathered(acc, owner, local, items, rs[..0], peer)
  {
    assert Elements<InvitationId>([]) == {};
    assert PendingIds(owner, local, items, rs[..0], peer) == {};
  }

  // ----- the items -----

  function Subjects(blockers: seq<Blocker>, code: BlockerCode): set<Key> {
    set b | b in blockers && b.code == code :: b.subject
  }

  function Rank(code: BlockerCode): nat {
    match code
    case PendingInvitation => 0
    case PendingRemoteBreak => 1
    case RelationshipBrokenBlocker => 2
    case NoActiveRelationship => 3
  }

  /** Blockers are listed by code, then by subject. */
  predicate BlockerLe(a: Blocker, b: Blocker) {
    Rank(a.code) < Rank(b.code) || (a.code == b.code && a.subject <= b.subject)
  }

  ghost predicate Listed(blockers: seq<Blocker>, code: BlockerCode, subjects: set<Key>) {
    && NoRepeats(blockers) && SortedBy(blockers, BlockerLe)
    && (forall b | b in blockers :: b.code == code)
    && Subjects(blockers, code) == subjects
  }

  lemma BlockersListed(code: BlockerCode, values: seq<Key>, all: set<Key>)
    requires Gathers(values, all)
    ensures Listed(Blockers(code, Sort(values, KeyLe)), code, all)
  {
    var sorted := Sort(values, KeyLe);
    SortContents(values, KeyLe);
    SortSorted(values, KeyLe);
    UniqueSort(values, KeyLe, Subject);
    var bs := Blockers(code, sorted);
    forall i, j | 0 <= i < j < |bs| ensures bs[i] != bs[j] { assert Subject(sorted[i]) != Subject(sorted[j]); }
    forall k ensures k in Subjects(bs, code) <==> k in all {
      if k in all {
        assert k in sorted;
        var i :| 0 <= i < |sorted| && sorted[i] == k;
        assert bs[i] in bs;
      }
    }
  }

  function Subject(k: Key): Key { k }

  /** Lists of increasing codes, one after the other. */
  lemma JoinListed(a: seq<Blocker>, b: seq<Blocker>, high: nat)
    requires NoRepeats(a) && SortedBy(a, BlockerLe) && NoRepeats(b) && SortedBy(b, BlockerLe)
    requires (forall x | x in a :: Rank(x.code) < high) && (forall x | x in b :: high <= Rank(x.code))
    ensures NoRepeats(a + b) && SortedBy(a + b, BlockerLe)
    ensures forall code :: Subjects(a + b, code) == Subjects(a, code) + Subjects(b, code)
  {
    var all := a + b;
    forall i, j | 0 <= i < j < |all| ensures all[i] != all[j] && BlockerLe(all[i], all[j]) {
      if i < |a| <= j { assert a[i] in a && b[j - |a|] in b; }
    }
    assert forall x :: x in all <==> x in a || x in b;
  }

  /** The blockers of a pair, from what its accumulator gathered. */
  lemma ItemBlockers(owner: Key, local: Option<Key>, p: (Key, Accumulator), pending: set<Key>, breaks: set<Key>, broken: set<Key>)
    requires Gathers(p.1.pendingInvitations, pending) && Gathers(p.1.pendingRemoteBreaks, breaks) && Gathers(p.1.broken, broken)
    ensures var x := PairItemOf(owner, local, p);
            && NoRepeats(x.blockers) && SortedBy(x.blockers, BlockerLe)
            && Subjects(x.blockers, PendingInvitation) == pending
            && Subjects(x.blockers, PendingRemoteBreak) == breaks
            && Subjects(x.blockers, RelationshipBrokenBlocker) == (if x.active == [] then broken else {})
            && Subjects(x.blockers, NoActiveRelationship) == (if x.active == [] then {p.0} else {})
  {
    hide Gathers, Blockers, BlockerLe, NoRepeats, Sort;
    var acc := p.1;
    BlockersListed(PendingInvitation, acc.pendingInvitations, pending);
    BlockersListed(PendingRemoteBreak, acc.pendingRemoteBreaks, breaks);
    BlockersListed(RelationshipBrokenBlocker, acc.broken, broken);
    var a, b := Blockers(PendingInvitation, Sort(acc.pendingInvitations, KeyLe)), Blockers(PendingRemoteBreak, Sort(acc.pendingRemoteBreaks, KeyLe));
    var c, d := Blockers(RelationshipBrokenBlocker, Sort(acc.broken, KeyLe)), [Blocker(NoActiveRelationship, p.0)];
    OneBlocker(d[0]);
    JoinListed(a, b, 1);
    JoinListed(c, d, 3);
    JoinListed(a + b, c + d, 2);
    SortContents(acc.active, RelationshipLe);
    assert a + b + [] == a + b;
  }

  lemma OneBlocker(b: Blocker)
    ensures NoRepeats([b]) && SortedBy([b], BlockerLe)
    ensures forall code :: Subjects([b], code) == if code == b.code then {b.subject} else {}
  {
  }

  lemma PairIsFound(pairs: Pairs, p: (Key, Accumulator))
    requires UniqueBy(pairs, PeerOf) && p in pairs
    ensures PairFor(pairs, p.0) == p.1
  {
    var i :| 0 <= i < |pairs| && pairs[i] == p;
    assert IsPeer(p.0)(pairs[i]);
    UniqueMember(pairs, p, pairs[Position(pairs, IsPeer(p.0)).value], PeerOf);
  }

  /** An item of the pair view, spelled out. */
  ghost predicate Says(owner: Key, local: Option<Key>, items: seq<Item>, rs: seq<Invitation>, x: PairItem) {
    var peer := x.peerIdentity;
    && x.finalized == Sum(rs, Finished(owner, local, items, peer))
    && Gathers(x.active, ActiveFacts(items, |items|, peer)) && SortedBy(x.active, RelationshipLe)
    && NoRepeats(x.blockers) && SortedBy(x.blockers, BlockerLe)
    && Subjects(x.blockers, PendingInvitation) == PendingIds(owner, local, items, rs, peer)
    && Subjects(x.blockers, PendingRemoteBreak) == StartersWith(items, peer, PendingRemoteBreakItem)
    && Subjects(x.blockers, RelationshipBrokenBlocker) == (if x.active == [] then StartersWith(items, peer, BrokenItem) else {})
    && Subjects(x.blockers, NoActiveRelationship) == (if x.active == [] then {peer} else {})
    && x.localIdentity == (if RootedByItem(items, peer) || RootedByInvitation(owner, local, items, rs, peer) || local.None?
                           then owner else local.value)
  }

  lemma PairSays(owner: Key, local: Option<Key>, items: seq<Item>, rs: seq<Invitation>, p: (Key, Accumulator))
    requires p in AllPairs(owner, local, items, rs, |rs|)
    ensures Says(owner, local, items, rs, PairItemOf(owner, local, p))
  {
    hide AllPairs, Sort, SortedBy, NoRepeats, RootedByItem, RootedByInvitation, StartersWith, PendingIds, Sum,
         ActiveFacts, Elements, Blockers, Subjects, RelationshipLe;
    var peer := p.0;
    AllPairsGather(owner, local, items, rs, |rs|, peer);
    AllPairsActive(owner, local, items, rs, |rs|, peer);
    ItemPairsActive(items, |items|, peer);
    PairIsFound(AllPairs(owner, local, items, rs, |rs|), p);
    assert rs[..|rs|] == rs;
    ItemBlockers(owner, local, p, PendingIds(owner, local, items, rs, peer),
                 StartersWith(items, peer, PendingRemoteBreakItem), StartersWith(items, peer, BrokenItem));
    SortedFacts(p.1.active, ActiveFacts(items, |items|, peer));
  }

  lemma SortedFacts(list: seq<PairRelationship>, facts: set<PairRelationship>)
    requires NoRepeats(list) && forall f :: f in list <==> f in facts
    ensures Gathers(Sort(list, RelationshipLe), facts) && SortedBy(Sort(list, RelationshipLe), RelationshipLe)
  {
    SortContents(list, RelationshipLe);
    SortSorted(list, RelationshipLe);
    UniqueSort(list, RelationshipLe, SameFact);
    var s := Sort(list, RelationshipLe);
    forall i, j | 0 <= i < j < |s| ensures s[i] != s[j] { assert SameFact(s[i]) != SameFact(s[j]); }
  }

  function SameFact(f: PairRelationship): PairRelationship { f }

  predicate InView(view: seq<PairItem>, peer: Key) { exists x | x in view :: x.peerIdentity == peer }

  /** Some relationship or some invitation is filed under this peer. */
  predicate Known(owner: Key, local: Option<Key>, items: seq<Item>, rs: seq<Invitation>, peer: Key) {
    || (exists i | i in items :: i.identity == peer)
    || (exists r | r in rs :: Filed(owner, local, items, r, peer))
  }

  /** The pair view holds one item for each peer that some relationship or some invitation
      is filed under, in the order of the peers, and each item says what it should. */
  lemma PairViewExactly(owner: Key, local: Option<Key>, events: seq<Event>)
    ensures var view := PairView(owner, local, events);
            var items, rs := CurrentView(owner, local, events).items, Invitations(owner, events);
            && (forall i, j | 0 <= i < j < |view| :: view[i].peerIdentity < view[j].peerIdentity)
            && (forall x | x in view :: Says(owner, local, items, rs, x))
            && (forall peer :: InView(view, peer) <==> Known(owner, local, items, rs, peer))
  {
    hide AllPairs, CurrentView, Invitations, Says, PairItemOf, Filed;
    var items, rs := CurrentView(owner, local, events).items, Invitations(owner, events);
    var pairs := LedgerPairs(owner, local, events);
    var sorted, view := Sort(pairs, PeerLe), PairView(owner, local, events);
    AllPairsActive(owner, local, items, rs, |rs|, owner);
    SortContents(pairs, PeerLe);
    SortSorted(pairs, PeerLe);
    UniqueSort(pairs, PeerLe, PeerOf);
    ItemPeers(owner, local, sorted);
    forall i, j | 0 <= i < j < |view| ensures view[i].peerIdentity < view[j].peerIdentity {
      assert PeerOf(sorted[i]) != PeerOf(sorted[j]) && PeerLe(sorted[i], sorted[j]);
    }
    forall x | x in view ensures Says(owner, local, items, rs, x) {
      var i :| 0 <= i < |view| && view[i] == x;
      assert sorted[i] in sorted;
      PairSays(owner, local, items, rs, sorted[i]);
    }
    forall peer ensures InView(view, peer) <==> Known(owner, local, items, rs, peer) {
      AllPairsGather(owner, local, items, rs, |rs|, peer);
      assert rs[..|rs|] == rs;
      ViewHasPair(owner, local, pairs, peer);
    }
  }

  lemma ItemPeers(owner: Key, local: Option<Key>, pairs: Pairs)
    ensures forall i | 0 <= i < |pairs| :: ItemsOf(owner, local, pairs)[i].peerIdentity == pairs[i].0
  {
  }

  lemma ViewHasPair(owner: Key, local: Option<Key>, pairs: Pairs, peer: Key)
    ensures InView(ItemsOf(owner, local, Sort(pairs, PeerLe)), peer) <==> HasPair(pairs, peer)
  {
    hide PairItemOf;
    var sorted := Sort(pairs, PeerLe);
    var view := ItemsOf(owner, local, sorted);
    SortContents(pairs, PeerLe);
    ItemPeers(owner, local, sorted);
    if x :| x in view && x.peerIdentity == peer {
      var i :| 0 <= i < |view| && view[i] == x;
      assert sorted[i] in sorted && sorted[i].0 == peer;
    }
    if p :| p in pairs && p.0 == peer {
      assert p in sorted;
      var i :| 0 <= i < |sorted| && sorted[i] == p;
      assert view[i] in view;
    }
  }

  // ----- under whom an invitation is filed -----

  /** The identity of the first relationship with this transport, else the transport. */
  predicate KnownAs(items: seq<Item>, transport: Key, identity: Key) {
    || (exists k | 0 <= k < |items| :: && items[k].peer == transport && items[k].identity == identity
                                       && forall j | 0 <= j < k :: items[j].peer != transport)
    || (identity == transport && forall i | i in items :: i.peer != transport)
  }

  /** From the offer's event: a received offer is filed under its sender's root, a sent one
      under the root of its accepter, and without such a root both under what the
      relationships know of the transport it came from or went to. */
  lemma FiledUnder(owner: Key, events: seq<Event>, items: seq<Item>, r: Invitation)
    requires r in Invitations(owner, events)
    ensures exists k: nat :: FirstOffer(events, |events|, r.id, k) &&
              var o, e, identity := events[k].fact.offer, events[k], InvitationIdentity(items, r);
              && (e.fact.InvitationReceived? ==>
                    if o.senderRoot.Some? then identity == o.senderRoot.value
                    else KnownAs(items, if o.senderTransport.Some? then o.senderTransport.value else e.signer, identity))
              && (e.fact.InvitationSent? ==>
                    if r.status.Accepted? && r.status.accepterRoot.Some? then identity == r.status.accepterRoot.value
                    else KnownAs(items, o.to, identity))
  {
    hide Invitations, Life;
    var rs := Invitations(owner, events);
    IdsUnique(owner, events);
    InvitationIsItsLife(owner, events, r.id);
    var j :| 0 <= j < |rs| && rs[j] == r;
    assert HasId(r.id)(rs[j]);
    UniqueMember(rs, r, FindInvitation(rs, r.id).value, IdOf);
    var k := FirstOfferIndex(events, r.id);
    LifeKeepsIdentity(owner, events, k, |events|);
    TransportIsKnown(items, InvitationTransport(r));
  }

  lemma TransportIsKnown(items: seq<Item>, transport: Key)
    ensures var k := Position(items, AtTransport(transport));
            KnownAs(items, transport, if k.Some? then items[k.value].identity else transport)
  {
    var k := Position(items, AtTransport(transport));
    if k.Some? {
      assert AtTransport(transport)(items[k.value]);
      assert forall j | 0 <= j < k.value :: !AtTransport(transport)(items[j]);
    } else {
      forall i | i in items ensures i.peer != transport {
        var j :| 0 <= j < |items| && items[j] == i;
        assert !AtTransport(transport)(items[j]);
      }
    }
  }

  lemma {:induction false} FirstOfferIndex(events: seq<Event>, id: InvitationId) returns (k: nat)
    requires Offered(events, id)
    ensures FirstOffer(events, |events|, id, k)
  {
    var j: nat :| j < |events| && OffersId(events[j], id);
    if Offered(events[..j], id) {
      k := FirstOfferIndex(events[..j], id);
      assert events[..j][..k] == events[..k];
    } else {
      k := j;
    }
  }
}
