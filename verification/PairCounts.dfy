/** What the pair view conserves: every invitation with a remote peer is counted
    exactly once, and the pairs with active relationships are the active peers. */
module PairCounts {
  import opened Common
  import opened Facts
  import opened Invitation
  import opened Relationship
  import opened Pair

  // ----- sums over pairs -----

  function AccWeight(acc: Accumulator): nat { acc.finalized + |acc.pendingInvitations| }
  function PairWeight(p: (Key, Accumulator)): nat { AccWeight(p.1) }

  lemma SumSetPair(pairs: Pairs, peer: Key, acc: Accumulator)
    ensures Sum(SetPair(pairs, peer, acc), PairWeight) + AccWeight(PairFor(pairs, peer))
         == Sum(pairs, PairWeight) + AccWeight(acc)
  {
    var k := Position(pairs, IsPeer(peer));
    if k.Some? { SumUpdate(pairs, k.value, (peer, acc), PairWeight); } else { SumAppend(pairs, (peer, acc), PairWeight); }
  }

  lemma AddItemWeighsNothing(acc: Accumulator, i: Item)
    ensures AddItem(acc, i).finalized == acc.finalized && AddItem(acc, i).pendingInvitations == acc.pendingInvitations
  {
  }

  lemma {:induction false} ItemPairsWeighNothing(items: seq<Item>, n: nat)
    requires n <= |items|
    ensures Sum(ItemPairs(items, n), PairWeight) == 0
    ensures forall p | p in ItemPairs(items, n) :: p.1.pendingInvitations == []
  {
    hide AddItem, SetPair, PairFor;
    if n > 0 {
      ItemPairsWeighNothing(items, n - 1);
      var before, i := ItemPairs(items, n - 1), items[n-1];
      var prev := PairFor(before, i.identity);
      AddItemWeighsNothing(prev, i);
      PairForMember(before, i.identity);
      SumSetPair(before, i.identity, AddItem(prev, i));
      SetPairMembers(before, i.identity, AddItem(prev, i));
    }
  }

  function Remote(owner: Key, local: Option<Key>, items: seq<Item>): Invitation -> nat {
    (r: Invitation) => if IsLocalIdentity(owner, local, InvitationIdentity(items, r)) then 0 else 1
  }

  /** Pending ids in the pairs come from the invitations read so far. */
  ghost predicate PendingRead(pairs: Pairs, rs: seq<Invitation>) {
    forall p, id | p in pairs && id in p.1.pendingInvitations :: exists r | r in rs :: r.id == id
  }

  lemma PairForMember(pairs: Pairs, peer: Key)
    ensures PairFor(pairs, peer) == NO_PAIR || exists p | p in pairs :: p.1 == PairFor(pairs, peer)
  {
    var k := Position(pairs, IsPeer(peer));
    if k.Some? { assert pairs[k.value] in pairs; }
  }

  lemma SetPairMembers(pairs: Pairs, peer: Key, acc: Accumulator)
    ensures forall p | p in SetPair(pairs, peer, acc) :: p in pairs || p == (peer, acc)
  {
  }

  lemma InvitationCounted(pairs: Pairs, items: seq<Item>, rs: seq<Invitation>, r: Invitation, identity: Key)
    requires PendingRead(pairs, rs) && forall q | q in rs :: q.id != r.id
    ensures var acc := AddInvitation(PairFor(pairs, identity), items, r);
            && Sum(SetPair(pairs, identity, acc), PairWeight) == Sum(pairs, PairWeight) + 1
            && PendingRead(SetPair(pairs, identity, acc), rs + [r])
  {
    hide SetPair, RootKnown, InvitationRoot;
    var prev, acc := PairFor(pairs, identity), AddInvitation(PairFor(pairs, identity), items, r);
    PairForMember(pairs, identity);
    assert r.id !in prev.pendingInvitations;
    SumSetPair(pairs, identity, acc);
    SetPairMembers(pairs, identity, acc);
    forall p, id | p in SetPair(pairs, identity, acc) && id in p.1.pendingInvitations
      ensures exists q | q in rs + [r] :: q.id == id
    {
      if id == r.id {
        assert r in rs + [r];
      } else {
        assert exists q | q in rs :: q.id == id;
        var q :| q in rs && q.id == id;
        assert q in rs + [r];
      }
    }
  }

  lemma {:induction false} PairsCountInvitations(owner: Key, local: Option<Key>, items: seq<Item>, rs: seq<Invitation>, n: nat)
    requires n <= |rs| && UniqueBy(rs, IdOf)
    ensures var pairs := AllPairs(owner, local, items, rs, n);
            && Sum(pairs, PairWeight) == Sum(rs[..n], Remote(owner, local, items))
            && PendingRead(pairs, rs[..n])
  {
    hide AddInvitation, InvitationIdentity, SetPair, PairFor, ItemPairs;
    if n == 0 {
      ItemPairsWeighNothing(items, |items|);
    } else {
      PairsCountInvitations(owner, local, items, rs, n - 1);
      var before, r := AllPairs(owner, local, items, rs, n - 1), rs[n-1];
      assert rs[..n] == rs[..n-1] + [r];
      SumAppend(rs[..n-1], r, Remote(owner, local, items));
      forall q | q in rs[..n-1] ensures q.id != r.id {
        var i :| 0 <= i < n - 1 && rs[i] == q;
        assert IdOf(rs[i]) != IdOf(rs[n-1]);
      }
      InvitationCounted(before, items, rs[..n-1], r, InvitationIdentity(items, r));
      PendingReadMore(before, rs[..n-1], r);
    }
  }

  lemma PendingReadMore(pairs: Pairs, rs: seq<Invitation>, r: Invitation)
    requires PendingRead(pairs, rs)
    ensures PendingRead(pairs, rs + [r])
  {
    forall p, id | p in pairs && id in p.1.pendingInvitations ensures exists q | q in rs + [r] :: q.id == id {
      var q :| q in rs && q.id == id;
      assert q in rs + [r];
    }
  }

  // ----- from pairs to the items of the view -----

  function IsPendingBlocker(b: Blocker): nat { if b.code == PendingInvitation then 1 else 0 }

  function ItemWeight(i: PairItem): nat { i.finalized + Sum(i.blockers, IsPendingBlocker) }

  lemma {:induction false} BlockersWeigh(code: BlockerCode, subjects: seq<Key>)
    ensures Sum(Blockers(code, subjects), IsPendingBlocker) == if code == PendingInvitation then |subjects| else 0
  {
    if |subjects| > 0 {
      var n := |subjects| - 1;
      BlockersWeigh(code, subjects[..n]);
      assert Blockers(code, subjects) == Blockers(code, subjects[..n]) + [Blocker(code, subjects[n])];
      SumAppend(Blockers(code, subjects[..n]), Blocker(code, subjects[n]), IsPendingBlocker);
    }
  }

  lemma ItemWeighsAsPair(owner: Key, local: Option<Key>, p: (Key, Accumulator))
    ensures ItemWeight(PairItemOf(owner, local, p)) == PairWeight(p)
  {
    hide Blockers;
    var acc := p.1;
    var pending := Blockers(PendingInvitation, Sort(acc.pendingInvitations, KeyLe));
    var breaks := Blockers(PendingRemoteBreak, Sort(acc.pendingRemoteBreaks, KeyLe));
    var broken := Blockers(RelationshipBrokenBlocker, Sort(acc.broken, KeyLe));
    var none := Blocker(NoActiveRelationship, p.0);
    SortContents(acc.pendingInvitations, KeyLe);
    BlockersWeigh(PendingInvitation, Sort(acc.pendingInvitations, KeyLe));
    BlockersWeigh(PendingRemoteBreak, Sort(acc.pendingRemoteBreaks, KeyLe));
    BlockersWeigh(RelationshipBrokenBlocker, Sort(acc.broken, KeyLe));
    SumConcat(pending, breaks, IsPendingBlocker);
    SumAppend(broken, none, IsPendingBlocker);
    SumConcat(pending + breaks, broken + [none], IsPendingBlocker);
    assert pending + breaks + [] == pending + breaks;
  }

  lemma {:induction false} SumItemsOf(owner: Key, local: Option<Key>, pairs: Pairs, f: PairItem -> nat, g: ((Key, Accumulator)) -> nat)
    requires forall p :: f(PairItemOf(owner, local, p)) == g(p)
    ensures Sum(ItemsOf(owner, local, pairs), f) == Sum(pairs, g)
  {
    hide PairItemOf;
    if |pairs| > 0 {
      var n := |pairs| - 1;
      SumItemsOf(owner, local, pairs[..n], f, g);
      assert ItemsOf(owner, local, pairs)[..n] == ItemsOf(owner, local, pairs[..n]);
    }
  }

  /** Pending-invitation blockers and finalized counts over all pairs add up to
      exactly the invitations whose peer is not the capsule itself. */
  lemma InvitationsConserved(owner: Key, local: Option<Key>, events: seq<Event>)
    ensures Sum(PairView(owner, local, events), ItemWeight)
         == Sum(Invitations(owner, events), Remote(owner, local, CurrentView(owner, local, events).items))
  {
    hide CurrentView, Invitations, PairItemOf, AllPairs;
    var rs, items, pairs := Invitations(owner, events), CurrentView(owner, local, events).items, LedgerPairs(owner, local, events);
    IdsUnique(owner, events);
    PairsCountInvitations(owner, local, items, rs, |rs|);
    assert rs[..|rs|] == rs;
    SumSort(pairs, PeerLe, PairWeight);
    forall p ensures ItemWeight(PairItemOf(owner, local, p)) == PairWeight(p) { ItemWeighsAsPair(owner, local, p); }
    SumItemsOf(owner, local, Sort(pairs, PeerLe), ItemWeight, PairWeight);
  }

  // ----- active pairs -----

  function HasActive(i: PairItem): nat { if i.active != [] then 1 else 0 }
  function PairActive(p: (Key, Accumulator)): nat { if p.1.active != [] then 1 else 0 }

  ghost function ActivePairPeers(pairs: Pairs): set<Key> { set p | p in pairs && p.1.active != [] :: p.0 }

  lemma {:induction false} ActivePairsAreDistinct(pairs: Pairs)
    requires UniqueBy(pairs, PeerOf)
    ensures Sum(pairs, PairActive) == |ActivePairPeers(pairs)|
  {
    hide ActivePairPeers;
    if |pairs| == 0 {
      NoActivePairs();
    } else {
      var n := |pairs| - 1;
      ActivePairsAreDistinct(pairs[..n]);
      ActivePairPeersLast(pairs);
    }
  }

  lemma NoActivePairs()
    ensures ActivePairPeers([]) == {}
  {
  }

  lemma ActivePairPeersLast(pairs: Pairs)
    requires UniqueBy(pairs, PeerOf) && |pairs| > 0
    ensures var before, p := pairs[..|pairs|-1], pairs[|pairs|-1];
            && ActivePairPeers(pairs) == ActivePairPeers(before) + (if p.1.active != [] then {p.0} else {})
            && p.0 !in ActivePairPeers(before)
  {
    var n := |pairs| - 1;
    var before, p := pairs[..n], pairs[n];
    assert forall q :: q in pairs <==> q in before || q == p;
    forall q | q in before ensures q.0 != p.0 {
      var i :| 0 <= i < n && pairs[i] == q;
      assert PeerOf(pairs[i]) != PeerOf(pairs[n]);
    }
  }

  /** A peer is active when some active relationship has its identity. */
  lemma {:induction false} ActivePeersExactly(ps: seq<Projected>, n: nat)
    requires n <= |ps|
    ensures NoRepeats(ActivePeers(ps, n))
    ensures forall x :: x in ActivePeers(ps, n) <==> exists i | 0 <= i < n :: ps[i].active && Identity(ps, ps[i]) == x
  {
    hide Identity;
    if n > 0 { ActivePeersExactly(ps, n - 1); }
  }

  lemma SortedWellKept(owner: Key, local: Option<Key>, events: seq<Event>)
    ensures forall r | r in SortedProjection(owner, local, events) :: r.pendingRemoteBreak ==> r.active
  {
    var ps := Project(Invitations(owner, events), owner, local, events);
    ProjectWellKept(Invitations(owner, events), owner, local, events);
    SortContents(ps, LaterFirst);
  }

  lemma ActivePairIffActivePeer(owner: Key, local: Option<Key>, events: seq<Event>, x: Key)
    ensures PairFor(LedgerPairs(owner, local, events), x).active != []
       <==> x in CurrentView(owner, local, events).activePeers
    ensures UniqueBy(LedgerPairs(owner, local, events), PeerOf)
  {
    hide SortedProjection, Invitations, AllPairs, PairFor, ItemPairs, Identity;
    var ps, rs := SortedProjection(owner, local, events), Invitations(owner, events);
    var items := CurrentView(owner, local, events).items;
    SortedWellKept(owner, local, events);
    AllPairsActive(owner, local, items, rs, |rs|, x);
    ItemPairsActive(items, |items|, x);
    ActivePeersExactly(ps, |ps|);
    var acc, facts := PairFor(ItemPairs(items, |items|), x), ActiveFacts(items, |items|, x);
    if acc.active != [] {
      assert acc.active[0] in facts;
      var k :| 0 <= k < |items| && IsActive(items[k]) && items[k].identity == x;
      assert ps[k] in ps;
    }
    if x in ActivePeers(ps, |ps|) {
      var i :| 0 <= i < |ps| && ps[i].active && Identity(ps, ps[i]) == x;
      assert FactOf(items[i]) in facts;
    }
  }

  lemma SameActivePeers(owner: Key, local: Option<Key>, events: seq<Event>)
    ensures UniqueBy(LedgerPairs(owner, local, events), PeerOf)
    ensures ActivePairPeers(LedgerPairs(owner, local, events))
         == Elements(CurrentView(owner, local, events).activePeers)
  {
    hide CurrentView, LedgerPairs, ActivePairPeers, PairFor;
    var pairs, peers := LedgerPairs(owner, local, events), CurrentView(owner, local, events).activePeers;
    ActivePairIffActivePeer(owner, local, events, owner);
    forall x: Key ensures x in ActivePairPeers(pairs) <==> x in peers {
      ActivePairIffActivePeer(owner, local, events, x);
      PairForPeer(pairs, x);
    }
  }

  /** As many pairs have active relationships as the relationship view counts
      active peers. */
  lemma ActivePairsAreActivePeers(owner: Key, local: Option<Key>, events: seq<Event>)
    ensures Sum(PairView(owner, local, events), HasActive) == |CurrentView(owner, local, events).activePeers|
  {
    hide CurrentView, PairItemOf, LedgerPairs, ActivePairPeers, ItemsOf, Sum;
    var pairs := LedgerPairs(owner, local, events);
    SumSort(pairs, PeerLe, PairActive);
    forall p ensures HasActive(PairItemOf(owner, local, p)) == PairActive(p) { ActiveSurvivesSort(owner, local, p); }
    SumItemsOf(owner, local, Sort(pairs, PeerLe), HasActive, PairActive);
    SameActivePeers(owner, local, events);
    ActivePairsAreDistinct(pairs);
    PeersDistinct(owner, local, events);
    DistinctSize(CurrentView(owner, local, events).activePeers);
  }

  lemma PeersDistinct(owner: Key, local: Option<Key>, events: seq<Event>)
    ensures NoRepeats(CurrentView(owner, local, events).activePeers)
  {
    var ps := SortedProjection(owner, local, events);
    ActivePeersExactly(ps, |ps|);
  }

  lemma ActiveSurvivesSort(owner: Key, local: Option<Key>, p: (Key, Accumulator))
    ensures HasActive(PairItemOf(owner, local, p)) == PairActive(p)
  {
    SortContents(p.1.active, RelationshipLe);
  }

  lemma PairForPeer(pairs: Pairs, x: Key)
    requires UniqueBy(pairs, PeerOf)
    ensures x in ActivePairPeers(pairs) <==> PairFor(pairs, x).active != []
  {
    var k := Position(pairs, IsPeer(x));
    if k.Some? {
      assert pairs[k.value] in pairs;
      forall p | p in pairs && p.0 == x ensures p == pairs[k.value] {
        UniqueMember(pairs, p, pairs[k.value], PeerOf);
      }
    } else {
      forall p | p in pairs ensures p.0 != x {
        var i :| 0 <= i < |pairs| && pairs[i] == p;
        assert !IsPeer(x)(pairs[i]);
      }
    }
  }
}
