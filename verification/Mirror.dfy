/** Mirror agreement: two capsules that recorded the same establishments, each from its
    own side and among any others, show the same list of active relationships for their
    pair exactly when each relationship was broken by both of them or by neither. */
module Mirror {
  import opened Common
  import opened Facts
  import opened Invitation
  import opened Relationship
  import opened Pair
  import opened Endings

  /** One shared establishment from one side. */
  datatype Entry = Entry(own: StarterId, peer: StarterId, kind: StarterKind)

  function Flip(e: Entry): Entry { Entry(e.peer, e.own, e.kind) }

  function FlipAll(story: seq<Entry>): seq<Entry> {
    seq(|story|, i requires 0 <= i < |story| => Flip(story[i]))
  }

  /** The other capsule: its transport, and its root. */
  datatype Peer = Peer(transport: Key, root: Key)

  // ----- what one side recorded about the other -----

  /** The establishments with `peer`, in ledger order. */
  function Story(records: seq<Invitation>, owner: Key, local: Option<Key>, peer: Peer, events: seq<Event>): seq<Entry> {
    if |events| == 0 then []
    else
      var before := Story(records, owner, local, peer, events[..|events|-1]);
      var est := Establishes(records, owner, local, events[|events|-1]);
      if est.Some? && est.value.peer == peer.transport
      then before + [Entry(est.value.own, est.value.peerStarter, est.value.kind)] else before
  }

  /** One transport per capsule: what concerns the peer carries its transport and
      no foreign root, and what concerns others carries neither key of the peer. */
  predicate KeptApart(r: Projected, peer: Peer) {
    if r.peer == peer.transport then r.peerRoot == None || r.peerRoot == Some(peer.root)
    else r.peer != peer.root && r.peerRoot != Some(peer.root) && r.peerRoot != Some(peer.transport)
  }

  ghost predicate Side(owner: Key, local: Option<Key>, peer: Peer, events: seq<Event>, story: seq<Entry>) {
    var records := Invitations(owner, events);
    && Story(records, owner, local, peer, events) == story
    && (forall i | 0 <= i < |events| ::
          var est := Establishes(records, owner, local, events[i]); est.Some? ==> KeptApart(est.value, peer))
  }

  // ----- the records with the peer -----

  /** The entries that no later entry with the same own starter replaced. */
  function Latest(story: seq<Entry>): set<Entry> {
    if |story| == 0 then {}
    else
      var last := story[|story|-1];
      (set e | e in Latest(story[..|story|-1]) && e.own != last.own) + {last}
  }

  ghost predicate Shows(ps: seq<Projected>, peer: Peer, entries: set<Entry>) {
    && UniqueBy(ps, KeyOf)
    && (forall r | r in ps :: KeptApart(r, peer))
    && (forall r | r in ps && r.peer == peer.transport :: Entry(r.own, r.peerStarter, r.kind) in entries)
    && (forall e | e in entries ::
          exists r | r in ps :: r.peer == peer.transport && Entry(r.own, r.peerStarter, r.kind) == e)
  }

  lemma UpsertMembers(ps: seq<Projected>, r: Projected)
    requires UniqueBy(ps, KeyOf)
    ensures forall q :: q in Upsert(ps, r) <==> q == r || (q in ps && KeyOf(q) != KeyOf(r))
  {
    var k, qs := Position(ps, HasKey(KeyOf(r))), Upsert(ps, r);
    if k.Some? {
      forall q ensures q in qs <==> q == r || (q in ps && KeyOf(q) != KeyOf(r)) {
        assert qs[k.value] == r;
        if q in ps && KeyOf(q) != KeyOf(r) {
          var i :| 0 <= i < |ps| && ps[i] == q;
          assert qs[i] == q;
        }
        if q in qs && q != r {
          var i :| 0 <= i < |qs| && qs[i] == q;
          assert ps[i] == q;
          assert KeyOf(ps[i]) != KeyOf(ps[k.value]);
        }
      }
    } else {
      forall q | q in ps ensures KeyOf(q) != KeyOf(r) {
        var i :| 0 <= i < |ps| && ps[i] == q;
        assert !HasKey(KeyOf(r))(ps[i]);
      }
    }
  }

  lemma UpsertShows(ps: seq<Projected>, peer: Peer, entries: set<Entry>, r: Projected)
    requires Shows(ps, peer, entries) && KeptApart(r, peer)
    ensures var entry := Entry(r.own, r.peerStarter, r.kind);
            Shows(Upsert(ps, r), peer,
                  if r.peer == peer.transport then (set e | e in entries && e.own != r.own) + {entry} else entries)
  {
    UpsertUnique(ps, r);
    UpsertMembers(ps, r);
    var qs, entry := Upsert(ps, r), Entry(r.own, r.peerStarter, r.kind);
    var entries' := if r.peer == peer.transport then (set e | e in entries && e.own != r.own) + {entry} else entries;
    forall e | e in entries'
      ensures exists q | q in qs :: q.peer == peer.transport && Entry(q.own, q.peerStarter, q.kind) == e
    {
      if r.peer == peer.transport && e == entry {
        assert r in qs;
      } else {
        var q :| q in ps && q.peer == peer.transport && Entry(q.own, q.peerStarter, q.kind) == e;
        assert q in qs;
      }
    }
  }

  /** A break changes what a record says about itself only. */
  lemma BreakShows(records: seq<Invitation>, owner: Key, local: Option<Key>, ps: seq<Projected>, peer: Peer,
                   entries: set<Entry>, e: Event)
    requires Shows(ps, peer, entries) && e.fact.RelationshipBroken?
    ensures Shows(ProjectEvent(records, owner, local, ps, e), peer, entries)
  {
    var k := Position(ps, HasKey((e.fact.peer, e.fact.own)));
    if k.Some? {
      var r := Broken(ps[k.value], owner, local, e.fact.peerRoot, e);
      RewrittenShows(ps, peer, entries, k.value, r);
    }
  }

  lemma RewrittenShows(ps: seq<Projected>, peer: Peer, entries: set<Entry>, k: nat, r: Projected)
    requires Shows(ps, peer, entries) && k < |ps|
    requires r == ps[k].(active := r.active, pendingRemoteBreak := r.pendingRemoteBreak)
    ensures Shows(ps[k := r], peer, entries)
  {
    var qs := ps[k := r];
    assert ps[k] in ps;
    forall i, j | 0 <= i < j < |qs| ensures KeyOf(qs[i]) != KeyOf(qs[j]) {
      assert KeyOf(ps[i]) != KeyOf(ps[j]);
    }
    forall q | q in qs ensures KeptApart(q, peer) && (q.peer == peer.transport ==> Entry(q.own, q.peerStarter, q.kind) in entries) {
      if q != r { assert q in ps; }
    }
    forall x | x in entries
      ensures exists q | q in qs :: q.peer == peer.transport && Entry(q.own, q.peerStarter, q.kind) == x
    {
      var q :| q in ps && q.peer == peer.transport && Entry(q.own, q.peerStarter, q.kind) == x;
      var i :| 0 <= i < |ps| && ps[i] == q;
      assert qs[i] in qs && qs[i].peer == peer.transport && Entry(qs[i].own, qs[i].peerStarter, qs[i].kind) == x;
    }
  }

  lemma {:induction false} ProjectionShows(records: seq<Invitation>, owner: Key, local: Option<Key>, peer: Peer, events: seq<Event>)
    requires forall i | 0 <= i < |events| ::
               var est := Establishes(records, owner, local, events[i]); est.Some? ==> KeptApart(est.value, peer)
    ensures Shows(Project(records, owner, local, events), peer, Latest(Story(records, owner, local, peer, events)))
  {
    hide Shows, Establishes, KeptApart;
    if |events| == 0 {
      NothingShown(peer);
    } else {
      var n := |events| - 1;
      var before, e := events[..n], events[n];
      assert forall i | 0 <= i < n :: before[i] == events[i];
      ProjectionShows(records, owner, local, peer, before);
      var ps := Project(records, owner, local, before);
      var entries := Latest(Story(records, owner, local, peer, before));
      EstablishedFresh(records, owner, local, e);
      if e.fact.RelationshipBroken? {
        BreakShows(records, owner, local, ps, peer, entries, e);
      } else {
        var est := Establishes(records, owner, local, e);
        if est.Some? {
          UpsertShows(ps, peer, entries, est.value);
          StorySnoc(Story(records, owner, local, peer, before), Entry(est.value.own, est.value.peerStarter, est.value.kind));
        }
      }
    }
  }

  lemma NothingShown(peer: Peer)
    ensures Shows([], peer, {})
  {
  }

  lemma StorySnoc(story: seq<Entry>, e: Entry)
    ensures Latest(story + [e]) == (set x | x in Latest(story) && x.own != e.own) + {e}
  {
    assert (story + [e])[..|story|] == story;
  }

  // ----- from records to the pair's list -----

  function EntryFact(e: Entry): PairRelationship {
    if e.own <= e.peer then PairRelationship(KindByte(e.kind), e.own, e.peer)
    else PairRelationship(KindByte(e.kind), e.peer, e.own)
  }

  lemma FlipKeepsFact(e: Entry)
    ensures EntryFact(Flip(e)) == EntryFact(e)
  {
  }

  function EntryFacts(entries: set<Entry>): set<PairRelationship> { set e | e in entries :: EntryFact(e) }

  /** The identity under which this side files the peer. */
  ghost function PeerIdentity(ps: seq<Projected>, peer: Peer): Key {
    if exists r | r in ps :: r.peer == peer.transport && r.peerRoot.Some? then peer.root else peer.transport
  }

  lemma IdentityIsPeer(ps: seq<Projected>, peer: Peer, r: Projected)
    requires r in ps && forall q | q in ps :: KeptApart(q, peer)
    ensures Identity(ps, r) == PeerIdentity(ps, peer) <==> r.peer == peer.transport
  {
    var k := Position(ps, RootedAt(r.peer));
    if k.Some? {
      assert ps[k.value] in ps && RootedAt(r.peer)(ps[k.value]);
    } else {
      forall q | q in ps && q.peer == r.peer ensures q.peerRoot.None? {
        var i :| 0 <= i < |ps| && ps[i] == q;
        assert !RootedAt(r.peer)(ps[i]);
      }
    }
  }

  /** Of these entries, the ones whose record is active. */
  ghost function LiveEntries(ps: seq<Projected>, peer: Peer, entries: set<Entry>): set<Entry> {
    set e | e in entries && Back(FindByKey(ps, (peer.transport, e.own)))
  }

  lemma SideFacts(owner: Key, local: Option<Key>, peer: Peer, events: seq<Event>, story: seq<Entry>)
    requires Side(owner, local, peer, events, story)
    ensures var ps, items := SortedProjection(owner, local, events), CurrentView(owner, local, events).items;
            ActiveFacts(items, |items|, PeerIdentity(ps, peer))
            == EntryFacts(LiveEntries(Project(Invitations(owner, events), owner, local, events), peer, Latest(story)))
  {
    var records := Invitations(owner, events);
    ProjectionShows(records, owner, local, peer, events);
    ProjectWellKept(records, owner, local, events);
    SortContents(Project(records, owner, local, events), LaterFirst);
    ShownFacts(Project(records, owner, local, events), SortedProjection(owner, local, events), peer, Latest(story));
  }

  lemma FoundIs(ps: seq<Projected>, r: Projected)
    requires WellKept(ps) && r in ps
    ensures FindByKey(ps, KeyOf(r)) == Some(r) && (r.pendingRemoteBreak ==> r.active)
  {
    var i :| 0 <= i < |ps| && ps[i] == r;
    assert HasKey(KeyOf(r))(ps[i]);
    UniqueMember(ps, r, ps[Position(ps, HasKey(KeyOf(r))).value], KeyOf);
  }

  lemma ShownFacts(qs: seq<Projected>, ps: seq<Projected>, peer: Peer, entries: set<Entry>)
    requires Shows(qs, peer, entries) && WellKept(qs) && forall r :: r in ps <==> r in qs
    ensures var items := ViewOf(ps).items;
            ActiveFacts(items, |items|, PeerIdentity(ps, peer)) == EntryFacts(LiveEntries(qs, peer, entries))
  {
    hide Identity, KeptApart, PeerIdentity, FindByKey, WellKept;
    var items, id := ViewOf(ps).items, PeerIdentity(ps, peer);
    var facts, live := ActiveFacts(items, |items|, id), LiveEntries(qs, peer, entries);
    forall f | f in facts ensures f in EntryFacts(live) {
      var k :| 0 <= k < |items| && IsActive(items[k]) && items[k].identity == id && FactOf(items[k]) == f;
      var r := ps[k];
      assert r in ps;
      IdentityIsPeer(ps, peer, r);
      FoundIs(qs, r);
      assert Entry(r.own, r.peerStarter, r.kind) in live;
      assert EntryFact(Entry(r.own, r.peerStarter, r.kind)) == f;
    }
    forall f | f in EntryFacts(live) ensures f in facts {
      var e :| e in live && EntryFact(e) == f;
      var r :| r in qs && r.peer == peer.transport && Entry(r.own, r.peerStarter, r.kind) == e;
      assert r in ps;
      FoundIs(qs, r);
      var k :| 0 <= k < |ps| && ps[k] == r;
      IdentityIsPeer(ps, peer, r);
      assert IsActive(items[k]) && items[k].identity == id && FactOf(items[k]) == f;
    }
  }

  /** The `active_relationships` the pair view shows for a peer. */
  function ActiveList(view: seq<PairItem>, peer: Key): seq<PairRelationship> {
    var k := Position(view, WithPeer(peer));
    if k.Some? then view[k.value].active else []
  }

  function WithPeer(peer: Key): PairItem -> bool { (i: PairItem) => i.peerIdentity == peer }

  lemma ActiveListIsPair(owner: Key, local: Option<Key>, events: seq<Event>, peer: Key)
    ensures ActiveList(PairView(owner, local, events), peer)
         == Sort(PairFor(LedgerPairs(owner, local, events), peer).active, RelationshipLe)
  {
    hide CurrentView, Invitations;
    var pairs, rs := LedgerPairs(owner, local, events), Invitations(owner, events);
    AllPairsActive(owner, local, CurrentView(owner, local, events).items, rs, |rs|, peer);
    ListOfPairs(owner, local, pairs, peer);
  }

  lemma ListOfPairs(owner: Key, local: Option<Key>, pairs: Pairs, peer: Key)
    requires UniqueBy(pairs, PeerOf)
    ensures ActiveList(ItemsOf(owner, local, Sort(pairs, PeerLe)), peer)
         == Sort(PairFor(pairs, peer).active, RelationshipLe)
  {
    var view := ItemsOf(owner, local, Sort(pairs, PeerLe));
    PeerShown(owner, local, pairs, peer);
    SortContents(pairs, PeerLe);
    var k := Position(view, WithPeer(peer));
    if k.Some? {
      assert WithPeer(peer)(view[k.value]);
      var x := Sort(pairs, PeerLe)[k.value];
      assert x in pairs && x.0 == peer;
      UniqueMember(pairs, x, pairs[Position(pairs, IsPeer(peer)).value], PeerOf);
    }
  }

  lemma PeerShown(owner: Key, local: Option<Key>, pairs: Pairs, peer: Key)
    ensures Position(ItemsOf(owner, local, Sort(pairs, PeerLe)), WithPeer(peer)).Some?
       <==> Position(pairs, IsPeer(peer)).Some?
  {
    hide Sort;
    var sorted := Sort(pairs, PeerLe);
    var view := ItemsOf(owner, local, sorted);
    SortContents(pairs, PeerLe);
    var k, p := Position(view, WithPeer(peer)), Position(pairs, IsPeer(peer));
    if k.Some? {
      var x := sorted[k.value];
      assert WithPeer(peer)(view[k.value]) && x in sorted;
      var i :| 0 <= i < |pairs| && pairs[i] == x;
      assert IsPeer(peer)(pairs[i]);
    }
    if p.Some? {
      var x := pairs[p.value];
      assert IsPeer(peer)(x) && x in sorted;
      var i :| 0 <= i < |sorted| && sorted[i] == x;
      assert WithPeer(peer)(view[i]);
    }
  }

  lemma ListOfFacts(owner: Key, local: Option<Key>, events: seq<Event>, peer: Key)
    ensures var items := CurrentView(owner, local, events).items;
            var list := ActiveList(PairView(owner, local, events), peer);
            && SortedBy(list, RelationshipLe) && NoRepeats(list)
            && forall f :: f in list <==> f in ActiveFacts(items, |items|, peer)
  {
    hide CurrentView, Invitations, PairView, ActiveList, ActiveFacts;
    var items, rs := CurrentView(owner, local, events).items, Invitations(owner, events);
    ActiveListIsPair(owner, local, events, peer);
    AllPairsActive(owner, local, items, rs, |rs|, peer);
    ItemPairsActive(items, |items|, peer);
    SortedListOf(PairFor(LedgerPairs(owner, local, events), peer).active);
  }

  lemma SortedListOf(list: seq<PairRelationship>)
    requires NoRepeats(list)
    ensures var s := Sort(list, RelationshipLe);
            SortedBy(s, RelationshipLe) && NoRepeats(s) && forall f :: f in s <==> f in list
  {
    SortContents(list, RelationshipLe);
    SortSorted(list, RelationshipLe);
    UniqueSort(list, RelationshipLe, Same);
    var s := Sort(list, RelationshipLe);
    forall i, j | 0 <= i < j < |s| ensures s[i] != s[j] { assert Same(s[i]) != Same(s[j]); }
  }

  function Same(f: PairRelationship): PairRelationship { f }

  // ----- both sides -----

  /** A starter of either side is matched with one starter of the other. */
  ghost predicate OneToOne(story: seq<Entry>) {
    forall e, f | e in story && f in story :: e.own == f.own <==> e.peer == f.peer
  }

  lemma {:induction false} LatestFrom(story: seq<Entry>)
    ensures forall e | e in Latest(story) :: e in story
  {
    if |story| > 0 {
      LatestFrom(story[..|story|-1]);
      assert story == story[..|story|-1] + [story[|story|-1]];
    }
  }

  /** With one-to-one matching the same entries survive on both sides. */
  lemma {:induction false} LatestFlips(story: seq<Entry>)
    requires OneToOne(story)
    ensures Latest(FlipAll(story)) == set e | e in Latest(story) :: Flip(e)
  {
    if |story| > 0 {
      var n := |story| - 1;
      var before, last := story[..n], story[n];
      assert story == before + [last];
      LatestFlips(before);
      LatestFrom(before);
      assert FlipAll(story) == FlipAll(before) + [Flip(last)];
      StorySnoc(FlipAll(before), Flip(last));
      StorySnoc(before, last);
      assert last in story;
      forall e | e in Latest(before) ensures e.own == last.own <==> Flip(e).own == Flip(last).own {
        assert e in story;
      }
    }
  }

  /** The owner broke the relationship after its last surviving establishment. */
  ghost predicate BrokenBy(owner: Key, local: Option<Key>, events: seq<Event>, peer: Peer, own: StarterId) {
    var key := (peer.transport, own);
    exists p: nat :: LastEstablished(Invitations(owner, events), owner, local, key, events, p)
                     && EndedAfter(owner, local, key, events, p)
  }

  lemma RecordedIsLive(owner: Key, local: Option<Key>, peer: Peer, events: seq<Event>, story: seq<Entry>)
    requires Side(owner, local, peer, events, story)
    ensures forall e | e in Latest(story) ::
              Back(RecordOf(owner, local, events, (peer.transport, e.own))) <==> !BrokenBy(owner, local, events, peer, e.own)
  {
    hide Invitations, Project, FindByKey, Establishes, Latest, Story, Outcome;
    var records := Invitations(owner, events);
    var ps := Project(records, owner, local, events);
    ProjectionShows(records, owner, local, peer, events);
    ProjectWellKept(records, owner, local, events);
    forall e | e in Latest(story)
      ensures Back(RecordOf(owner, local, events, (peer.transport, e.own))) <==> !BrokenBy(owner, local, events, peer, e.own)
    {
      var key := (peer.transport, e.own);
      var r :| r in ps && r.peer == peer.transport && Entry(r.own, r.peerStarter, r.kind) == e;
      FoundIs(ps, r);
      RecordIsBroken(owner, local, events, key);
    }
  }

  lemma RecordIsBroken(owner: Key, local: Option<Key>, events: seq<Event>, key: RelationshipKey)
    requires RecordOf(owner, local, events, key).Some?
    ensures Over(RecordOf(owner, local, events, key))
       <==> exists p: nat :: LastEstablished(Invitations(owner, events), owner, local, key, events, p)
                             && EndedAfter(owner, local, key, events, p)
  {
    hide RecordOf, Invitations, EndedAfter, Reestablishes;
    RelationshipExactly(owner, local, events, key);
    LastExists(Invitations(owner, events), owner, local, key, events);
    OutcomeActive(Invitations(owner, events), owner, local, key, events);
  }

  /** Each relationship of the pair was broken by both capsules or by neither. */
  ghost predicate Converged(a: Peer, aEvents: seq<Event>, b: Peer, bEvents: seq<Event>, story: seq<Entry>) {
    forall e | e in Latest(story) ::
      BrokenBy(a.root, Some(a.transport), aEvents, b, e.own) <==> BrokenBy(b.root, Some(b.transport), bEvents, a, e.peer)
  }

  /** No starter id belongs to both capsules. */
  ghost predicate OwnStarters(story: seq<Entry>) {
    forall e, f | e in story && f in story :: e.own != f.peer
  }

  lemma FactIsEntry(story: seq<Entry>, e: Entry, f: Entry)
    requires OneToOne(story) && OwnStarters(story) && e in story && f in story && EntryFact(e) == EntryFact(f)
    ensures e.own == f.own && e.peer == f.peer
  {
  }

  /** The live entries of both sides have the same facts, exactly if the sides converged. */
  lemma SameFacts(story: seq<Entry>, mine: set<Entry>, theirs: set<Entry>)
    requires OneToOne(story) && mine <= Latest(story) && theirs <= Latest(FlipAll(story))
    ensures (forall e | e in Latest(story) :: e in mine <==> Flip(e) in theirs) ==> EntryFacts(mine) == EntryFacts(theirs)
    ensures OwnStarters(story) && EntryFacts(mine) == EntryFacts(theirs)
            ==> forall e | e in Latest(story) :: e in mine <==> Flip(e) in theirs
  {
    hide Latest;
    LatestFlips(story);
    LatestFrom(story);
    LatestOnce(story);
    if forall e | e in Latest(story) :: e in mine <==> Flip(e) in theirs {
      forall f | f in EntryFacts(mine) ensures f in EntryFacts(theirs) {
        var e :| e in mine && EntryFact(e) == f;
        FlipKeepsFact(e);
        assert Flip(e) in theirs;
      }
      forall f | f in EntryFacts(theirs) ensures f in EntryFacts(mine) {
        var x :| x in theirs && EntryFact(x) == f;
        FlipKeepsFact(x);
        assert Flip(Flip(x)) == x && Flip(x) in mine;
      }
    }
    if OwnStarters(story) && EntryFacts(mine) == EntryFacts(theirs) {
      forall e | e in Latest(story) ensures e in mine <==> Flip(e) in theirs {
        FlipKeepsFact(e);
        if e in mine {
          assert EntryFact(e) in EntryFacts(theirs);
          var x :| x in theirs && EntryFact(x) == EntryFact(e);
          var y :| y in Latest(story) && Flip(y) == x;
          FlipKeepsFact(y);
          FactIsEntry(story, e, y);
        }
        if Flip(e) in theirs {
          assert EntryFact(Flip(e)) in EntryFacts(mine);
          var y :| y in mine && EntryFact(y) == EntryFact(e);
          FactIsEntry(story, e, y);
        }
      }
    }
  }

  /** One latest entry for each own starter. */
  lemma {:induction false} LatestOnce(story: seq<Entry>)
    ensures forall e, f | e in Latest(story) && f in Latest(story) && e.own == f.own :: e == f
  {
    if |story| > 0 { LatestOnce(story[..|story|-1]); }
  }

  /** Two ledgers that hold the same sequence of establishments seen from both sides,
      among any third-party events and any breaks at any time, show the same sorted list
      of active relationships for the pair if each relationship was broken by both
      capsules or by neither, and, when no starter id belongs to both, only then. The
      peer's breaks alone take nothing off a side's list. */
  lemma MirrorAgreement(a: Peer, aEvents: seq<Event>, b: Peer, bEvents: seq<Event>, story: seq<Entry>)
    requires Side(a.root, Some(a.transport), b, aEvents, story)
    requires Side(b.root, Some(b.transport), a, bEvents, FlipAll(story))
    requires OneToOne(story)
    ensures var mine := ActiveList(PairView(a.root, Some(a.transport), aEvents),
                                   PeerIdentity(SortedProjection(a.root, Some(a.transport), aEvents), b));
            var theirs := ActiveList(PairView(b.root, Some(b.transport), bEvents),
                                     PeerIdentity(SortedProjection(b.root, Some(b.transport), bEvents), a));
            && (Converged(a, aEvents, b, bEvents, story) ==> mine == theirs)
            && (OwnStarters(story) && mine == theirs ==> Converged(a, aEvents, b, bEvents, story))
  {
    hide Side, CurrentView, PairView, ActiveList, ActiveFacts, SortedProjection, PeerIdentity, Latest, EntryFacts,
         Project, FindByKey, Invitations, BrokenBy;
    var idB := PeerIdentity(SortedProjection(a.root, Some(a.transport), aEvents), b);
    var idA := PeerIdentity(SortedProjection(b.root, Some(b.transport), bEvents), a);
    SideFacts(a.root, Some(a.transport), b, aEvents, story);
    SideFacts(b.root, Some(b.transport), a, bEvents, FlipAll(story));
    var ps := Project(Invitations(a.root, aEvents), a.root, Some(a.transport), aEvents);
    var qs := Project(Invitations(b.root, bEvents), b.root, Some(b.transport), bEvents);
    var mine, theirs := LiveEntries(ps, b, Latest(story)), LiveEntries(qs, a, Latest(FlipAll(story)));
    SameFacts(story, mine, theirs);
    RecordedIsLive(a.root, Some(a.transport), b, aEvents, story);
    RecordedIsLive(b.root, Some(b.transport), a, bEvents, FlipAll(story));
    LatestFlips(story);
    ListOfFacts(a.root, Some(a.transport), aEvents, idB);
    ListOfFacts(b.root, Some(b.transport), bEvents, idA);
    SameLists(ActiveList(PairView(a.root, Some(a.transport), aEvents), idB),
              ActiveList(PairView(b.root, Some(b.transport), bEvents), idA), EntryFacts(mine), EntryFacts(theirs));
  }

  /** Sorted lists without repetition are equal exactly if they hold the same facts. */
  lemma SameLists(x: seq<PairRelationship>, y: seq<PairRelationship>, s: set<PairRelationship>, t: set<PairRelationship>)
    requires SortedBy(x, RelationshipLe) && NoRepeats(x) && SortedBy(y, RelationshipLe) && NoRepeats(y)
    requires (forall f :: f in x <==> f in s) && (forall f :: f in y <==> f in t)
    ensures x == y <==> s == t
  {
    if s == t { SortedSetUnique(x, y, RelationshipLe); }
    if x == y { assert forall f :: f in s <==> f in t; }
  }
}
