/** The pair view: relationships and invitations gathered per peer identity
    (core/hivra-core/src/pair.rs). */
module Pair {
  import opened Common
  import opened Facts
  import opened Invitation
  import opened Relationship

  /** A shared relationship without a side: the two starters are in order. */
  datatype PairRelationship = PairRelationship(kind: nat, low: StarterId, high: StarterId)

  datatype Accumulator = Accumulator(
    rooted: bool, finalized: nat, active: seq<PairRelationship>, pendingInvitations: seq<InvitationId>,
    pendingRemoteBreaks: seq<StarterId>, broken: seq<StarterId>)

  const NO_PAIR := Accumulator(false, 0, [], [], [], [])

  datatype BlockerCode = PendingInvitation | PendingRemoteBreak | RelationshipBrokenBlocker | NoActiveRelationship

  datatype Blocker = Blocker(code: BlockerCode, subject: Key)

  datatype PairItem = PairItem(
    localIdentity: Key, peerIdentity: Key, finalized: nat, active: seq<PairRelationship>, blockers: seq<Blocker>)

  type Pairs = seq<(Key, Accumulator)>

  function PeerOf(p: (Key, Accumulator)): Key { p.0 }
  function IsPeer(peer: Key): ((Key, Accumulator)) -> bool { (p: (Key, Accumulator)) => p.0 == peer }

  /** `accumulator_for`: the peer's accumulator, a new one if there is none. */
  function PairFor(pairs: Pairs, peer: Key): Accumulator {
    var k := Position(pairs, IsPeer(peer));
    if k.Some? then pairs[k.value].1 else NO_PAIR
  }

  function SetPair(pairs: Pairs, peer: Key, acc: Accumulator): Pairs {
    var k := Position(pairs, IsPeer(peer));
    if k.Some? then pairs[k.value := (peer, acc)] else pairs + [(peer, acc)]
  }

  function PushUnique<T(==)>(values: seq<T>, value: T): seq<T> {
    if value in values then values else values + [value]
  }

  function FactOf(i: Item): PairRelationship {
    if i.own <= i.peerStarter then PairRelationship(KindByte(i.kind), i.own, i.peerStarter)
    else PairRelationship(KindByte(i.kind), i.peerStarter, i.own)
  }

  function AddItem(acc: Accumulator, i: Item): Accumulator {
    var a := acc.(rooted := acc.rooted || i.peerRoot.Some?);
    match i.status
    case BrokenItem => a.(broken := PushUnique(a.broken, i.own))
    case ActiveItem => a.(active := PushUnique(a.active, FactOf(i)))
    case PendingRemoteBreakItem =>
      a.(active := PushUnique(a.active, FactOf(i)), pendingRemoteBreaks := PushUnique(a.pendingRemoteBreaks, i.own))
  }

  /** The pairs after the first `n` relationships. */
  function ItemPairs(items: seq<Item>, n: nat): Pairs
    requires n <= |items|
  {
    if n == 0 then []
    else
      var before, i := ItemPairs(items, n - 1), items[n-1];
      SetPair(before, i.identity, AddItem(PairFor(before, i.identity), i))
  }

  function AtTransport(transport: Key): Item -> bool { (i: Item) => i.peer == transport }

  function InvitationTransport(r: Invitation): Key { if r.incoming then r.senderTransport else r.recipient }

  function InvitationRoot(r: Invitation): Option<Key> {
    if r.incoming then r.senderRoot
    else if r.status.Accepted? then r.status.accepterRoot else None
  }

  /** The identity an invitation is filed under: its root, else the identity of
      the first relationship with its transport, else the transport. */
  function InvitationIdentity(items: seq<Item>, r: Invitation): Key {
    if InvitationRoot(r).Some? then InvitationRoot(r).value
    else
      var k := Position(items, AtTransport(InvitationTransport(r)));
      if k.Some? then items[k.value].identity else InvitationTransport(r)
  }

  predicate IsLocalIdentity(owner: Key, local: Option<Key>, identity: Key) {
    identity == owner || local == Some(identity)
  }

  predicate RootKnown(items: seq<Item>, transport: Key) {
    exists i | i in items :: i.peer == transport && i.identity != transport
  }

  function AddInvitation(acc: Accumulator, items: seq<Item>, r: Invitation): Accumulator {
    var a := acc.(rooted := acc.rooted || InvitationRoot(r).Some? || RootKnown(items, InvitationTransport(r)));
    if r.status == Pending then a.(pendingInvitations := PushUnique(a.pendingInvitations, r.id))
    else a.(finalized := a.finalized + 1)
  }

  /** The pairs after the relationships and the first `n` invitations. */
  function AllPairs(owner: Key, local: Option<Key>, items: seq<Item>, rs: seq<Invitation>, n: nat): Pairs
    requires n <= |rs|
  {
    if n == 0 then ItemPairs(items, |items|)
    else
      var before, r := AllPairs(owner, local, items, rs, n - 1), rs[n-1];
      var identity := InvitationIdentity(items, r);
      if IsLocalIdentity(owner, local, identity) then before
      else SetPair(before, identity, AddInvitation(PairFor(before, identity), items, r))
  }

  predicate PeerLe(a: (Key, Accumulator), b: (Key, Accumulator)) { a.0 <= b.0 }
  predicate KeyLe(a: Key, b: Key) { a <= b }
  predicate RelationshipLe(a: PairRelationship, b: PairRelationship) {
    || a.kind < b.kind
    || (a.kind == b.kind && (a.low < b.low || (a.low == b.low && a.high <= b.high)))
  }

  function Blockers(code: BlockerCode, subjects: seq<Key>): seq<Blocker> {
    seq(|subjects|, i requires 0 <= i < |subjects| => Blocker(code, subjects[i]))
  }

  function PairItemOf(owner: Key, local: Option<Key>, p: (Key, Accumulator)): PairItem {
    var acc := p.1;
    var pending := Blockers(PendingInvitation, Sort(acc.pendingInvitations, KeyLe));
    var breaks := Blockers(PendingRemoteBreak, Sort(acc.pendingRemoteBreaks, KeyLe));
    var ends :=
      if acc.active == [] then
        Blockers(RelationshipBrokenBlocker, Sort(acc.broken, KeyLe)) + [Blocker(NoActiveRelationship, p.0)]
      else [];
    PairItem(if acc.rooted || local.None? then owner else local.value, p.0, acc.finalized,
             Sort(acc.active, RelationshipLe), pending + breaks + ends)
  }

  function ItemsOf(owner: Key, local: Option<Key>, pairs: Pairs): seq<PairItem> {
    seq(|pairs|, i requires 0 <= i < |pairs| => PairItemOf(owner, local, pairs[i]))
  }

  function LedgerPairs(owner: Key, local: Option<Key>, events: seq<Event>): Pairs {
    var rs := Invitations(owner, events);
    AllPairs(owner, local, CurrentView(owner, local, events).items, rs, |rs|)
  }

  /** `pair_view_v1`. */
  function PairView(owner: Key, local: Option<Key>, events: seq<Event>): seq<PairItem> {
    ItemsOf(owner, local, Sort(LedgerPairs(owner, local, events), PeerLe))
  }

  method PairViewV1(owner: Key, local: Option<Key>, events: seq<Event>) returns (items: seq<PairItem>)
    ensures items == PairView(owner, local, events)
  {
    hide CurrentView, Invitations, AddItem, AddInvitation, PairItemOf, InvitationIdentity;
    var view := RelationshipCurrentView(owner, local, events);
    var pairs: Pairs := [];
    var n := 0;
    while n < |view.items|
      invariant 0 <= n <= |view.items|
      invariant pairs == ItemPairs(view.items, n)
    {
      var i := view.items[n];
      pairs := SetPair(pairs, i.identity, AddItem(PairFor(pairs, i.identity), i));
      n := n + 1;
    }
    var rs := InvitationsWithStatus(owner, events);
    n := 0;
    while n < |rs|
      invariant 0 <= n <= |rs|
      invariant pairs == AllPairs(owner, local, view.items, rs, n)
    {
      var identity := InvitationIdentity(view.items, rs[n]);
      if !IsLocalIdentity(owner, local, identity) {
        pairs := SetPair(pairs, identity, AddInvitation(PairFor(pairs, identity), view.items, rs[n]));
      }
      n := n + 1;
    }
    pairs := Sort(pairs, PeerLe);
    items := [];
    n := 0;
    while n < |pairs|
      invariant 0 <= n <= |pairs|
      invariant |items| == n && forall i | 0 <= i < n :: items[i] == PairItemOf(owner, local, pairs[i])
    {
      items := items + [PairItemOf(owner, local, pairs[n])];
      n := n + 1;
    }
    assert items == ItemsOf(owner, local, pairs);
  }

  // ----- one pair at a time -----

  lemma SetPairEffect(pairs: Pairs, peer: Key, acc: Accumulator, other: Key)
    requires UniqueBy(pairs, PeerOf)
    ensures UniqueBy(SetPair(pairs, peer, acc), PeerOf)
    ensures PairFor(SetPair(pairs, peer, acc), other) == if other == peer then acc else PairFor(pairs, other)
    ensures (exists p | p in SetPair(pairs, peer, acc) :: p.0 == other)
       <==> other == peer || exists p | p in pairs :: p.0 == other
  {
    var qs, k := SetPair(pairs, peer, acc), Position(pairs, IsPeer(peer));
    forall i | 0 <= i < |pairs| ensures IsPeer(other)(qs[i]) == IsPeer(other)(pairs[i]) {}
    var p, q := Position(pairs, IsPeer(other)), Position(qs, IsPeer(other));
    if k.Some? {
      forall i, j | 0 <= i < j < |qs| ensures PeerOf(qs[i]) != PeerOf(qs[j]) {
        assert PeerOf(pairs[i]) != PeerOf(pairs[j]);
      }
      assert p == q by { assert IsPeer(peer)(pairs[k.value]); }
      assert qs[k.value] in qs && pairs[k.value] in pairs;
      MembersAfterSet(pairs, k.value, (peer, acc), other);
    } else {
      forall x | x in pairs ensures PeerOf(x) != peer {
        var i :| 0 <= i < |pairs| && pairs[i] == x;
        assert !IsPeer(peer)(pairs[i]);
      }
      UniqueAppend(pairs, (peer, acc), PeerOf);
      assert IsPeer(other)(qs[|pairs|]) <==> other == peer;
      if p.Some? { assert q == p; }
    }
  }

  lemma MembersAfterSet(pairs: Pairs, k: nat, x: (Key, Accumulator), other: Key)
    requires k < |pairs| && pairs[k].0 == x.0
    ensures (exists p | p in pairs[k := x] :: p.0 == other) <==> exists p | p in pairs :: p.0 == other
  {
    var qs := pairs[k := x];
    if exists p | p in qs :: p.0 == other {
      var p :| p in qs && p.0 == other;
      var i :| 0 <= i < |qs| && qs[i] == p;
      assert pairs[i] in pairs && pairs[i].0 == other;
    }
    if exists p | p in pairs :: p.0 == other {
      var p :| p in pairs && p.0 == other;
      var i :| 0 <= i < |pairs| && pairs[i] == p;
      assert qs[i] in qs && qs[i].0 == other;
    }
  }

  predicate IsActive(i: Item) { i.status != BrokenItem }

  /** What the active relationships with one peer amount to. */
  function ActiveFacts(items: seq<Item>, n: nat, peer: Key): set<PairRelationship>
    requires n <= |items|
  {
    set k | 0 <= k < n && IsActive(items[k]) && items[k].identity == peer :: FactOf(items[k])
  }

  ghost predicate Lists(acc: Accumulator, facts: set<PairRelationship>) {
    NoRepeats(acc.active) && forall f :: f in acc.active <==> f in facts
  }

  lemma {:induction false} ItemPairsActive(items: seq<Item>, n: nat, peer: Key)
    requires n <= |items|
    ensures UniqueBy(ItemPairs(items, n), PeerOf)
    ensures Lists(PairFor(ItemPairs(items, n), peer), ActiveFacts(items, n, peer))
  {
    hide SetPair, PairFor, ActiveFacts;
    if n == 0 {
      NoPairYet(items, peer);
    } else {
      ItemPairsActive(items, n - 1, peer);
      var before, i := ItemPairs(items, n - 1), items[n-1];
      SetPairEffect(before, i.identity, AddItem(PairFor(before, i.identity), i), peer);
      ActiveFactsSnoc(items, n, peer);
    }
  }

  lemma NoPairYet(items: seq<Item>, peer: Key)
    ensures PairFor([], peer) == NO_PAIR && ActiveFacts(items, 0, peer) == {}
  {
  }

  lemma ActiveFactsSnoc(items: seq<Item>, n: nat, peer: Key)
    requires 0 < n <= |items|
    ensures ActiveFacts(items, n, peer) == ActiveFacts(items, n - 1, peer)
              + (if IsActive(items[n-1]) && items[n-1].identity == peer then {FactOf(items[n-1])} else {})
  {
  }

  lemma {:induction false} AllPairsActive(owner: Key, local: Option<Key>, items: seq<Item>, rs: seq<Invitation>, n: nat, peer: Key)
    requires n <= |rs|
    ensures UniqueBy(AllPairs(owner, local, items, rs, n), PeerOf)
    ensures PairFor(AllPairs(owner, local, items, rs, n), peer).active == PairFor(ItemPairs(items, |items|), peer).active
  {
    hide SetPair, PairFor, ItemPairs, InvitationIdentity, InvitationRoot, RootKnown;
    if n == 0 {
      ItemPairsActive(items, |items|, peer);
    } else {
      AllPairsActive(owner, local, items, rs, n - 1, peer);
      var before, r := AllPairs(owner, local, items, rs, n - 1), rs[n-1];
      var identity := InvitationIdentity(items, r);
      SetPairEffect(before, identity, AddInvitation(PairFor(before, identity), items, r), peer);
    }
  }
}
