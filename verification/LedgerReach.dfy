/** Verification against construction: which ledgers `verify` accepts, compared with
    the ledgers that appends and migration can build. */
module LedgerReach {
  import opened Common
  import opened Facts
  import opened Ledger
  import opened LedgerBinding

  // ----- runs -----

  datatype Op = AppendOp(event: RawEvent) | MigrateOp(anchor: Anchor) | EntryOp(entry: EntryV5)

  function Do(c: Crypto, l: LedgerState, op: Op): LedgerState {
    var res := match op
      case AppendOp(e) => AppendV4(c, l, e)
      case MigrateOp(a) => Migrate(c, l, a)
      case EntryOp(e) => AppendV5(c, l, e);
    if res.Ok? then res.value else l
  }

  function Run(c: Crypto, start: LedgerState, ops: seq<Op>): LedgerState {
    if ops == [] then start else Do(c, Run(c, start, ops[..|ops|-1]), ops[|ops|-1])
  }

  lemma {:induction false} RunAppend(c: Crypto, start: LedgerState, ops: seq<Op>, op: Op)
    ensures Run(c, start, ops + [op]) == Do(c, Run(c, start, ops), op)
  {
    assert (ops + [op])[..|ops|] == ops;
  }

  // ----- v4 -----

  /** The appends that rebuild v4 history. */
  function Appends(events: seq<RawEvent>): (ops: seq<Op>)
    ensures |ops| == |events|
  {
    seq(|events|, i requires 0 <= i < |events| => AppendOp(events[i]))
  }

  function V4Ledger(c: Crypto, owner: Bytes32, events: seq<RawEvent>): LedgerState {
    LedgerState(events, owner, V4Hash(c, events, |events|), None)
  }

  lemma {:induction false} HashPrefix(c: Crypto, events: seq<RawEvent>, others: seq<RawEvent>, n: nat)
    requires n <= |events| && n <= |others| && events[..n] == others[..n]
    ensures V4Hash(c, events, n) == V4Hash(c, others, n)
    ensures V4Ordered(events, n) == V4Ordered(others, n)
  {
    if n > 0 {
      assert events[..n-1] == events[..n][..n-1] == others[..n][..n-1] == others[..n-1];
      assert events[n-1] == events[..n][n-1] == others[..n][n-1] == others[n-1];
      if n > 1 { assert events[n-2] == events[..n][n-2] == others[..n][n-2] == others[n-2]; }
      HashPrefix(c, events, others, n - 1);
    }
  }

  /** One more v4 event verifies exactly when it could be appended. */
  lemma V4Step(c: Crypto, owner: Bytes32, events: seq<RawEvent>, e: RawEvent)
    requires V4Ordered(events, |events|)
    ensures var more := events + [e];
            && (V4Ordered(more, |more|) <==> AppendV4(c, V4Ledger(c, owner, events), e).Ok?)
            && (V4Ordered(more, |more|) ==>
                  AppendV4(c, V4Ledger(c, owner, events), e) == Ok(V4Ledger(c, owner, more)))
  {
    var more := events + [e];
    assert more[..|events|] == events == events[..|events|];
    HashPrefix(c, more, events, |events|);
    if |events| > 0 { assert more[|events|-1] == events[|events|-1]; }
  }

  lemma {:induction false} V4Rebuilt(c: Crypto, owner: Bytes32, events: seq<RawEvent>)
    requires V4Ordered(events, |events|)
    ensures Run(c, New(owner), Appends(events)) == V4Ledger(c, owner, events)
  {
    if |events| > 0 {
      var n := |events| - 1;
      var less := events[..n];
      assert less + [events[n]] == events && less[..n] == less;
      HashPrefix(c, events, less, n);
      OrderedPrefix(events, n, n + 1);
      V4Rebuilt(c, owner, less);
      assert Appends(events) == Appends(less) + [AppendOp(events[n])];
      RunAppend(c, New(owner), Appends(less), AppendOp(events[n]));
      V4Step(c, owner, less, events[n]);
    }
  }

  // ----- v5 -----

  /** What a v5 ledger built by the operations satisfies, with the duplicate check
      `append_v5` makes: against every earlier event. */
  ghost predicate Good(c: Crypto, l: LedgerState) {
    && VerifyV5(c, l).None?
    && VerifyV4(c, Legacy(l), l.lastHash)
    && FreshIds(c, l)
  }

  function Legacy(l: LedgerState): seq<RawEvent>
    requires l.continuity.Some? && l.continuity.value.legacyCount <= |l.events|
  {
    l.events[..l.continuity.value.legacyCount]
  }

  /** No v5 event has the id of an earlier event of the ledger. */
  ghost predicate FreshIds(c: Crypto, l: LedgerState)
    requires l.continuity.Some?
  {
    forall j | l.continuity.value.legacyCount <= j < |l.events| :: !HasId(c, l.events[..j], EventId(c, l.events[j]))
  }

  predicate Sized(l: LedgerState) {
    l.continuity.Some? && l.continuity.value.legacyCount + |l.continuity.value.receipts| == |l.events|
    && l.continuity.value.anchor.owner == l.owner
  }

  /** The ledger without its last v5 entry, and that entry. */
  function Pop(l: LedgerState): LedgerState
    requires Sized(l) && l.continuity.value.receipts != []
  {
    var k := l.continuity.value;
    l.(events := l.events[..|l.events|-1], continuity := Some(k.(receipts := k.receipts[..|k.receipts|-1])))
  }

  function LastEntry(l: LedgerState): EntryV5
    requires Sized(l) && l.continuity.value.receipts != []
  {
    var r := l.continuity.value.receipts[|l.continuity.value.receipts|-1];
    EntryV5(l.owner, r.sequence, r.previous, l.events[|l.events|-1], r.signature)
  }

  lemma {:induction false} ReceiptsOfPop(c: Crypto, l: LedgerState, n: nat)
    requires Sized(l) && n < |l.continuity.value.receipts|
    ensures VerifyReceipts(c, Pop(l), n) == VerifyReceipts(c, l, n)
  {
    hide EntryCommitment, AnchorCommitment, HasId, EventId;
    if n > 0 {
      ReceiptsOfPop(c, l, n - 1);
      assert Pop(l).events[..n-1] == l.events[..n-1];
      assert Pop(l).events[l.continuity.value.legacyCount + n - 1] == l.events[l.continuity.value.legacyCount + n - 1];
    }
  }

  /** The last commitment the verifier carries is the tail an append must name. */
  lemma VerifierCarriesTail(c: Crypto, l: LedgerState)
    requires Sized(l) && VerifyReceipts(c, l, |l.continuity.value.receipts|).Ok?
    ensures VerifyReceipts(c, l, |l.continuity.value.receipts|).value == TailCommitment(c, l)
  {
    hide EntryCommitment, AnchorCommitment, ReceiptFault;
  }

  /** Taking off the last entry: what stays is good and the entry could be appended,
      exactly when the whole is good. */
  lemma GoodStep(c: Crypto, l: LedgerState)
    requires Sized(l) && l.continuity.value.receipts != []
    ensures Good(c, l) <==> Good(c, Pop(l)) && AppendV5(c, Pop(l), LastEntry(l)) == Ok(l)
  {
    hide EventId, TailCommitment, VerifyReceipts, EntryCommitment, AnchorCommitment, VerifyV4, HasId, FreshIds;
    var k, p := l.continuity.value, Pop(l);
    var n := |k.receipts| - 1;
    ReceiptsOfPop(c, l, n);
    LastReceipt(c, l);
    FreshIdsOfPop(c, l);
    IdsPrefix(c, l.events[..n], p.events, EventId(c, LastEntry(l).event));
    assert forall e | e in l.events[..n] :: e in p.events;
    assert Legacy(p) == Legacy(l);
    if VerifyReceipts(c, p, n).Ok? { VerifierCarriesTail(c, p); }
    assert p.events + [LastEntry(l).event] == l.events;
    assert p.continuity.value.receipts + [k.receipts[n]] == k.receipts;
  }

  lemma LastReceipt(c: Crypto, l: LedgerState)
    requires Sized(l) && l.continuity.value.receipts != []
    ensures var n := |l.continuity.value.receipts| - 1;
            VerifyReceipts(c, l, n + 1).Ok?
            <==> VerifyReceipts(c, l, n).Ok? && ReceiptFault(c, l, n, VerifyReceipts(c, l, n).value).None?
  {
    hide EventId, EntryCommitment, AnchorCommitment, HasId;
  }

  lemma IdsPrefix(c: Crypto, some: seq<RawEvent>, all: seq<RawEvent>, id: Bytes32)
    ensures (forall e | e in some :: e in all) && HasId(c, some, id) ==> HasId(c, all, id)
  {
  }

  lemma FreshIdsOfPop(c: Crypto, l: LedgerState)
    requires Sized(l) && l.continuity.value.receipts != []
    ensures FreshIds(c, l) <==> FreshIds(c, Pop(l)) && !HasId(c, Pop(l).events, EventId(c, LastEntry(l).event))
  {
    hide HasId, EventId;
    var p, first := Pop(l), l.continuity.value.legacyCount;
    assert p.events == l.events[..|l.events|-1];
    assert forall j | first <= j < |p.events| :: p.events[..j] == l.events[..j] && p.events[j] == l.events[j];
  }

  // ----- building and rebuilding -----

  /** The v5 appends that rebuild the receipts of a ledger. */
  function EntryOps(l: LedgerState): seq<Op>
    requires Sized(l)
    decreases |l.events|
  {
    if l.continuity.value.receipts == [] then [] else EntryOps(Pop(l)) + [EntryOp(LastEntry(l))]
  }

  /** The ledger at the moment it became a v5 ledger. */
  function Origin(l: LedgerState): LedgerState
    requires Sized(l)
  {
    l.(events := Legacy(l), continuity := Some(l.continuity.value.(receipts := [])))
  }

  lemma {:induction false} EntriesRebuilt(c: Crypto, l: LedgerState)
    requires Sized(l) && Good(c, l)
    ensures Good(c, Origin(l)) && Run(c, Origin(l), EntryOps(l)) == l
    decreases |l.events|
  {
    hide Good, AppendV5;
    if l.continuity.value.receipts == [] {
      assert Origin(l) == l by { assert Legacy(l) == l.events; }
    } else {
      GoodStep(c, l);
      EntriesRebuilt(c, Pop(l));
      assert Origin(Pop(l)) == Origin(l) by { assert Legacy(Pop(l)) == Legacy(l); }
      RunAppend(c, Origin(l), EntryOps(Pop(l)), EntryOp(LastEntry(l)));
    }
  }

  /** Every state of a run is a v4 ledger that verifies or a good v5 ledger. */
  ghost predicate Kept(c: Crypto, l: LedgerState) {
    if l.continuity.Some? then Good(c, l) else VerifyV4(c, l.events, l.lastHash)
  }

  lemma DoKeeps(c: Crypto, l: LedgerState, op: Op)
    requires Kept(c, l)
    ensures Kept(c, Do(c, l, op))
  {
    hide VerifyReceipts, VerifyV4, V4Ordered, V4Hash, HasId, EventId, TailCommitment;
    match op
    case AppendOp(e) => AppendKeeps(c, l, e);
    case MigrateOp(a) => MigrateKeeps(c, l, a);
    case EntryOp(e) => EntryKeeps(c, l, e);
  }

  lemma AppendKeeps(c: Crypto, l: LedgerState, e: RawEvent)
    requires Kept(c, l)
    ensures AppendV4(c, l, e).Ok? ==> Kept(c, AppendV4(c, l, e).value)
  {
    if AppendV4(c, l, e).Ok? {
      assert l == V4Ledger(c, l.owner, l.events);
      V4Step(c, l.owner, l.events, e);
    }
  }

  lemma MigrateKeeps(c: Crypto, l: LedgerState, a: Anchor)
    requires Kept(c, l)
    ensures Migrate(c, l, a).Ok? ==> Kept(c, Migrate(c, l, a).value)
  {
    hide V4Ordered, V4Hash, HasId, EventId, AnchorCommitment;
    if Migrate(c, l, a).Ok? {
      var m := Migrate(c, l, a).value;
      assert Legacy(m) == m.events;
    }
  }

  lemma EntryKeeps(c: Crypto, l: LedgerState, e: EntryV5)
    requires Kept(c, l)
    ensures AppendV5(c, l, e).Ok? ==> Kept(c, AppendV5(c, l, e).value)
  {
    hide VerifyReceipts, VerifyV4, HasId, EventId, TailCommitment, FreshIds;
    if AppendV5(c, l, e).Ok? {
      var m := AppendV5(c, l, e).value;
      assert m.events[..|m.events|-1] == l.events;
      assert m.continuity.value.receipts[..|l.continuity.value.receipts|] == l.continuity.value.receipts;
      assert Pop(m) == l && LastEntry(m) == e;
      GoodStep(c, m);
    }
  }

  lemma {:induction false} RunKeeps(c: Crypto, start: LedgerState, ops: seq<Op>)
    requires Kept(c, start)
    ensures Kept(c, Run(c, start, ops))
  {
    hide Kept;
    if ops != [] {
      RunKeeps(c, start, ops[..|ops|-1]);
      DoKeeps(c, Run(c, start, ops[..|ops|-1]), ops[|ops|-1]);
    }
  }

  lemma {:induction false} RunConcat(c: Crypto, start: LedgerState, ops: seq<Op>, more: seq<Op>)
    ensures Run(c, start, ops + more) == Run(c, Run(c, start, ops), more)
  {
    if more == [] {
      assert ops + more == ops;
    } else {
      var n := |more| - 1;
      assert (ops + more)[..|ops| + n] == ops + more[..n];
      RunConcat(c, start, ops, more[..n]);
    }
  }

  // ----- the main results -----

  /** `verify` accepts a v4 ledger exactly when some run from the empty ledger builds it. */
  lemma VerifyIsReachableV4(c: Crypto, l: LedgerState)
    requires l.continuity.None?
    ensures Verify(c, l) <==> exists ops :: Run(c, New(l.owner), ops) == l
  {
    if Verify(c, l) {
      V4Rebuilt(c, l.owner, l.events);
      assert Run(c, New(l.owner), Appends(l.events)) == l;
    }
    forall ops | Run(c, New(l.owner), ops) == l ensures Verify(c, l) {
      RunKeeps(c, New(l.owner), ops);
    }
  }

  /** A v5 ledger is built by appends, a migration and v5 appends exactly when it
      verifies, its legacy checksum is that of its legacy prefix (the verifier skips
      this when the prefix is empty) and no v5 event repeats an earlier event id. */
  lemma VerifyIsReachableV5(c: Crypto, l: LedgerState)
    requires l.continuity.Some?
    ensures (exists ops :: Run(c, New(l.owner), ops) == l)
       <==> Verify(c, l) && (l.continuity.value.legacyCount == 0 ==> l.lastHash == 0) && FreshIds(c, l)
  {
    hide VerifyReceipts, V4Ordered, HasId, EventId, AppendV4, AppendV5, Migrate, TailCommitment, FreshIds;
    EmptyKept(c, l.owner);
    forall ops | Run(c, New(l.owner), ops) == l ensures Good(c, l) {
      RunKeeps(c, New(l.owner), ops);
    }
    EmptyLegacy(c, l);
    if Verify(c, l) && (l.continuity.value.legacyCount == 0 ==> l.lastHash == 0) && FreshIds(c, l) {
      Migrated(c, l);
    }
  }

  lemma EmptyKept(c: Crypto, owner: Bytes32)
    ensures Kept(c, New(owner)) && Kept(c, FreshV5(owner))
  {
  }

  lemma EmptyLegacy(c: Crypto, l: LedgerState)
    requires l.continuity.Some?
    ensures l.continuity.value.legacyCount == 0 ==> (VerifyV4(c, Legacy(l), l.lastHash) <==> l.lastHash == 0)
  {
  }

  lemma Migrated(c: Crypto, l: LedgerState)
    requires Sized(l) && Good(c, l)
    ensures var ops := Appends(Legacy(l)) + [MigrateOp(l.continuity.value.anchor)] + EntryOps(l);
            Run(c, New(l.owner), ops) == l
  {
    hide VerifyReceipts, AppendV4, AppendV5, V4Ordered;
    var ops := Appends(Legacy(l));
    V4Rebuilt(c, l.owner, Legacy(l));
    var m := V4Ledger(c, l.owner, Legacy(l));
    RunAppend(c, New(l.owner), ops, MigrateOp(l.continuity.value.anchor));
    assert Migrate(c, m, l.continuity.value.anchor) == Ok(Origin(l));
    EntriesRebuilt(c, l);
    RunConcat(c, New(l.owner), ops + [MigrateOp(l.continuity.value.anchor)], EntryOps(l));
  }

  /** The verifier's duplicate check is complete when there is no legacy prefix. */
  lemma {:induction false} FreshChecksAll(c: Crypto, l: LedgerState, n: nat)
    requires Sized(l) && l.continuity.value.legacyCount == 0 && n <= |l.events|
    requires VerifyReceipts(c, l, n).Ok?
    ensures forall j | 0 <= j < n :: !HasId(c, l.events[..j], EventId(c, l.events[j]))
  {
    hide HasId, EventId, EntryCommitment, AnchorCommitment;
    if n > 0 { FreshChecksAll(c, l, n - 1); }
  }

  /** On ledgers started as v5 with a zero legacy checksum, `verify` is reachability. */
  lemma VerifyIsReachableFresh(c: Crypto, l: LedgerState)
    requires l.continuity.Some? && l.continuity.value.anchor == FreshAnchor(l.owner)
    requires l.continuity.value.legacyCount == 0 && l.lastHash == 0
    ensures Verify(c, l) <==> exists ops :: Run(c, FreshV5(l.owner), ops) == l
  {
    hide VerifyReceipts, V4Ordered, HasId, EventId, AppendV4, AppendV5, Migrate, TailCommitment;
    EmptyKept(c, l.owner);
    forall ops | Run(c, FreshV5(l.owner), ops) == l ensures Good(c, l) {
      RunKeeps(c, FreshV5(l.owner), ops);
    }
    if Verify(c, l) {
      EmptyLegacy(c, l);
      FreshChecksAll(c, l, |l.events|);
      EntriesRebuilt(c, l);
      assert Legacy(l) == [];
      assert Origin(l) == FreshV5(l.owner);
    }
  }

  /** A migration succeeds exactly on a v4 ledger of the anchor's owner whose events are in
      order, all v4, without repetition, and hash to the stored checksum; it keeps them all
      as legacy history and starts without receipts. */
  lemma MigrateExactly(c: Crypto, l: LedgerState, a: Anchor)
    ensures var res := Migrate(c, l, a);
            && (res.Ok? <==> && l.continuity.None? && a.owner == l.owner && V4Hash(c, l.events, |l.events|) == l.lastHash
                             && forall i | 0 <= i < |l.events| ::
                                  && l.events[i].version == 4 && (forall j | 0 <= j < i :: l.events[j] != l.events[i])
                                  && (i > 0 ==> l.events[i-1].timestamp <= l.events[i].timestamp))
            && (res.Ok? ==> res.value == LedgerState(l.events, l.owner, l.lastHash, Some(Continuity(a, |l.events|, []))))
  {
    OrderedExactly(l.events, |l.events|);
  }

  lemma {:induction false} OrderedExactly(events: seq<RawEvent>, n: nat)
    requires n <= |events|
    ensures V4Ordered(events, n)
       <==> forall i | 0 <= i < n ::
              && events[i].version == 4 && (forall j | 0 <= j < i :: events[j] != events[i])
              && (i > 0 ==> events[i-1].timestamp <= events[i].timestamp)
  {
    if n > 0 { OrderedExactly(events, n - 1); }
  }

  /** A v5 ledger refuses an event whose kind, payload, timestamp and signer it already
      holds in a v5 event, however that one was signed. */
  lemma StoredFactRefused(c: Crypto, l: LedgerState, x: RawEvent, entry: EntryV5)
    requires x in l.events && SameFact(x, entry.event) && x.version == PROTOCOL_V5
    ensures AppendV5(c, l, entry).Err?
  {
    hide EventPreimage, TailCommitment;
    EventsBind(x, entry.event);
    assert EventId(c, x) == EventId(c, entry.event);
  }

  // ----- the migrated duplicate check -----

  /** The ledger with `e` stored without the duplicate check. */
  function Forced(c: Crypto, l: LedgerState, e: RawEvent, signature: Bytes64): LedgerState
    requires Sized(l) && |l.continuity.value.receipts| <= U64_MAX
  {
    var k := l.continuity.value;
    var r := Receipt(|k.receipts|, TailCommitment(c, l), signature);
    l.(events := l.events + [e], continuity := Some(k.(receipts := k.receipts + [r])))
  }

  /** The duplicates the verifier finds: it compares v5 entry `i` with the first `i`
      events of the whole ledger. */
  lemma DuplicateCheckReach(c: Crypto, l: LedgerState, e: RawEvent, signature: Bytes64)
    requires Sized(l) && Verify(c, l) && |l.continuity.value.receipts| <= U64_MAX && e.version == PROTOCOL_V5
    ensures Verify(c, Forced(c, l, e, signature))
       <==> !HasId(c, l.events[..|l.continuity.value.receipts|], EventId(c, e))
  {
    hide EventId, TailCommitment, VerifyV4, EntryCommitment, AnchorCommitment, HasId, VerifyReceipts;
    var f, n := Forced(c, l, e, signature), |l.continuity.value.receipts|;
    PopForced(c, l, e, signature);
    ReceiptsOfPop(c, f, n);
    VerifierCarriesTail(c, l);
    LastReceipt(c, f);
    assert f.events[..n] == l.events[..n];
    assert Legacy(f) == Legacy(l);
  }

  lemma PopForced(c: Crypto, l: LedgerState, e: RawEvent, signature: Bytes64)
    requires Sized(l) && |l.continuity.value.receipts| <= U64_MAX
    ensures var f := Forced(c, l, e, signature);
            Sized(f) && Pop(f) == l && LastEntry(f).event == e
  {
    hide TailCommitment;
    var f, k := Forced(c, l, e, signature), l.continuity.value;
    assert f.events[..|l.events|] == l.events && f.continuity.value.receipts[..|k.receipts|] == k.receipts;
  }

  /** After a migration that check is too short: an event stored again right after
      itself is refused by `append_v5` and accepted by `verify`, on every ledger with
      a legacy prefix. */
  lemma RepeatSlipsThrough(c: Crypto, l: LedgerState, e: RawEvent, signature: Bytes64)
    requires Sized(l) && Good(c, l) && l.continuity.value.legacyCount > 0 && |l.continuity.value.receipts| < U64_MAX
    requires e.version == PROTOCOL_V5 && !HasId(c, l.events, EventId(c, e))
    ensures var once := Forced(c, l, e, signature);
            var twice := Forced(c, once, e, signature);
            && AppendV5(c, l, LastEntry(once)) == Ok(once) && Good(c, once)
            && AppendV5(c, once, LastEntry(twice)) == Err(DuplicateEvent)
            && Verify(c, twice) && !FreshIds(c, twice)
  {
    hide EventId, TailCommitment, VerifyV4, HasId, VerifyReceipts, FreshIds;
    var once := Forced(c, l, e, signature);
    PopForced(c, l, e, signature);
    EntryKeeps(c, l, LastEntry(once));
    PopForced(c, once, e, signature);
    assert once.events[..|once.continuity.value.receipts|] == l.events[..|once.continuity.value.receipts|];
    IdsPrefix(c, l.events[..|once.continuity.value.receipts|], l.events, EventId(c, e));
    HasOwnId(c, once.events, e);
    DuplicateCheckReach(c, once, e, signature);
    FreshIdsOfPop(c, Forced(c, once, e, signature));
  }

  lemma HasOwnId(c: Crypto, events: seq<RawEvent>, e: RawEvent)
    ensures e in events ==> HasId(c, events, EventId(c, e))
  {
  }

  const ZEROS: Bytes32 := seq(32, _ => 0)
  const ONES: Bytes32 := seq(32, _ => 1)
  const SIGNATURE: Bytes64 := seq(64, _ => 0)

  /** One such ledger: `verify` accepts a v5 event id twice. */
  lemma RepeatExists()
    ensures exists c, l :: Verify(c, l) && l.continuity.Some? && !FreshIds(c, l)
  {
    hide Verify, FreshIds, Good, Forced, AppendV5;
    var c := Crypto((x: Bytes) => if |x| < 10 then ZEROS else ONES, (h: u64, e: RawEvent) => 0);
    var legacy := RawEvent(PROTOCOL_V4, CapsuleCreatedKind, [], 0, SIGNATURE, ZEROS);
    var e := RawEvent(PROTOCOL_V5, CapsuleCreatedKind, [], 0, SIGNATURE, ZEROS);
    OneEventMigrates(c, legacy);
    var l := Migrate(c, V4Ledger(c, ZEROS, [legacy]), MIGRATION).value;
    assert EventId(c, legacy) == ZEROS && ZEROS[0] == 0 && ONES[0] == 1;
    assert EventId(c, e) == ONES;
    RepeatSlipsThrough(c, l, e, SIGNATURE);
    PopForced(c, l, e, SIGNATURE);
    PopForced(c, Forced(c, l, e, SIGNATURE), e, SIGNATURE);
    assert Verify(c, Forced(c, Forced(c, l, e, SIGNATURE), e, SIGNATURE));
  }

  const MIGRATION := LegacyAnchor(ZEROS, ZEROS, SIGNATURE)

  /** A one-event v4 ledger can be migrated. */
  lemma OneEventMigrates(c: Crypto, e: RawEvent)
    requires e.version == PROTOCOL_V4
    ensures var res := Migrate(c, V4Ledger(c, ZEROS, [e]), MIGRATION);
            && res.Ok? && Sized(res.value) && Good(c, res.value) && res.value.events == [e]
            && res.value.continuity.value.legacyCount == 1 && res.value.continuity.value.receipts == []
  {
    hide Good;
    var l := V4Ledger(c, ZEROS, [e]);
    assert V4Ordered([e], 1) by { assert V4Ordered([e], 0); }
    MigrateKeeps(c, l, MIGRATION);
  }
}
