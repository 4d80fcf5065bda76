/** The head commitment of a v5 ledger binds its whole history. Nothing is assumed
    about SHA-256: from two histories with the same head, either the histories are
    equal or two different preimages with the same digest are produced. */
module LedgerBinding {
  import opened Common
  import opened Facts
  import opened Ledger

  // ----- what is bound -----

  /** The fields an event id commits to; the event's signature is not one of them. */
  predicate SameFact(a: RawEvent, b: RawEvent) {
    a.version == b.version && a.kind == b.kind && a.payload == b.payload
    && a.timestamp == b.timestamp && a.signer == b.signer
  }

  /** The anchors agree except for the signature on a legacy anchor. */
  predicate SameAnchor(a: Anchor, b: Anchor) {
    a.owner == b.owner && a.FreshAnchor? == b.FreshAnchor?
    && (a.LegacyAnchor? && b.LegacyAnchor? ==> a.snapshot == b.snapshot)
  }

  /** A v5 history, apart from its receipts. */
  datatype Chain = Chain(anchor: Anchor, entries: seq<RawEvent>)

  predicate WellFormed(h: Chain) {
    |h.entries| <= U64_MAX + 1 && forall e | e in h.entries :: e.version == PROTOCOL_V5
  }

  predicate SameChain(a: Chain, b: Chain) {
    SameAnchor(a.anchor, b.anchor) && |a.entries| == |b.entries|
    && forall i | 0 <= i < |a.entries| :: SameFact(a.entries[i], b.entries[i])
  }

  function Head(c: Crypto, h: Chain): Bytes32
    requires |h.entries| <= U64_MAX + 1
  {
    CommitmentAfter(c, h.anchor.owner, h.anchor, h.entries, |h.entries|)
  }

  predicate Collides(c: Crypto, x: Bytes, y: Bytes) { x != y && (c.sha256)(x) == (c.sha256)(y) }

  // ----- extracting a collision -----

  function Shorter(h: Chain): Chain
    requires h.entries != []
  {
    h.(entries := h.entries[..|h.entries|-1])
  }

  function LastEvent(h: Chain): RawEvent
    requires h.entries != []
  {
    h.entries[|h.entries|-1]
  }

  /** What the head hashes. */
  function HeadPreimage(c: Crypto, h: Chain): Bytes
    requires |h.entries| <= U64_MAX + 1
  {
    if h.entries == [] then AnchorPreimage(h.anchor)
    else EntryPreimage(h.anchor.owner, |h.entries| - 1, Head(c, Shorter(h)), EventId(c, LastEvent(h)))
  }

  /** Walks both histories back from their heads to the first place where different
      bytes were hashed. */
  function Extract(c: Crypto, a: Chain, b: Chain): Option<(Bytes, Bytes)>
    requires |a.entries| <= U64_MAX + 1 && |b.entries| <= U64_MAX + 1
    decreases |a.entries|
  {
    var x, y := HeadPreimage(c, a), HeadPreimage(c, b);
    if x != y then Some((x, y))
    else if a.entries == [] || b.entries == [] then None
    else
      var e, f := EventPreimage(LastEvent(a)), EventPreimage(LastEvent(b));
      if e != f then Some((e, f)) else Extract(c, Shorter(a), Shorter(b))
  }

  /** Equal heads: same history, or a collision. Same history: equal heads and no collision. */
  lemma {:induction false} HeadBinds(c: Crypto, a: Chain, b: Chain)
    requires WellFormed(a) && WellFormed(b)
    ensures match Extract(c, a, b)
            case Some((x, y)) => !SameChain(a, b) && (Head(c, a) == Head(c, b) ==> Collides(c, x, y))
            case None => SameChain(a, b) && Head(c, a) == Head(c, b)
    decreases |a.entries|
  {
    hide HeadPreimage, EventPreimage, AnchorPreimage, EntryPreimage, Head, CommitmentAfter;
    HeadIsHash(c, a);
    HeadIsHash(c, b);
    var x, y := HeadPreimage(c, a), HeadPreimage(c, b);
    if a.entries == [] || b.entries == [] {
      AnchorsBind(c, a, b);
    } else {
      var s, t := Shorter(a), Shorter(b);
      HeadBinds(c, s, t);
      EntriesBind(c, a, b);
      EventsBind(LastEvent(a), LastEvent(b));
      SameChainStep(a, b);
    }
  }

  lemma SameChainStep(a: Chain, b: Chain)
    requires a.entries != [] && b.entries != []
    ensures SameChain(a, b) <==> SameChain(Shorter(a), Shorter(b)) && SameFact(LastEvent(a), LastEvent(b))
  {
    var s, t := Shorter(a), Shorter(b);
    if SameChain(a, b) {
      forall i | 0 <= i < |s.entries| ensures SameFact(s.entries[i], t.entries[i]) {
        assert SameFact(a.entries[i], b.entries[i]);
      }
    }
    if SameChain(s, t) && SameFact(LastEvent(a), LastEvent(b)) {
      forall i | 0 <= i < |a.entries| ensures SameFact(a.entries[i], b.entries[i]) {
        if i < |s.entries| { assert SameFact(s.entries[i], t.entries[i]); }
      }
    }
  }

  lemma HeadIsHash(c: Crypto, h: Chain)
    requires |h.entries| <= U64_MAX + 1
    ensures Head(c, h) == (c.sha256)(HeadPreimage(c, h))
  {
    if h.entries != [] {
      PrefixCommitment(c, h.anchor.owner, h.anchor, h.entries, Shorter(h).entries, |h.entries| - 1);
    }
  }

  lemma {:induction false} PrefixCommitment(
    c: Crypto, owner: Bytes32, anchor: Anchor, entries: seq<RawEvent>, others: seq<RawEvent>, n: nat)
    requires n <= |entries| && n <= |others| && n <= U64_MAX + 1 && entries[..n] == others[..n]
    ensures CommitmentAfter(c, owner, anchor, entries, n) == CommitmentAfter(c, owner, anchor, others, n)
  {
    if n > 0 {
      assert entries[..n-1] == entries[..n][..n-1] == others[..n][..n-1] == others[..n-1];
      assert entries[n-1] == entries[..n][n-1] == others[..n][n-1] == others[n-1];
      PrefixCommitment(c, owner, anchor, entries, others, n - 1);
    }
  }

  // ----- the encodings are injective -----

  lemma {:induction false} BigEndianInjective(m: nat, n: nat, width: nat)
    requires m < Power256(width) && n < Power256(width) && BigEndian(m, width) == BigEndian(n, width)
    ensures m == n
  {
    if width > 0 {
      var x, y := BigEndian(m, width), BigEndian(n, width);
      assert x[..width-1] == BigEndian(m / 256, width - 1) && y[..width-1] == BigEndian(n / 256, width - 1);
      assert x[width-1] == m % 256 && y[width-1] == n % 256;
      BigEndianInjective(m / 256, n / 256, width - 1);
    }
  }

  function Power256(n: nat): nat { if n == 0 then 1 else 256 * Power256(n - 1) }

  lemma WordInjective(m: u64, n: u64)
    requires BigEndian(m, 8) == BigEndian(n, 8)
    ensures m == n
  {
    assert Power256(4) == 0x1_0000_0000;
    assert Power256(8) == U64_MAX + 1;
    BigEndianInjective(m, n, 8);
  }

  lemma AnchorsBind(c: Crypto, a: Chain, b: Chain)
    requires |a.entries| <= U64_MAX + 1 && |b.entries| <= U64_MAX + 1
    requires a.entries == [] || b.entries == []
    ensures HeadPreimage(c, a) == HeadPreimage(c, b) <==> SameChain(a, b)
  {
    hide Ascii, BigEndian, Head, EventId;
    AnchorLength(a.anchor);
    AnchorLength(b.anchor);
    if a.entries == [] && b.entries == [] {
      AnchorInjective(a.anchor, b.anchor);
    } else if a.entries == [] {
      EntryLength(b.anchor.owner, |b.entries| - 1, Head(c, Shorter(b)), EventId(c, LastEvent(b)));
    } else {
      EntryLength(a.anchor.owner, |a.entries| - 1, Head(c, Shorter(a)), EventId(c, LastEvent(a)));
    }
  }

  lemma AnchorLength(a: Anchor)
    ensures |AnchorPreimage(a)| == if a.FreshAnchor? then 54 else 89
  {
    assert |FRESH_ANCHOR_TAG| == 22 && |LEGACY_ANCHOR_TAG| == 25;
  }

  lemma EntryLength(owner: Bytes32, sequence: u64, previous: Bytes32, id: Bytes32)
    ensures |EntryPreimage(owner, sequence, previous, id)| == 125
  {
    assert |LEDGER_ENTRY_TAG| == 21;
  }

  lemma AnchorInjective(a: Anchor, b: Anchor)
    ensures AnchorPreimage(a) == AnchorPreimage(b) <==> SameAnchor(a, b)
  {
    hide Ascii;
    AnchorLength(a);
    AnchorLength(b);
    var x, y := AnchorPreimage(a), AnchorPreimage(b);
    if x == y && a.FreshAnchor? {
      assert a.owner == x[22..] && b.owner == y[22..];
    } else if x == y {
      assert a.owner == x[25..57] && b.owner == y[25..57];
      assert a.snapshot == x[57..] && b.snapshot == y[57..];
    }
  }

  lemma EntriesBind(c: Crypto, a: Chain, b: Chain)
    requires |a.entries| <= U64_MAX + 1 && |b.entries| <= U64_MAX + 1
    requires a.entries != [] && b.entries != []
    ensures HeadPreimage(c, a) == HeadPreimage(c, b)
       <==> (&& a.anchor.owner == b.anchor.owner && |a.entries| == |b.entries|
             && Head(c, Shorter(a)) == Head(c, Shorter(b)) && EventId(c, LastEvent(a)) == EventId(c, LastEvent(b)))
  {
    hide Head, EventId;
    var s, t := Head(c, Shorter(a)), Head(c, Shorter(b));
    EntryInjective(a.anchor.owner, |a.entries| - 1, s, EventId(c, LastEvent(a)),
                   b.anchor.owner, |b.entries| - 1, t, EventId(c, LastEvent(b)));
  }

  lemma EntryInjective(o: Bytes32, m: u64, p: Bytes32, i: Bytes32, o': Bytes32, m': u64, p': Bytes32, i': Bytes32)
    ensures EntryPreimage(o, m, p, i) == EntryPreimage(o', m', p', i') <==> o == o' && m == m' && p == p' && i == i'
  {
    hide Ascii, BigEndian;
    var x, y := EntryPreimage(o, m, p, i), EntryPreimage(o', m', p', i');
    if x == y {
      assert |LEDGER_ENTRY_TAG| == 21;
      assert o == x[21..53] && o' == y[21..53];
      assert BigEndian(m, 8) == x[53..61] && BigEndian(m', 8) == y[53..61];
      assert p == x[61..93] && p' == y[61..93];
      assert i == x[93..] && i' == y[93..];
      WordInjective(m, m');
    }
  }

  lemma EventsBind(e: RawEvent, f: RawEvent)
    requires e.version == PROTOCOL_V5 && f.version == PROTOCOL_V5
    ensures EventPreimage(e) == EventPreimage(f) <==> SameFact(e, f)
  {
    hide Ascii, BigEndian, KindCode;
    var x, y := V5Preimage(e), V5Preimage(f);
    if x == y {
      assert |DOMAIN_EVENT_TAG| == 21;
      var n := |e.payload|;
      assert |x| == 71 + n && |y| == 71 + |f.payload|;
      assert KindCode(e.kind) == x[22] && KindCode(f.kind) == y[22];
      assert e.payload == x[31..31+n] && f.payload == y[31..31+n];
      assert BigEndian(e.timestamp, 8) == x[31+n..39+n] && BigEndian(f.timestamp, 8) == y[31+n..39+n];
      assert e.signer == x[39+n..] && f.signer == y[39+n..];
      WordInjective(e.timestamp, f.timestamp);
      KindInjective(e.kind, f.kind);
    }
  }

  lemma KindInjective(k: EventKind, m: EventKind)
    ensures KindCode(k) == KindCode(m) ==> k == m
  {
  }

  // ----- ledgers -----

  /** The history a ledger's head commits to. */
  function ChainOf(l: LedgerState): Chain
    requires l.continuity.Some? && l.continuity.value.legacyCount <= |l.events|
  {
    Chain(l.continuity.value.anchor, l.events[l.continuity.value.legacyCount..])
  }

  /** In a verified ledger the receipts are the running commitments, and the head
      is the commitment over the whole v5 history. */
  lemma VerifiedHead(c: Crypto, l: LedgerState)
    requires VerifyV5(c, l).None?
    ensures var h := ChainOf(l);
            && WellFormed(h) && h.anchor.owner == l.owner
            && |l.continuity.value.receipts| == |h.entries|
            && TailCommitment(c, l) == Head(c, h)
            && forall i | 0 <= i < |h.entries| ::
                 var r := l.continuity.value.receipts[i];
                 r.sequence == i && r.previous == CommitmentAfter(c, l.owner, h.anchor, h.entries, i)
  {
    hide EntryCommitment, AnchorCommitment, ReceiptFault, VerifyV4;
    var k, h := l.continuity.value, ChainOf(l);
    ReceiptsAreCommitments(c, l, |k.receipts|);
    if |k.receipts| > 0 {
      assert h.entries[|h.entries|-1] == l.events[|l.events|-1];
    }
  }

  lemma {:induction false} ReceiptsAreCommitments(c: Crypto, l: LedgerState, n: nat)
    requires l.continuity.Some? && l.continuity.value.legacyCount + |l.continuity.value.receipts| == |l.events|
    requires n <= |l.continuity.value.receipts| && VerifyReceipts(c, l, n).Ok?
    requires l.continuity.value.anchor.owner == l.owner
    ensures n <= U64_MAX + 1
    ensures var h := ChainOf(l);
            && VerifyReceipts(c, l, n).value == CommitmentAfter(c, l.owner, h.anchor, h.entries, n)
            && (forall i | 0 <= i < n :: h.entries[i].version == PROTOCOL_V5)
            && forall i | 0 <= i < n ::
                 var r := l.continuity.value.receipts[i];
                 r.sequence == i && r.previous == CommitmentAfter(c, l.owner, h.anchor, h.entries, i)
  {
    hide EntryCommitment, AnchorCommitment, EventId;
    if n > 0 {
      ReceiptsAreCommitments(c, l, n - 1);
      assert ChainOf(l).entries[n-1] == l.events[l.continuity.value.legacyCount + n - 1];
    }
  }

  /** Two ledgers that verify and have the same head commitment have the same owner,
      anchor content, length and, entry by entry, the same facts; or the walk back
      produces two different byte strings with the same digest. */
  lemma HeadBindsHistory(c: Crypto, l: LedgerState, m: LedgerState)
    requires VerifyV5(c, l).None? && VerifyV5(c, m).None?
    requires TailCommitment(c, l) == TailCommitment(c, m)
    ensures WellFormed(ChainOf(l)) && WellFormed(ChainOf(m))
    ensures match Extract(c, ChainOf(l), ChainOf(m))
            case Some((x, y)) => Collides(c, x, y)
            case None => l.owner == m.owner && SameChain(ChainOf(l), ChainOf(m))
  {
    hide VerifyV4, VerifyReceipts, TailCommitment, Head, Extract, CommitmentAfter;
    VerifiedHead(c, l);
    VerifiedHead(c, m);
    HeadBinds(c, ChainOf(l), ChainOf(m));
  }

  /** The other direction: ledgers with the same facts have the same head, however
      their events, receipts and anchors were signed. */
  lemma HistoryFixesHead(c: Crypto, l: LedgerState, m: LedgerState)
    requires VerifyV5(c, l).None? && VerifyV5(c, m).None?
    requires SameChain(ChainOf(l), ChainOf(m))
    ensures TailCommitment(c, l) == TailCommitment(c, m)
  {
    hide VerifyV4, VerifyReceipts, TailCommitment, Head, CommitmentAfter;
    VerifiedHead(c, l);
    VerifiedHead(c, m);
    HeadBinds(c, ChainOf(l), ChainOf(m));
  }
}
