/** The append-only ledger: protocol v4 with its running checksum, protocol v5
    with its chained commitments, the migration between them and the structural
    verification (core/hivra-core/src/{event,ledger,ledger_v5}.rs). SHA-256 and the
    v4 checksum are parameters. */
module Ledger {
  import opened Common
  import opened Facts

  type byte = n: nat | n < 256
  type Bytes = seq<byte>
  type Bytes32 = s: Bytes | |s| == 32 witness seq(32, _ => 0)
  type Bytes64 = s: Bytes | |s| == 64 witness seq(64, _ => 0)

  datatype RawEvent = RawEvent(
    version: byte, kind: EventKind, payload: Bytes, timestamp: u64, signature: Bytes64, signer: Bytes32)

  /** The two hash functions the ledger relies on. */
  datatype Crypto = Crypto(sha256: Bytes -> Bytes32, chain: (u64, RawEvent) -> u64)

  const PROTOCOL_V4: byte := 4
  const PROTOCOL_V5: byte := 5

  function KindCode(k: EventKind): byte {
    match k
    case CapsuleCreatedKind => 0
    case InvitationSentKind => 1
    case InvitationAcceptedKind => 2
    case InvitationRejectedKind => 3
    case InvitationExpiredKind => 4
    case StarterCreatedKind => 5
    case StarterBurnedKind => 6
    case RelationshipEstablishedKind => 7
    case RelationshipBrokenKind => 8
    case InvitationReceivedKind => 9
  }

  /** Big-endian bytes of the low `width` bytes of `n`. */
  function BigEndian(n: nat, width: nat): (b: Bytes)
    ensures |b| == width
  {
    if width == 0 then [] else BigEndian(n / 256, width - 1) + [n % 256]
  }

  function Ascii(s: string): (b: Bytes)
    ensures |b| == |s|
  {
    seq(|s|, i requires 0 <= i < |s| => s[i] as int % 256)
  }

  const DOMAIN_EVENT_TAG := "hivra/domain-event/v5"
  const FRESH_ANCHOR_TAG := "hivra/ledger-anchor/v5"
  const LEGACY_ANCHOR_TAG := "hivra/legacy-v4-anchor/v5"
  const LEDGER_ENTRY_TAG := "hivra/ledger-entry/v5"

  /** What the event id hashes. */
  function EventPreimage(e: RawEvent): Bytes {
    if e.version == PROTOCOL_V4 then [e.version, KindCode(e.kind)] + e.payload
    else if e.version == PROTOCOL_V5 then V5Preimage(e)
    else [e.version, KindCode(e.kind)] + e.payload + BigEndian(e.timestamp, 8) + e.signer
  }

  function V5Preimage(e: RawEvent): Bytes {
    Ascii(DOMAIN_EVENT_TAG) + [e.version, KindCode(e.kind)] + BigEndian(|e.payload|, 8)
    + e.payload + BigEndian(e.timestamp, 8) + e.signer
  }

  function EventId(c: Crypto, e: RawEvent): Bytes32 { (c.sha256)(EventPreimage(e)) }

  datatype Anchor = FreshAnchor(owner: Bytes32) | LegacyAnchor(owner: Bytes32, snapshot: Bytes32, signature: Bytes64)

  function AnchorPreimage(a: Anchor): Bytes {
    match a
    case FreshAnchor(owner) => Ascii(FRESH_ANCHOR_TAG) + owner
    case LegacyAnchor(owner, snapshot, _) => Ascii(LEGACY_ANCHOR_TAG) + owner + snapshot
  }

  function EntryPreimage(owner: Bytes32, sequence: u64, previous: Bytes32, id: Bytes32): Bytes {
    Ascii(LEDGER_ENTRY_TAG) + owner + BigEndian(sequence, 8) + previous + id
  }

  function AnchorCommitment(c: Crypto, a: Anchor): Bytes32 { (c.sha256)(AnchorPreimage(a)) }

  function EntryCommitment(c: Crypto, owner: Bytes32, sequence: u64, previous: Bytes32, e: RawEvent): Bytes32 {
    (c.sha256)(EntryPreimage(owner, sequence, previous, EventId(c, e)))
  }

  // ----- ledgers -----

  datatype Receipt = Receipt(sequence: u64, previous: Bytes32, signature: Bytes64)

  datatype Continuity = Continuity(anchor: Anchor, legacyCount: nat, receipts: seq<Receipt>)

  datatype LedgerState = LedgerState(
    events: seq<RawEvent>, owner: Bytes32, lastHash: u64, continuity: Option<Continuity>)

  datatype EntryV5 = EntryV5(owner: Bytes32, sequence: u64, previous: Bytes32, event: RawEvent, signature: Bytes64)

  datatype Error =
    | InvalidOrder | WrongVersion | DuplicateEvent
    | NotContinuousLedger | AnchorOwnerMismatch | EntryOwnerMismatch | InvalidSequence
    | InvalidPreviousCommitment | DuplicateDomainEvent | WrongEventVersion

  function New(owner: Bytes32): LedgerState { LedgerState([], owner, 0, None) }

  function FreshV5(owner: Bytes32): LedgerState {
    LedgerState([], owner, 0, Some(Continuity(FreshAnchor(owner), 0, [])))
  }

  predicate HasId(c: Crypto, events: seq<RawEvent>, id: Bytes32) {
    exists e | e in events :: EventId(c, e) == id
  }

  function AppendV4(c: Crypto, l: LedgerState, e: RawEvent): Result<LedgerState, Error> {
    if l.continuity.Some? then Err(WrongEventVersion)
    else if e.version != PROTOCOL_V4 then Err(WrongVersion)
    else if e in l.events then Err(DuplicateEvent)
    else if |l.events| > 0 && e.timestamp < l.events[|l.events|-1].timestamp then Err(InvalidOrder)
    else Ok(l.(events := l.events + [e], lastHash := (c.chain)(l.lastHash, e)))
  }

  /** The commitment the next v5 entry must name. */
  function TailCommitment(c: Crypto, l: LedgerState): Bytes32
    requires l.continuity.Some?
  {
    var k := l.continuity.value;
    if |k.receipts| > 0 && |l.events| > 0 then
      var r := k.receipts[|k.receipts|-1];
      EntryCommitment(c, l.owner, r.sequence, r.previous, l.events[|l.events|-1])
    else AnchorCommitment(c, k.anchor)
  }

  function AppendV5(c: Crypto, l: LedgerState, entry: EntryV5): Result<LedgerState, Error> {
    if l.continuity.None? then Err(NotContinuousLedger)
    else
      var k := l.continuity.value;
      if k.anchor.owner != l.owner then Err(AnchorOwnerMismatch)
      else if entry.owner != l.owner then Err(EntryOwnerMismatch)
      else if entry.event.version != PROTOCOL_V5 then Err(WrongEventVersion)
      else if entry.sequence != |k.receipts| then Err(InvalidSequence)
      else if entry.previous != TailCommitment(c, l) then Err(InvalidPreviousCommitment)
      else if HasId(c, l.events, EventId(c, entry.event)) then Err(DuplicateEvent)
      else
        var r := Receipt(entry.sequence, entry.previous, entry.signature);
        Ok(l.(events := l.events + [entry.event], continuity := Some(k.(receipts := k.receipts + [r]))))
  }

  // ----- verification -----

  /** The first `n` events are acceptable v4 history. */
  predicate V4Ordered(events: seq<RawEvent>, n: nat)
    requires n <= |events|
  {
    n == 0 ||
    (&& V4Ordered(events, n - 1)
     && events[n-1].version == PROTOCOL_V4
     && events[n-1] !in events[..n-1]
     && (n > 1 ==> events[n-2].timestamp <= events[n-1].timestamp))
  }

  function V4Hash(c: Crypto, events: seq<RawEvent>, n: nat): u64
    requires n <= |events|
  {
    if n == 0 then 0 else (c.chain)(V4Hash(c, events, n - 1), events[n-1])
  }

  predicate VerifyV4(c: Crypto, events: seq<RawEvent>, expected: u64) {
    V4Ordered(events, |events|) && V4Hash(c, events, |events|) == expected
  }

  /** The commitment after `n` v5 entries of this owner. */
  function CommitmentAfter(c: Crypto, owner: Bytes32, anchor: Anchor, entries: seq<RawEvent>, n: nat): Bytes32
    requires n <= |entries| && n <= U64_MAX + 1
  {
    if n == 0 then AnchorCommitment(c, anchor)
    else EntryCommitment(c, owner, n - 1, CommitmentAfter(c, owner, anchor, entries, n - 1), entries[n-1])
  }

  /** Checks the first `n` receipts against their events. The duplicate check looks
      at the first `i` events of the whole ledger, not of the v5 part. */
  function VerifyReceipts(c: Crypto, l: LedgerState, n: nat): (res: Result<Bytes32, Error>)
    requires l.continuity.Some? && l.continuity.value.legacyCount + |l.continuity.value.receipts| == |l.events|
    requires n <= |l.continuity.value.receipts|
  {
    var k := l.continuity.value;
    if n == 0 then Ok(AnchorCommitment(c, k.anchor))
    else
      match VerifyReceipts(c, l, n - 1)
      case Err(e) => Err(e)
      case Ok(previous) =>
        var r := k.receipts[n-1];
        match ReceiptFault(c, l, n - 1, previous)
        case Some(fault) => Err(fault)
        case None => Ok(EntryCommitment(c, l.owner, r.sequence, r.previous, l.events[k.legacyCount + n - 1]))
  }

  /** What is wrong with receipt `i`, when `previous` is the commitment before it. */
  function ReceiptFault(c: Crypto, l: LedgerState, i: nat, previous: Bytes32): Option<Error>
    requires l.continuity.Some? && l.continuity.value.legacyCount + |l.continuity.value.receipts| == |l.events|
    requires i < |l.continuity.value.receipts|
  {
    var r, e := l.continuity.value.receipts[i], l.events[l.continuity.value.legacyCount + i];
    if e.version != PROTOCOL_V5 then Some(WrongEventVersion)
    else if r.sequence != i then Some(InvalidSequence)
    else if r.previous != previous then Some(InvalidPreviousCommitment)
    else if HasId(c, l.events[..i], EventId(c, e)) then Some(DuplicateDomainEvent)
    else None
  }

  /** `verify_v5_structure`. */
  function VerifyV5(c: Crypto, l: LedgerState): Option<Error> {
    if l.continuity.None? then Some(NotContinuousLedger)
    else
      var k := l.continuity.value;
      if k.anchor.owner != l.owner then Some(AnchorOwnerMismatch)
      else if k.legacyCount > |l.events| || |k.receipts| != |l.events| - k.legacyCount then Some(InvalidSequence)
      else if k.legacyCount > 0 && !VerifyV4(c, l.events[..k.legacyCount], l.lastHash) then Some(InvalidPreviousCommitment)
      else
        var res := VerifyReceipts(c, l, |k.receipts|);
        if res.Err? then Some(res.error) else None
  }

  predicate Verify(c: Crypto, l: LedgerState) {
    if l.continuity.Some? then VerifyV5(c, l).None? else VerifyV4(c, l.events, l.lastHash)
  }

  function Migrate(c: Crypto, l: LedgerState, anchor: Anchor): Result<LedgerState, Error> {
    if l.continuity.Some? then Err(NotContinuousLedger)
    else if anchor.owner != l.owner then Err(AnchorOwnerMismatch)
    else if !Verify(c, l) then Err(InvalidPreviousCommitment)
    else Ok(l.(continuity := Some(Continuity(anchor, |l.events|, []))))
  }

  // ----- the mutable ledger -----

  class LedgerStore {
    var events: seq<RawEvent>
    const owner: Bytes32
    var lastHash: u64
    var continuity: Option<Continuity>

    function State(): LedgerState
      reads this
    {
      LedgerState(events, owner, lastHash, continuity)
    }

    constructor (l: LedgerState)
      ensures State() == l
    {
      events := l.events;
      owner := l.owner;
      lastHash := l.lastHash;
      continuity := l.continuity;
    }

    method Append(c: Crypto, e: RawEvent) returns (error: Option<Error>)
      modifies this
      ensures match AppendV4(c, old(State()), e)
              case Ok(l) => error == None && State() == l
              case Err(x) => error == Some(x) && State() == old(State())
    {
      if continuity.Some? { return Some(WrongEventVersion); }
      if e.version != PROTOCOL_V4 { return Some(WrongVersion); }
      if exists existing | existing in events :: existing == e { return Some(DuplicateEvent); }
      if |events| > 0 && e.timestamp < events[|events|-1].timestamp { return Some(InvalidOrder); }
      lastHash := (c.chain)(lastHash, e);
      events := events + [e];
      error := None;
    }

    method AppendEntry(c: Crypto, entry: EntryV5) returns (error: Option<Error>)
      modifies this
      ensures match AppendV5(c, old(State()), entry)
              case Ok(l) => error == None && State() == l
              case Err(x) => error == Some(x) && State() == old(State())
    {
      if continuity.None? { return Some(NotContinuousLedger); }
      var k := continuity.value;
      if k.anchor.owner != owner { return Some(AnchorOwnerMismatch); }
      if entry.owner != owner { return Some(EntryOwnerMismatch); }
      if entry.event.version != PROTOCOL_V5 { return Some(WrongEventVersion); }
      if entry.sequence != |k.receipts| { return Some(InvalidSequence); }
      if entry.previous != TailCommitment(c, State()) { return Some(InvalidPreviousCommitment); }
      if HasId(c, events, EventId(c, entry.event)) { return Some(DuplicateEvent); }
      events := events + [entry.event];
      continuity := Some(k.(receipts := k.receipts + [Receipt(entry.sequence, entry.previous, entry.signature)]));
      error := None;
    }

    /** `verify`. */
    method VerifyAll(c: Crypto) returns (ok: bool)
      ensures ok == Verify(c, State())
    {
      if continuity.Some? {
        var error := VerifyStructure(c);
        return error.None?;
      }
      ok := VerifyV4Events(c, events, lastHash);
    }

    /** `verify_v5_structure`: one pass carrying the previous commitment. */
    method VerifyStructure(c: Crypto) returns (error: Option<Error>)
      ensures error == VerifyV5(c, State())
    {
      hide ReceiptFault, EntryCommitment, AnchorCommitment, VerifyV4, VerifyReceipts;
      NoReceipts(c, State());
      if continuity.None? { return Some(NotContinuousLedger); }
      var k := continuity.value;
      if k.anchor.owner != owner { return Some(AnchorOwnerMismatch); }
      if k.legacyCount > |events| || |k.receipts| != |events| - k.legacyCount { return Some(InvalidSequence); }
      if k.legacyCount > 0 {
        var legacy := VerifyV4Events(c, events[..k.legacyCount], lastHash);
        if !legacy { return Some(InvalidPreviousCommitment); }
      }
      var previous := AnchorCommitment(c, k.anchor);
      var i := 0;
      while i < |k.receipts|
        invariant 0 <= i <= |k.receipts|
        invariant VerifyReceipts(c, State(), i) == Ok(previous)
      {
        var fault := ReceiptFault(c, State(), i, previous);
        ReceiptsStep(c, State(), i);
        if fault.Some? { return fault; }
        var r := k.receipts[i];
        previous := EntryCommitment(c, owner, r.sequence, r.previous, events[k.legacyCount + i]);
        i := i + 1;
      }
      error := None;
    }
  }

  /** One pass over v4 history, carrying the checksum and the last timestamp. */
  method VerifyV4Events(c: Crypto, events: seq<RawEvent>, expected: u64) returns (ok: bool)
    ensures ok == VerifyV4(c, events, expected)
  {
    var hash: u64 := 0;
    var last: Option<u64> := None;
    var n := 0;
    while n < |events|
      invariant 0 <= n <= |events|
      invariant V4Ordered(events, n) && hash == V4Hash(c, events, n)
      invariant last == if n == 0 then None else Some(events[n-1].timestamp)
    {
      var e := events[n];
      if e.version != PROTOCOL_V4 || e in events[..n] || (last.Some? && e.timestamp < last.value) {
        OrderedPrefix(events, n + 1, |events|);
        return false;
      }
      last := Some(e.timestamp);
      hash := (c.chain)(hash, e);
      n := n + 1;
    }
    ok := hash == expected;
  }

  lemma {:induction false} OrderedPrefix(events: seq<RawEvent>, m: nat, n: nat)
    requires m <= n <= |events|
    ensures V4Ordered(events, n) ==> V4Ordered(events, m)
  {
    if m < n { OrderedPrefix(events, m, n - 1); }
  }

  lemma {:induction false} ReceiptErrorStays(c: Crypto, l: LedgerState, m: nat, n: nat)
    requires l.continuity.Some? && l.continuity.value.legacyCount + |l.continuity.value.receipts| == |l.events|
    requires m <= n <= |l.continuity.value.receipts| && VerifyReceipts(c, l, m).Err?
    ensures VerifyReceipts(c, l, n) == VerifyReceipts(c, l, m)
  {
    if m < n { ReceiptErrorStays(c, l, m, n - 1); }
  }

  lemma ReceiptsStep(c: Crypto, l: LedgerState, i: nat)
    requires l.continuity.Some? && l.continuity.value.legacyCount + |l.continuity.value.receipts| == |l.events|
    requires i < |l.continuity.value.receipts| && VerifyReceipts(c, l, i).Ok?
    ensures var k := l.continuity.value;
            var previous := VerifyReceipts(c, l, i).value;
            match ReceiptFault(c, l, i, previous)
            case None =>
              VerifyReceipts(c, l, i + 1)
              == Ok(EntryCommitment(c, l.owner, k.receipts[i].sequence, k.receipts[i].previous, l.events[k.legacyCount + i]))
            case Some(fault) => VerifyReceipts(c, l, |k.receipts|) == Err(fault)
  {
    hide ReceiptFault, EntryCommitment;
    if VerifyReceipts(c, l, i + 1).Err? { ReceiptErrorStays(c, l, i + 1, |l.continuity.value.receipts|); }
  }

  lemma NoReceipts(c: Crypto, l: LedgerState)
    ensures l.continuity.Some? && l.continuity.value.legacyCount + |l.continuity.value.receipts| == |l.events|
        ==> VerifyReceipts(c, l, 0) == Ok(AnchorCommitment(c, l.continuity.value.anchor))
  {
  }
}
