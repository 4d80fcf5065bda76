/** The domain vocabulary of Hivra Core: keys, starter kinds, and ledger events
    whose payloads are already decoded. A payload that the codecs refuse is kept
    as `Malformed`, with the few raw features that some folds still look at. */
module Facts {
  import opened Common

  function Pow16(e: nat): (p: nat)
    ensures p > 0
  {
    if e == 0 then 1 else 16 * Pow16(e - 1)
  }

  /** A 32-byte array, read as a big-endian number: the byte-wise order of the
      arrays is the order of the numbers. */
  type Key = n: nat | n < Pow16(64)
  type InvitationId = Key
  type StarterId = Key

  datatype StarterKind = Juice | Spark | Seed | Pulse | Kick

  function KindByte(kind: StarterKind): (b: nat)
    ensures b < 5
  {
    match kind
    case Juice => 0
    case Spark => 1
    case Seed => 2
    case Pulse => 3
    case Kick => 4
  }

  function KindFromByte(b: nat): Option<StarterKind> {
    if b == 0 then Some(Juice)
    else if b == 1 then Some(Spark)
    else if b == 2 then Some(Seed)
    else if b == 3 then Some(Pulse)
    else if b == 4 then Some(Kick)
    else None
  }

  datatype EventKind =
    | CapsuleCreatedKind | InvitationSentKind | InvitationAcceptedKind | InvitationRejectedKind
    | InvitationExpiredKind | StarterCreatedKind | StarterBurnedKind | RelationshipEstablishedKind
    | RelationshipBrokenKind | InvitationReceivedKind

  datatype RejectReason = EmptySlot | Other

  /** An offer payload: 96, 97, 128, 129, 161 or 225 bytes long. */
  datatype Offer = Offer(
    id: InvitationId, starter: StarterId, to: Key, senderRoot: Option<Key>, kindByte: Option<nat>,
    senderTransport: Option<Key>, cardSignature: Option<nat>)
  {
    function KindHint(): Option<StarterKind> {
      if kindByte.Some? then KindFromByte(kindByte.value) else None
    }
  }

  /** A relationship payload of 194, 226 or 258 bytes. */
  datatype Establishment = Establishment(
    peer: Key, own: StarterId, peerStarter: StarterId, kind: StarterKind, invitation: InvitationId,
    sender: Key, senderKind: StarterKind, senderStarter: StarterId,
    peerRoot: Option<Key>, senderRoot: Option<Key>)

  datatype Fact =
    | CapsuleCreated(capsuleType: nat)
    | InvitationSent(offer: Offer)
    | InvitationReceived(offer: Offer)
    | InvitationAccepted(id: InvitationId, from: Key, created: StarterId, accepterRoot: Option<Key>)
    | InvitationRejected(id: InvitationId, reason: RejectReason)
    | InvitationExpired(id: InvitationId)
    | StarterCreated(starter: StarterId, starterKind: StarterKind, nonce: Key)
    | StarterBurned(starter: StarterId, burnReason: nat)
    | RelationshipEstablished(fact: Establishment)
      // the 97-byte form, without invitation, sender and roots
    | RelationshipEstablishedLegacy(peer: Key, own: StarterId, peerStarter: StarterId, legacyKind: StarterKind)
    | RelationshipBroken(peer: Key, own: StarterId, peerRoot: Option<Key>)
      // `head` is the first 32 bytes, if there are that many; `rest` stands for
      // the bytes that no fold reads
    | Malformed(badKind: EventKind, length: nat, head: Option<Key>, rest: nat)

  function KindOf(f: Fact): EventKind {
    match f
    case CapsuleCreated(_) => CapsuleCreatedKind
    case InvitationSent(_) => InvitationSentKind
    case InvitationReceived(_) => InvitationReceivedKind
    case InvitationAccepted(_, _, _, _) => InvitationAcceptedKind
    case InvitationRejected(_, _) => InvitationRejectedKind
    case InvitationExpired(_) => InvitationExpiredKind
    case StarterCreated(_, _, _) => StarterCreatedKind
    case StarterBurned(_, _) => StarterBurnedKind
    case RelationshipEstablished(_) => RelationshipEstablishedKind
    case RelationshipEstablishedLegacy(_, _, _, _) => RelationshipEstablishedKind
    case RelationshipBroken(_, _, _) => RelationshipBrokenKind
    case Malformed(kind, _, _, _) => kind
  }

  datatype Event = Event(fact: Fact, timestamp: u64, signer: Key)

  /** The domain signature proof that travels with a delivery. */
  datatype Proof = Proof(version: nat, kind: EventKind, signer: Key)

  /** One inbound delivery. `kind` is the raw 32-bit message kind; `payload` is
      the payload as the codec of that kind reads it. */
  datatype Envelope = Envelope(
    from: Key, to: Key, kind: nat, payload: Fact, timestamp: u64, proof: Option<Proof>)

  // ----- hexadecimal text of a key -----

  function HexDigit(d: nat): char
    requires d < 16
  {
    if d < 10 then '0' + d as char else 'a' + (d - 10) as char
  }

  function HexDigitValue(c: char): Option<nat> {
    if '0' <= c <= '9' then Some((c - '0') as nat)
    else if 'a' <= c <= 'f' then Some((c - 'a') as nat + 10)
    else if 'A' <= c <= 'F' then Some((c - 'A') as nat + 10)
    else None
  }

  function HexDigits(k: nat, width: nat): (s: string)
    ensures |s| == width
    ensures forall c | c in s :: HexDigitValue(c).Some?
  {
    if width == 0 then "" else HexDigits(k / 16, width - 1) + [HexDigit(k % 16)]
  }

  function HexValue(s: string): nat
    requires forall c | c in s :: HexDigitValue(c).Some?
  {
    if |s| == 0 then 0
    else HexValue(s[..|s|-1]) * 16 + HexDigitValue(s[|s|-1]).value
  }

  function HexKey(k: Key): (s: string)
    ensures |s| == 64
    ensures forall c | c in s :: HexDigitValue(c).Some?
  {
    HexDigits(k, 64)
  }

  lemma {:induction false} HexRoundTrip(k: nat, width: nat)
    requires k < Pow16(width)
    ensures HexValue(HexDigits(k, width)) == k
  {
    if width > 0 {
      HexRoundTrip(k / 16, width - 1);
      var s := HexDigits(k, width);
      assert s[..|s|-1] == HexDigits(k / 16, width - 1);
    }
  }
}
