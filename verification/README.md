# Hivra: a verified model of the ledger, its projections and the inbound delivery machine

Hivra keeps each capsule's history in an append-only ledger. Several independently
written folds ("projections") read that ledger and have to agree with each other, and a
durable, rate-limited machine takes deliveries from the transport, routes them into the
ledger, and keeps for later what it cannot route. This project models both in Dafny and
proves what they promise, for all inputs, all ledgers and all runs.

| files | component |
|---|---|
| `Common.dfy`, `Facts.dfy` | sequences, sums, stable sort; keys, decoded payloads, envelopes |
| `Ledger.dfy`, `LedgerBinding.dfy`, `LedgerReach.dfy` | v4 and v5 ledgers, migration, verification, head commitments |
| `Invitation.dfy`, `InvitationRecords.dfy`, `Slot.dfy`, `SlotLayout.dfy`, `Allocation.dfy`, `Planning.dfy`, `PendingOffers.dfy`, `Relationship.dfy`, `RelationshipItems.dfy`, `Endings.dfy`, `Revocation.dfy`, `Pair.dfy`, `PairItems.dfy`, `PairCounts.dfy`, `Mirror.dfy` | the projections and how they relate |
| `QuarantineModel.dfy` to `QuarantineRepository.dfy` | the inbound quarantine: specification, validator, invariant, machine, rate limit, grants, isolation of senders, charging, outcomes, retention, limits, and the class whose methods refine the machine |
| `Lookup.dfy`, `Router.dfy`, `Admission.dfy`, `Rerouting.dfy`, `Breaks.dfy`, `Handshake.dfy`, `Receive.dfy`, `ReceiveSafety.dfy`, `RecoveryFate.dfy` | skip decisions, routing, what is written and answered, repeated routing, repeated breaks, both ends of a handshake, receive passes, the fate of stored deliveries |
| `Chat.dfy` | the durable chat inbox |
| `Clock.dfy` | the lock-free engine clock |

## How the model is built

- Keys are 32-byte arrays read as numbers (their byte order is the order of the numbers);
  payloads are decoded, with a `Malformed` case that keeps the few raw features some code
  still reads. Byte codecs are not modelled, except the hash preimages of the ledger.
- Objects that change in place are classes (`LedgerStore`, `SlotLayout`, `Repository`,
  `Runtime`, `Inbox`); loops are methods with invariants. Each is proved equal to a
  function of its input or old state, and the theorems are about those functions.
- SHA-256 and the v4 checksum are function parameters. Nothing is assumed about them;
  binding theorems hand back two different byte strings with the same digest instead.
- A quarantine repository is a pair of snapshots, memory and file. A write can fail, and a
  crash reopens the file. A receive pass is a function of the state and of what its
  surroundings do (clock, sealed sizes, failed writes, answers of the chat and attestation
  inboxes, whether a signature is good, whether an event could be signed and stored), and
  every theorem is for all of these.
- The engine clock is a state machine over the steps of any number of threads; loads and
  failing compare-exchanges may see any value the cell ever held.

## What the code does not do

Some promises are false of the code as it is. Each has a lemma with an input on which it
fails and a lemma that says exactly when it holds.

- Structural verification of a migrated ledger compares v5 entry `i` with the first `i`
  events of the whole ledger, which are legacy events, so it accepts a v5 event stored
  twice (`RepeatSlipsThrough`, `RepeatExists`; exact: `DuplicateCheckReach`,
  `VerifyIsReachableV5`).
- The byte-capacity probe for charge evidence uses a placeholder id, so with event ids
  over 64 bytes a permitted delivery can leave a snapshot the validator refuses
  (`LongIdBreaksStore`; exact: `ProbeGap`).
- A local break is not always final: the relationship view is recomputed with the final
  statuses of all invitations, so when a sender withdraws an offer, its establishment
  disappears and an older one, dated after the break, is active again
  (`WithdrawalRevives`; exact: `EndReturnsExactly`). With dates in ledger order the break
  is final (`EndIsFinal`).
- A v4 ledger dates received events anew. When the sender's clock was ahead, a break can
  be appended a second time after a re-establishment (`FastClockBreakRepeats`; exact:
  `RedatedBreakSettles`). A v5 ledger refuses the second copy by its event id, whatever
  its date (`BreakRedelivered`); but a break dated in seconds is then not recognised as a
  replay and is answered Retry instead of Consumed (`SecondsBreakRetries`; exact:
  `BreakStaysSkipped`).
- An acceptance of an offer without kind byte can record a second relationship when its
  starter is created again in another kind (`KindlessOfferRepeats`; exact: `QuietForever`).
- The slot locks and the retry queue drop an outgoing offer on anyone's expiry, the
  canonical projection only on the owner's (`ForeignExpiryDiverges`; exact:
  `LocksMatchExactly`, `ThreeFoldsAgree`).

One more input looks like a failure of the quarantine but cannot be received: opening a
stored record checks its addressee and storing does not, so a misaddressed record would
make recovery end in `Corrupt` (`MisaddressedBlocksRecovery`, `RecoveryFailsExactly`). The
transport adapter rejects envelopes for other recipients before they are delivered
(`adapters/hivra-transport/src/lib.rs:76-87`, called at
`adapters/hivra-transport/src/nostr/mod.rs:895`), and with that guard recovery never ends
in `Corrupt` (`RecoveryIsSafe`).

## Model

| member | source | states |
|---|---|---|
| LedgerBinding.HeadBindsHistory | core/hivra-core/src/ledger.rs:150-166 | two verified v5 ledgers with equal head commitments have the same owner, anchor content, length and, entry by entry, the same kind, payload, timestamp and signer, or a concrete collision of SHA-256 is produced |
| LedgerBinding.HistoryFixesHead | core/hivra-core/src/ledger_v5.rs:140-148 | conversely the same facts give the same head, whatever signatures events, receipts and anchor carry |
| LedgerBinding.HeadBinds | core/hivra-core/src/ledger_v5.rs:69-85 | the walk back from two heads finds differing preimages exactly when the histories differ; they collide whenever the heads are equal |
| LedgerBinding.VerifiedHead | core/hivra-core/src/ledger.rs:314-371 | in a verified ledger receipt i holds number i and the commitment over the first i entries, and the tail commits to all of them |
| LedgerBinding.EventsBind | core/hivra-core/src/event.rs:104-134 | two v5 events have the same id preimage exactly when kind, payload, timestamp and signer agree |
| LedgerBinding.AnchorInjective | core/hivra-core/src/ledger_v5.rs:69-85 | two anchors hash the same bytes exactly when they agree in variant, owner and snapshot |
| LedgerBinding.EntryInjective | core/hivra-core/src/ledger_v5.rs:140-148 | two entries hash the same bytes exactly when owner, sequence, previous commitment and event id agree |
| LedgerReach.VerifyIsReachableV4 | core/hivra-core/src/ledger.rs:279-312 | verify accepts a v4 ledger if and only if some run of operations builds it from the empty ledger |
| LedgerReach.VerifyIsReachableV5 | core/hivra-core/src/ledger.rs:103-121 | a v5 ledger is built by appends, a migration and v5 appends if and only if it verifies, an empty legacy part has checksum zero, and no v5 event repeats an earlier event id |
| LedgerReach.VerifyIsReachableFresh | core/hivra-core/src/ledger.rs:87-98 | for ledgers started as v5 with a zero checksum, verify is reachability |
| LedgerReach.RunKeeps | core/hivra-core/src/ledger.rs:195-266 | every state of every run verifies, and a v5 state repeats no earlier event id |
| LedgerReach.GoodStep | core/hivra-core/src/ledger.rs:224-266 | a v5 ledger is good exactly when it is good without its last entry and append accepts that entry |
| LedgerReach.MigrateExactly | core/hivra-core/src/ledger.rs:103-121 | a migration succeeds exactly on an ordered v4 ledger without repetition of the anchor's owner with the right checksum, and keeps all of it as legacy history |
| LedgerReach.DuplicateCheckReach | core/hivra-core/src/ledger.rs:354-360 | the verifier refuses a stored repeat exactly when the id is among the first events, as many as there are receipts |
| LedgerReach.RepeatSlipsThrough | core/hivra-core/src/ledger.rs:354-360 | on every migrated ledger, an event stored again right after itself is refused by append and accepted by verify |
| LedgerReach.RepeatExists | core/hivra-core/src/ledger.rs:354-360 | a concrete ledger that verifies with a repeated v5 event id |
| Ledger.LedgerStore.Append | core/hivra-core/src/ledger.rs:195-221 | the mutable v4 append: new state or error, unchanged on error |
| Ledger.LedgerStore.AppendEntry | core/hivra-core/src/ledger.rs:224-266 | the mutable v5 append, checks in the source's order, unchanged on error |
| Ledger.LedgerStore.VerifyStructure | core/hivra-core/src/ledger.rs:314-371 | the verification loop returns the first fault of the specification |
| Ledger.LedgerStore.VerifyAll | core/hivra-core/src/ledger.rs:279-312 | verify dispatches on the protocol and decides the specification |
| Ledger.VerifyV4Events | core/hivra-core/src/ledger.rs:374-398 | one pass with running checksum and timestamp decides that versions, order, uniqueness and checksum are right |
| Invitation.InvitationsWithStatus | core/hivra-core/src/invitation.rs:227-321 | the loop over the ledger computes the projection |
| Invitation.InvitationIsItsLife | core/hivra-core/src/invitation.rs:227-321 | an invitation is recorded exactly if some offer names it, and its record is the life of its first offer |
| Invitation.IdsUnique | core/hivra-core/src/invitation.rs:227-268 | one record per invitation id |
| Invitation.Lifecycle | core/hivra-core/src/invitation.rs:227-321 | under every ledger extension records keep place, id, peer and direction; Rejected and Expired are permanent; the only later change is Accepted to Expired on an incoming offer by its signer |
| Invitation.LifeStatus | core/hivra-core/src/invitation.rs:270-315 | status is Pending exactly while no effective answer followed the offer, otherwise that of the first effective one, unless a sender's later expiry revokes an acceptance |
| Invitation.RevokedStatus | core/hivra-core/src/invitation.rs:376-381 | after the sender's expiry the invitation is Expired, or Rejected exactly if a rejection was effective first |
| InvitationRecords.RecordExactly | core/hivra-core/src/invitation.rs:227-315 | from the first offer's event: peer, transports, root and kind of the record; its answer is the first event that gave the final status; the owner had a part exactly if one of its own answers was effective |
| SlotLayouts.SlotLayout.OccupyFirstFree | core/hivra-core/src/slot.rs:176-184 | in-place occupation of the first free slot |
| SlotLayouts.SlotLayout.FreeStarter | core/hivra-core/src/slot.rs:186-194 | in-place release of a starter's slot |
| SlotLayouts.SlotLayout.LockStarter | core/hivra-core/src/slot.rs:196-204 | in-place lock of an occupied slot |
| SlotLayouts.RevokedCreatedStarterIds | core/hivra-core/src/slot.rs:214-262 | the two loops compute exactly the starters that acceptances revoked by their own sender name |
| SlotLayouts.LockedStarterIds | core/hivra-core/src/slot.rs:288-352 | the loops compute the first five distinct starters of pending offers |
| SlotLayouts.FromLedger | core/hivra-core/src/slot.rs:50-109 | the array after the replay is the layout of the specification |
| Slot.ReplayIsLive | core/hivra-core/src/slot.rs:50-109 | if at no time more than five starters were live, the slots hold exactly the created, unburned, unrevoked starters, each once |
| Slot.LayoutEffect | core/hivra-core/src/slot.rs:50-109 | a slot is locked exactly if its starter is among the locked ones, and locking moves nothing |
| Slot.RevokedNotShown | core/hivra-core/src/slot.rs:214-262 | no starter named by a revoked acceptance is in any slot |
| Allocation.AllocationSound | core/hivra-core/src/invitation.rs:197-225 | after every run of births, acceptances, burns and revocations the slots hold exactly the live starters, of pairwise distinct kinds, and no plan answers NoCapacity |
| Allocation.AcceptLands | platform/hivra-ffi/src/invitation_support.rs:995-1143 | an acceptance names a live starter of the offered kind, and a planned starter lands in exactly its planned slot with its planned kind, nothing else moving |
| Allocation.BirthLands | platform/hivra-ffi/src/runtime_support.rs:257-281 | the birth loop puts five starters of five kinds into slots 0 to 4 |
| Planning.BornInOrder | platform/hivra-ffi/src/runtime_support.rs:257-281 | after birth slot i shows the i-th starter and its kind has byte i |
| Allocation.AlwaysCapacity | core/hivra-core/src/invitation.rs:197-225 | five occupied slots cover all kinds, so there is always a plan |
| Allocation.PlanIsSafe | core/hivra-core/src/invitation.rs:383-405 | a planned starter goes to the first empty slot and has a kind no live starter has |
| Planning.PlanExactly | core/hivra-core/src/invitation.rs:197-225 | an existing starter is named if and only if some live one has the offered kind; no starter is planned if and only if five are live; a planned one goes to the least empty slot, beside an existing starter with the least kind no live starter has, otherwise with the offered kind |
| Planning.AcceptAdds | platform/hivra-ffi/src/invitation_support.rs:1040-1143 | an acceptance adds its own event, and a new starter if and only if fewer than five were live; the live starters grow by exactly that one |
| Planning.LiveExactly | core/hivra-core/src/slot.rs:50-109 | a starter is live exactly if the owner created it, never burned it, and no acceptance naming it was of an invitation its own sender withdrew |
| PendingOffers.ThreeFoldsAgree | platform/hivra-ffi/src/invitation_support.rs:404-451 | with one owner-signed offer per id and well-formed answers, slot locks, canonical pending outgoing records and the retry queue hold the same offers if and only if every own offer that met an answer met an acceptance, a rejection or the owner's expiry |
| PendingOffers.LocksMatchExactly | core/hivra-core/src/slot.rs:288-352 | the same condition is exact for slot locks and canonical records, whatever malformed answers there are |
| PendingOffers.LocksAreOpen | core/hivra-core/src/slot.rs:288-352 | on every ledger the lock fold holds exactly the owner's offers that met no answer since |
| PendingOffers.QueueIsOpen | platform/hivra-ffi/src/invitation_support.rs:404-451 | the retry queue holds exactly those offers when ids have one offer and answers are well formed |
| PendingOffers.QueuedAsSent | platform/hivra-ffi/src/invitation_support.rs:404-451 | the retry queue holds an open offer as it was sent, with its date |
| PendingOffers.CanonicalIsUnsettled | core/hivra-core/src/invitation.rs:227-321 | with one owner-signed offer per id, the pending outgoing records are exactly the own offers that met no proper answer |
| PendingOffers.LockedExactly | core/hivra-core/src/slot.rs:288-352 | with at most five distinct pending starters, a live slot is locked if and only if its starter has an open offer |
| PendingOffers.ForeignExpiryDiverges | core/hivra-core/src/slot.rs:288-352 | a stranger's expiry makes the folds disagree |
| PendingOffers.PendingOutgoingDeliveries | platform/hivra-ffi/src/invitation_support.rs:404-451 | the loop over the ledger computes the queue |
| Revocation.RevocationIsComplete | core/hivra-core/src/relationship.rs:75-87 | once the sender's expiry follows an incoming offer: final status, the relationship view is that without every establishment of the invitation, and no starter an acceptance of it names is in a slot |
| Relationship.ProjectRelationships | core/hivra-core/src/relationship.rs:61-156 | the loop over the ledger computes the projection |
| Relationship.RelationshipCurrentView | core/hivra-core/src/relationship.rs:61-207 | projection, sort and identities give the view of the specification |
| RelationshipItems.ViewExactly | core/hivra-core/src/relationship.rs:61-207 | the view lists, latest first, one item for each key with a surviving establishment; each item tells its last surviving establishment and is broken, pending remote break or active as the breaks after it say; it is filed under its root, a root known for its transport, or the transport; the active peers are the identities of items not broken |
| RelationshipItems.EstablishesExactly | core/hivra-core/src/relationship.rs:75-112 | an establishment counts unless its invitation was refused or it is with ourselves; the other side's record is read from our side, and a missing root comes from the invitation |
| RelationshipItems.LegacyExactly | core/hivra-core/src/relationship.rs:209-233 | the 97-byte form counts unless it is with ourselves |
| RelationshipItems.OthersEstablishNothing | core/hivra-core/src/relationship.rs:68-72 | no other payload establishes anything |
| Relationship.ProjectWellKept | core/hivra-core/src/relationship.rs:114-156 | keys (peer, own starter) are unique and a pending remote break implies active |
| Endings.RelationshipExactly | core/hivra-core/src/relationship.rs:61-156 | in the view of a ledger, with its own final invitation statuses, a key has a record exactly if some establishment of it survives; the record is ended exactly if a local break not dated before the last surviving one follows, and otherwise a remote break is pending exactly if one by the peer follows |
| Endings.EstablishmentsOnlyVanish | core/hivra-core/src/relationship.rs:75-112 | whatever is appended, an event establishes a key afterwards only if it did before |
| Relationship.BreakRules | core/hivra-core/src/relationship.rs:114-156 | a break touches its key only; an unrelated signer changes nothing, a remote break never deactivates, a timely local break does |
| Endings.EndReturnsExactly | core/hivra-core/src/relationship.rs:75-156 | when nothing appended establishes the key, an ended relationship is active again exactly if the last establishment that survives the longer ledger's refusals is dated after every local break following it, and that one is older than the former last |
| Endings.EndIsFinal | core/hivra-core/src/relationship.rs:114-156 | so with local breaks dated no earlier than the establishments before them, an ended relationship never returns without a new establishment |
| Endings.BreaksKeepEnd | core/hivra-core/src/relationship.rs:123-156 | breaks alone, by anyone and however dated, leave an ended record as it is |
| Endings.WithdrawalRevives | core/hivra-core/src/relationship.rs:75-87 | a ledger on which a sender's withdrawal makes a locally broken relationship active again |
| Relationship.RefusedLeavesNoTrace | core/hivra-core/src/relationship.rs:75-87 | a rejected or expired invitation's establishments might as well not be in the ledger |
| Pair.PairViewV1 | core/hivra-core/src/pair.rs:46-183 | the accumulating loops and sorts compute the pair view |
| PairItems.PairViewExactly | core/hivra-core/src/pair.rs:46-183 | one item for each peer with a relationship or an invitation, in order of peers; its pending-invitation blockers are exactly the pending invitations filed under it, finalized is the number of the others, and the blockers for remote breaks, broken relationships and no active relationship are those its relationships give, in order and once |
| PairItems.FiledUnder | core/hivra-core/src/pair.rs:76-103 | an invitation is filed under its sender's or accepter's root, else under what the relationships know of the transport it came from or went to |
| Pair.ItemPairsActive | core/hivra-core/src/pair.rs:46-75 | one accumulator per peer, listing exactly the peer's active relationships without repetition |
| PairCounts.InvitationsConserved | core/hivra-core/src/pair.rs:76-119 | pending-invitation blockers plus finalized counts over all pairs are exactly the invitations whose peer is not local |
| PairCounts.ActivePairsAreActivePeers | core/hivra-core/src/pair.rs:52-74 | the pairs with active relationships are as many as the active peers |
| Mirror.MirrorAgreement | core/hivra-core/src/pair.rs:46-183 | two ledgers with the same establishments from both sides, among any other events and breaks, show the same sorted active list if each relationship was broken by both capsules or by neither, and only then when no starter id belongs to both |
| Mirror.RecordedIsLive | core/hivra-core/src/relationship.rs:123-156 | a side lists the latest entry of an own starter exactly if it did not break it locally since; the peer's breaks take nothing off |
| Mirror.ProjectionShows | core/hivra-core/src/relationship.rs:61-207 | a side's projection holds exactly the latest entry of each own starter with the peer |
| Handshake.HandshakeMirrors | platform/hivra-ffi/src/invitation_support.rs:914-1143 | the relationships inviter and accepter record for one handshake are mirrored entries in their views |
| Handshake.RecordedByAccepter | platform/hivra-ffi/src/invitation_support.rs:1096-1143 | the relationship the accepter records, field by field from the offer |
| Handshake.InviterRecordReadsBack | core/hivra-core/src/relationship.rs:235-281 | the inviter's record, read in the accepter's ledger, tells the same as the accepter's own |
| QuarantineValidation.ValidateSnapshot | platform/hivra-ffi/src/inbound_quarantine.rs:831-922 | the validation loops accept a snapshot if and only if it is valid, and name the same fault as the specification |
| QuarantineValidation.ValidateIsExact | platform/hivra-ffi/src/inbound_quarantine.rs:831-922 | the scan finds no fault exactly on snapshots with unique disjoint ids, all count and byte limits, and well-formed entries |
| QuarantineMachine.NeverCorrupt | platform/hivra-ffi/src/inbound_quarantine.rs:275-518 | over every run of admissible calls, with faults and crashes, both snapshots stay valid and no call answers Corrupt |
| QuarantineMachine.StepSound | platform/hivra-ffi/src/inbound_quarantine.rs:539-554 | one call keeps the invariant in memory and on disk |
| QuarantineInvariant.QuarantineSound | platform/hivra-ffi/src/inbound_quarantine.rs:556-630 | storing a record keeps ids unique and disjoint from tombstones, and all limits |
| QuarantineInvariant.ApplyPolicySound | platform/hivra-ffi/src/inbound_quarantine.rs:298-393 | a policy decision keeps the invariant: charge ids stay globally unique, evictions and limits included |
| QuarantineInvariant.RetireSound | platform/hivra-ffi/src/inbound_quarantine.rs:710-751 | a retired record becomes a tombstone, all other records and tombstones stay, the snapshot stays valid |
| QuarantineRate.RateBound | platform/hivra-ffi/src/inbound_quarantine.rs:298-393 | with a non-decreasing clock one sender gets at most 8 + ceil((end-start)/15) permits in any window, across crashes, reopenings and evictions |
| QuarantineRate.RefillCompose | platform/hivra-ffi/src/inbound_quarantine.rs:632-649 | refilling at an intermediate time gives the same bucket as refilling once |
| QuarantineRate.OtherSendersUnaffected | platform/hivra-ffi/src/inbound_quarantine.rs:651-677 | one decision about a sender leaves the permits of every other sender as they were, at every later time |
| QuarantineIsolation.RunLeavesOthers | platform/hivra-ffi/src/inbound_quarantine.rs:298-393 | over every run that decides nothing about a sender, with failed writes, crashes and reopenings, memory and disk give it the permits one of them gave at the start |
| QuarantineIsolation.FullTableRefuses | platform/hivra-ffi/src/inbound_quarantine.rs:651-677 | a sender without policy is refused with Capacity exactly when the table is full of policies in use |
| QuarantineIsolation.PlaceExactly | platform/hivra-ffi/src/inbound_quarantine.rs:651-677 | a new sender gets a policy with eight permits; in a full table it replaces the idlest policy that has all permits, no evidence and no stored record |
| QuarantineRate.PolicyEffect | platform/hivra-ffi/src/inbound_quarantine.rs:298-393 | a decision charges exactly its own sender, and only idle full policies are evicted |
| QuarantineGrants.DecisionExactly | platform/hivra-ffi/src/inbound_quarantine.rs:298-393 | the answer to a new delivery is Permit exactly when permits plus one per full 15 seconds since the last refill are positive and there is room for the evidence; the sender then has min(8, that) - 1; without room Capacity, without permits the delivery is stored |
| QuarantineGrants.RepeatedDecision | platform/hivra-ffi/src/inbound_quarantine.rs:298-393 | a delivery charged in the last eight days costs nothing more, a stored one is never permitted |
| QuarantineGrants.RefillExactly | platform/hivra-ffi/src/inbound_quarantine.rs:632-649 | a refill grants one permit for every full 15 seconds, up to eight, and keeps the started interval |
| QuarantineGrants.RestedSender | platform/hivra-ffi/src/inbound_quarantine.rs:632-649 | after 120 seconds without a decision about it a sender has eight permits, crashes included |
| QuarantineGrants.AllGranted | platform/hivra-ffi/src/inbound_quarantine.rs:298-393 | a sender with n permits obtains n for its next n new deliveries that have a place and room |
| QuarantineCharging.ChargedOnce | platform/hivra-ffi/src/inbound_quarantine.rs:298-393 | two permits for one event and sender are more than eight days apart |
| QuarantineCharging.EvidenceLasts | platform/hivra-ffi/src/inbound_quarantine.rs:632-677 | charge evidence survives restarts and evictions for its eight days |
| QuarantineRetention.BackoffBound | platform/hivra-ffi/src/inbound_quarantine.rs:499-518 | for every schedule, eligibility never passes expiry and a record is attempted at most 292 times |
| QuarantineRetention.EarliestIsFirst | platform/hivra-ffi/src/inbound_quarantine.rs:435-457 | recovery picks the earliest eligible record |
| QuarantineRetention.RecoveryFailsExactly | platform/hivra-ffi/src/inbound_quarantine.rs:435-477 | recovery fails exactly when the record it picks is addressed to someone else |
| QuarantineRetention.RecoveryNeverFails | platform/hivra-ffi/src/inbound_quarantine.rs:435-477 | it never fails when every stored envelope was addressed to the endpoint |
| QuarantineRetention.MisaddressedBlocksRecovery | platform/hivra-ffi/src/inbound_quarantine.rs:275-296 | at the repository alone: a misaddressed envelope would be stored and then block recovery; the adapter's guard keeps it out |
| QuarantineRetention.StoredUntilRetired | platform/hivra-ffi/src/inbound_quarantine.rs:402-433 | a stored id leaves only by consumption or by reaching its expiry |
| QuarantineRetention.StoredFate | platform/hivra-ffi/src/inbound_quarantine.rs:479-497 | after any call, in memory and on disk, a stored id is still stored or has just become a tombstone for one of those reasons |
| QuarantineRetention.TombstoneLasts | platform/hivra-ffi/src/inbound_quarantine.rs:402-433 | a tombstone stays for thirty days in every run |
| QuarantineOutcomes.StoreExactly | platform/hivra-ffi/src/inbound_quarantine.rs:556-630 | a new id is stored exactly if it is well formed, sealed and there is room, to be tried after 15 seconds and dropped after 72 hours |
| QuarantineOutcomes.ObserveExactly | platform/hivra-ffi/src/inbound_quarantine.rs:556-630 | a stored id of the same sender and kind only gains observations |
| QuarantineOutcomes.MergeExactly | platform/hivra-ffi/src/inbound_quarantine.rs:962-972 | merged observations are the valid relay names of both lists, sorted, once, at most the first sixteen |
| QuarantineOutcomes.RetryExactly | platform/hivra-ffi/src/inbound_quarantine.rs:499-518 | a retry adds one attempt and waits 15 seconds doubled per attempt, up to fifteen minutes and the expiry |
| QuarantineOutcomes.RetireExactly | platform/hivra-ffi/src/inbound_quarantine.rs:710-751 | a record is retired exactly if there is room for its trace, and leaves that trace |
| QuarantineOutcomes.ExpireExactly | platform/hivra-ffi/src/inbound_quarantine.rs:402-433 | expiry drops exactly the records past their time and the tombstones older than thirty days, and each dropped record leaves a tombstone |
| QuarantineOutcomes.FaultsTouchDiskOnly | platform/hivra-ffi/src/inbound_quarantine.rs:539-554 | a failed write leaves the file as it was and memory as after the same call without fault; a successful call leaves both alike |
| QuarantineLimits.ProbeGap | platform/hivra-ffi/src/inbound_quarantine.rs:679-708 | a permitted charge leaves a valid snapshot exactly if the policies plus this id's evidence fit the byte limit |
| QuarantineLimits.LongIdBreaksStore | platform/hivra-ffi/src/inbound_quarantine.rs:679-708 | a valid store and a 128-byte id for which the permit leaves an invalid snapshot |
| QuarantineRepository.Repository.Quarantine | platform/hivra-ffi/src/inbound_quarantine.rs:275-296 | the method is the machine's step |
| QuarantineRepository.Repository.ApplySenderPolicy | platform/hivra-ffi/src/inbound_quarantine.rs:298-393 | the method is the machine's step |
| QuarantineRepository.Repository.ExpireDue | platform/hivra-ffi/src/inbound_quarantine.rs:402-433 | the loop over due records is the machine's step |
| QuarantineRepository.Repository.MarkConsumed | platform/hivra-ffi/src/inbound_quarantine.rs:479-497 | the method is the machine's step |
| QuarantineRepository.Repository.MarkRetry | platform/hivra-ffi/src/inbound_quarantine.rs:499-518 | the method is the machine's step |
| QuarantineRepository.Repository.Reopen | platform/hivra-ffi/src/inbound_quarantine.rs:247-273 | a crash and reopening is the machine's step |
| QuarantineRepository.Repository.NextEligibleRecord | platform/hivra-ffi/src/inbound_quarantine.rs:435-477 | the scan returns the earliest eligible record, opened |
| QuarantineRepository.Repository.HasTerminalEvidence | platform/hivra-ffi/src/inbound_quarantine.rs:395-400 | found exactly if some tombstone has the id |
| QuarantineRepository.Repository.Persist | platform/hivra-ffi/src/inbound_quarantine.rs:539-554 | nothing reaches the file unless the whole snapshot is valid |
| QuarantineRepository.AppendQuarantineRecord | platform/hivra-ffi/src/inbound_quarantine.rs:556-630 | re-observation, limits and the sorted insertion of a new record |
| QuarantineRepository.MaintainSenderPolicies | platform/hivra-ffi/src/inbound_quarantine.rs:632-649 | the loop prunes evidence and refills every bucket |
| QuarantineRepository.RetireRecord | platform/hivra-ffi/src/inbound_quarantine.rs:710-751 | tombstone appended within its limits, record removed |
| Lookup.FindInvitationSent | platform/hivra-ffi/src/invitation_support.rs:737-801 | the scan returns the first offer of the id in the asked direction, with its kind |
| Lookup.OfferStays | platform/hivra-ffi/src/invitation_support.rs:737-801 | an offer once found is found in every extension, only the kind of an offer without kind byte can change |
| Lookup.LatestTimestamps | platform/hivra-ffi/src/invitation_support.rs:697-735 | the loop computes the latest establishment and break of a key |
| Lookup.LatestIsGreatest | platform/hivra-ffi/src/invitation_support.rs:697-735 | the result is the timestamp of a matching event and at least that of every one |
| Lookup.KeyIsActive | platform/hivra-ffi/src/invitation_support.rs:233-266 | the loop decides whether the key's last event established it |
| Lookup.BreakStaysSkipped | platform/hivra-ffi/src/invitation_support.rs:588-624 | a break is skipped in every extension exactly if its signer is wrong, or it is not after the last recorded break, or before the last establishment |
| Lookup.RecordedBreakSilences | platform/hivra-ffi/src/invitation_support.rs:602-613 | a recorded break not dated before the delivery's normalized date makes the delivery skipped |
| Breaks.BreakRedelivered | platform/hivra-ffi/src/runtime_support.rs:578-593 | once a v5 ledger holds a break, every redelivery in every continuation leaves the ledger alone, answered Consumed while the skip decision catches it and Retry when only the id check does |
| Breaks.MillisBreakConsumed | platform/hivra-ffi/src/invitation_support.rs:686-695 | a stored break dated in milliseconds is consumed in every continuation, re-establishments included |
| Breaks.RedatedBreakSettles | platform/hivra-ffi/src/runtime_support.rs:595-619 | on a v4 ledger no ordered continuation lets the break be appended again exactly if its normalized date is not after the date it was stored under |
| Breaks.FastClockBreakRepeats | platform/hivra-ffi/src/runtime_support.rs:595-619 | with the sender's clock ahead, the same delivery breaks a re-established relationship a second time on a v4 ledger |
| LedgerReach.StoredFactRefused | core/hivra-core/src/ledger.rs:246-252 | append_v5 refuses an event whose kind, payload, timestamp and signer some stored v5 event has |
| Breaks.SecondsBreakRetries | platform/hivra-ffi/src/invitation_support.rs:686-695 | a break dated in seconds is stored once; redelivered after a re-establishment it is answered Retry and not stored again |
| Lookup.BurnedNotShown | core/hivra-core/src/slot.rs:50-109 | a starter the owner burned is in no slot of any extension |
| Router.Runtime.RouteInbound | platform/hivra-ffi/src/invitation_api.rs:662-858 | the ledger and the answer after one delivery, with the v5 refusal of a stored event id and the v4 re-dating |
| Router.Runtime.ProjectRelationship | platform/hivra-ffi/src/invitation_support.rs:878-952 | the relationship of the accepted offer is recorded unless the same payload is there |
| Router.Runtime.ProjectRejection | platform/hivra-ffi/src/invitation_support.rs:954-981 | an empty-slot rejection burns the offered starter if it is still active |
| Router.AcceptanceEstablishes | platform/hivra-ffi/src/invitation_api.rs:776-858 | an acceptance past the checks is consumed only if the ledger then holds its relationship |
| Admission.OfferExactly | platform/hivra-ffi/src/invitation_support.rs:627-646 | an offer is written, and how it is answered: if and only if it is proved by the root it names, addressed here, and no answer names its id, this signer sent none of that id, and no other offer of that starter from this sender was rejected for want of a slot |
| Admission.AcceptanceExactly | platform/hivra-ffi/src/invitation_support.rs:648-684 | an acceptance is written if and only if it is proved by its root, addressed here, and answers an offer of ours without answer |
| Admission.RejectionExactly | platform/hivra-ffi/src/invitation_support.rs:648-684 | likewise a rejection, with any good signature |
| Admission.ExpiryExactly | platform/hivra-ffi/src/invitation_support.rs:648-684 | an expiry is written if and only if the sender of our first offer of that id signed it and it is not here yet |
| Admission.BreakExactly | platform/hivra-ffi/src/invitation_support.rs:588-624 | a break is written if and only if it is proved by its root, the relationship stands, and it is dated after its breaks and not before its establishments; a v5 ledger takes it once |
| Admission.AcceptanceAnswer | platform/hivra-ffi/src/invitation_api.rs:790-858 | when an acceptance is Consumed, and the relationship it records, field by field |
| Admission.RejectionAnswer | platform/hivra-ffi/src/invitation_support.rs:954-981 | an EmptySlot rejection burns the offered starter if and only if it is in a slot, any other burns nothing |
| Admission.AnswerTurnedAway | platform/hivra-ffi/src/invitation_api.rs:733-800 | an answer without fitting proof, for someone else, or of another root is consumed unwritten |
| Admission.AnswerWithoutOffer | platform/hivra-ffi/src/invitation_support.rs:648-684 | an answer to an offer never made is not written and tried again |
| Admission.Preliminaries | platform/hivra-ffi/src/invitation_api.rs:662-732 | our own deliveries and what other inboxes take are consumed, what nobody can look at is tried again, nothing is written |
| Admission.OwnKindsNeverTaken | platform/hivra-ffi/src/invitation_api.rs:133-149 | capsule, starter and relationship events are never taken from a delivery |
| Admission.MalformedExactly | platform/hivra-ffi/src/invitation_support.rs:627-684 | when a payload no codec reads is written, and how it is answered |
| Admission.RelationshipSkipExactly | platform/hivra-ffi/src/invitation_support.rs:565-583 | the skip decision for a relationship, were one delivered |
| Rerouting.AddsOneOfEach | platform/hivra-ffi/src/invitation_api.rs:776-858 | however often a delivery is routed, with any events in between, it adds at most one event of each kind; on a v5 ledger for breaks of any date |
| Rerouting.QuietForever | platform/hivra-ffi/src/invitation_support.rs:878-952 | after an acceptance was consumed, routing it again changes nothing in any extension exactly if its offer carries its kind byte, or every kind of the relationship is on record |
| Rerouting.KindlessOfferRepeats | platform/hivra-ffi/src/invitation_support.rs:737-801 | with an offer without kind byte some extension makes it record another relationship |
| Rerouting.AddsAreAuthentic | platform/hivra-ffi/src/invitation_support.rs:557-684 | what a delivery adds is a local effect signed by the owner, or its own event signed by the root its payload names and answering an open offer, a received offer's sender or an active relationship |
| Receive.ResolveItem | platform/hivra-ffi/src/invitation_api.rs:924-1012 | one item: evidence, policy, routing, and storing what must be retried |
| Receive.ResolveBatch | platform/hivra-ffi/src/invitation_api.rs:924-1012 | exactly one resolution per item, in order, with the item's id and answer |
| Receive.RecoverOne | platform/hivra-ffi/src/invitation_api.rs:629-660 | expiry, choice, routing and marking of one stored delivery |
| ReceiveSafety.AnswersAreSafe | platform/hivra-ffi/src/invitation_api.rs:924-1012 | AdapterRejected exactly for refused items; Quarantined only with the delivery on disk until the end of the batch; Consumed exactly with a tombstone or a consuming route; a routed Retry is stored or stays Retry |
| RecoveryFate.ItemAnswers | platform/hivra-ffi/src/invitation_api.rs:937-1005 | an item policy stores is Quarantined and one it refuses Retry, both without routing; one the router wants retried is stored exactly if it was sealed and there is room |
| ReceiveSafety.AcceptanceNotLost | platform/hivra-ffi/src/invitation_api.rs:924-1012 | an acceptance past the checks that is answered with anything but Retry has a tombstone, a stored record, or its relationship in the ledger at the end of the batch |
| RecoveryFate.RecoverExactly | platform/hivra-ffi/src/invitation_api.rs:629-660 | what the router wants retried stays stored with one more attempt, what it consumed leaves its trace and no record; only the write or a full set of tombstones can fail |
| RecoveryFate.RecoverIdle | platform/hivra-ffi/src/invitation_api.rs:629-646 | with nothing due recovery only expires; a failed expiry or an unreadable choice is reported and nothing is routed |
| RecoveryFate.ChoiceExactly | platform/hivra-ffi/src/inbound_quarantine.rs:435-477 | recovery takes the first record due, by eligibility, arrival and id, and none only when none is due |
| RecoveryFate.PassFate | platform/hivra-ffi/src/invitation_api.rs:629-1012 | a delivery on disk before a pass is on disk after it, or it reached its expiry or the router consumed it in that pass, whatever writes fail |
| RecoveryFate.PassesFate | platform/hivra-ffi/src/invitation_api.rs:862-1012 | the same through any number of passes |
| RecoveryFate.StoredAcceptanceFate | platform/hivra-ffi/src/invitation_api.rs:629-660 | a stored acceptance past the checks is still stored after a pass, had expired, or the ledger holds its relationship |
| ReceiveSafety.PassesAreProper | platform/hivra-ffi/src/invitation_api.rs:862-1012 | any sequence of receive passes is a run of the repository in which every call is admissible and every retry was just chosen |
| ReceiveSafety.PassesAreSafe | platform/hivra-ffi/src/invitation_api.rs:862-1012 | so from an empty quarantine no repository call that writes answers Corrupt, snapshots stay valid and no delivery is attempted more than 292 times |
| ReceiveSafety.RecoveryIsSafe | platform/hivra-ffi/src/invitation_api.rs:629-660 | when delivered envelopes are addressed to the endpoint, as the adapter's guard ensures, every pass can open the repository and its recovery never ends in Corrupt |
| ReceiveSafety.PassesWithinRate | platform/hivra-ffi/src/invitation_api.rs:924-1012 | over any passes at non-decreasing times a sender is let through at most 8 + ceil((end-start)/15) times in any window |
| Chat.Inbox.PersistHandoff | platform/hivra-ffi/src/chat_api.rs:236-274 | both eviction loops end; new state and answer are those of the specification; the disk is unchanged on failure |
| Chat.Inbox.AcknowledgeHandoff | platform/hivra-ffi/src/chat_api.rs:302-330 | the retain loop splits the records; the disk is unchanged on failure |
| Chat.Inbox.ListHandoff | platform/hivra-ffi/src/chat_api.rs:291-300 | the listed messages are those on disk |
| Chat.AppendTombstones | platform/hivra-ffi/src/chat_api.rs:276-289 | push without repetition, then keep the newest 65536 |
| Chat.PersistKeepsNewest | platform/hivra-ffi/src/chat_api.rs:250-274 | storing evicts the fewest oldest messages that make the rest fit, buries exactly their ids, and fails exactly when no fit keeps a message |
| Chat.RunSound | platform/hivra-ffi/src/chat_api.rs:236-330 | in every run ids are unique, in order, at most 512, disjoint from at most 65536 distinct tombstones, within the byte limit |
| Chat.ListedInOrder | platform/hivra-ffi/src/chat_api.rs:253-257 | messages are listed oldest first, of the same time by id |
| Chat.OldestAreEvicted | platform/hivra-ffi/src/chat_api.rs:258-273 | what storing a message evicts is older than everything it keeps |
| Chat.SizeGrows | platform/hivra-ffi/src/chat_api.rs:262-265 | an empty snapshot takes 163 bytes, a message 40 and its texts, a tombstone 8 and its id |
| Chat.PersistSettles | platform/hivra-ffi/src/chat_api.rs:236-274 | a successful persist leaves the id listed or buried |
| Chat.AckSettles | platform/hivra-ffi/src/chat_api.rs:302-330 | an acknowledgement removes exactly the named ids, buries the listed ones, and never fails on size |
| Chat.TombstonesAreNewest | platform/hivra-ffi/src/chat_api.rs:276-289 | the tombstones are always the newest 65536 removed ids |
| Chat.NotRelisted | platform/hivra-ffi/src/chat_api.rs:236-330 | an acknowledged or evicted id is not listed again before 65536 later ids were removed |
| Clock.NowIncreases | platform/hivra-ffi/src/runtime_support.rs:36-59 | values returned by now increase strictly in the order of their writes, below the u64 maximum, and are at least the wall clock |
| Clock.NowDistinct | platform/hivra-ffi/src/runtime_support.rs:36-59 | no two calls return the same value, except the u64 maximum |
| Clock.NowAbovePublished | platform/hivra-ffi/src/runtime_support.rs:4-59 | a returned value is above every value that was in the cell before |
| Clock.NowAboveObserved | platform/hivra-ffi/src/runtime_support.rs:6-20 | it is above every timestamp observed before, published or not |
| Clock.NothingElseIsWritten | platform/hivra-ffi/src/runtime_support.rs:4-59 | every value returned by now is exactly the greater of its wall clock and one more than the value before, and the cell gets nothing but these and observed timestamps above it |
| Clock.SeeingNewestFinishes | platform/hivra-ffi/src/runtime_support.rs:4-59 | a thread that sees the newest value finishes with its next step unless another thread writes first |
| Clock.RunExtends | platform/hivra-ffi/src/runtime_support.rs:4-59 | values written and answers given keep their places in every longer run |

## Left out

- Cryptography (SHA-256, Ed25519, Schnorr, AES-GCM, HKDF) and key storage: hash functions are parameters, and whether a signature verifies is an input of the routing step.
- File writes, renames, temporary files and serialization: an atomic file snapshot that may fail to be written, and sizes as sums of field lengths.
- Byte codecs of event payloads: fixed-offset reads of fields; payloads are decoded, with a malformed case.
- The Nostr transport, relay timeouts, delivery receipts and diagnostics counters: network plumbing; a batch is a sequence of items.
- The attestation inbox and the JSON of chat messages: their answer to the router is an input; chat scope and bounds checks on load always pass in the modelled runs.
- The retry queues for breaks and for terminal answers (platform/hivra-ffi/src/invitation_support.rs:319-402, 453-546): they feed the transport and no modelled decision reads them.
- The engine's prepare methods, history, capsule and starter records, the mutable `Relationships` collection: thin wrappers that the modelled logic does not read.
- Loading of older snapshot formats of the quarantine: a decoding fallback.
- Migration of a ledger between two routings: a capsule routes on one protocol, with a fixed number of migrated events in front.
- Weak memory beyond one atomic cell: the clock reads and writes nothing else.
- Rerouting.AddsOneOfEach: for a break on a v4 ledger it needs the stored date not to be before the delivery's, and for an acceptance offers with kind bytes, because otherwise it is false (`FastClockBreakRepeats`, `KindlessOfferRepeats`); the exact conditions are `RedatedBreakSettles` and `QuietForever`.
- QuarantineMachine.NeverCorrupt: needs ids of at most 64 bytes, each from one sender, and none that has a tombstone; receive passes meet the last by construction (ReceiveSafety.PassesAreProper).
- Router.Runtime.RouteInbound: whether a signature is good, whether the capsule can sign and store its own event, and the v4 refusal of an identical event at the last representable date are inputs of the call, so its answers are stated for both outcomes.
- Clock.RunSound: a state machine over the atomic steps of threads instead of methods, since the loops only make sense interleaved.
