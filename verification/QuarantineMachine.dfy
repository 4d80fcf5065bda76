/** The quarantine repository as a machine over its memory and its file. Every
    operation builds the next snapshot, installs it in memory, validates it and
    writes it before it answers; a crash reopens the repository from the file. */
module QuarantineMachine {
  import opened Common
  import opened Facts
  import opened QuarantineModel
  import opened QuarantineValidation
  import opened QuarantineInvariant

  /** What can go wrong while the snapshot is sealed and written. */
  datatype Fault = NoFault | IoFault | CryptoFault

  datatype Store = Store(mem: Snapshot, disk: Snapshot)

  datatype Op =
    | QuarantineOp(id: string, observedBy: seq<string>, envelope: Envelope, reason: string, size: Option<nat>)
    | PolicyOp(id: string, observedBy: seq<string>, envelope: Envelope, size: Option<nat>)
    | ExpireOp
    | ConsumeOp(id: string)
    | RetryOp(id: string)
    | ReopenOp

  datatype Answer = Done | Decided(decision: Decision) | ExpiredCount(count: nat) | Failed(error: Error)

  /** One call: the operation, the clock value it reads, and what its write does. */
  datatype Call = Call(op: Op, now: u64, fault: Fault)

  /** `self.snapshot = next; self.persist()`. */
  function Commit(st: Store, next: Snapshot, scope: Scope, fault: Fault, answer: Answer): (Store, Answer) {
    match Validate(next, scope)
    case Some(e) => (st.(mem := next), Failed(e))
    case None =>
      match fault
      case IoFault => (st.(mem := next), Failed(Io))
      case CryptoFault => (st.(mem := next), Failed(Crypto))
      case NoFault => (Store(next, next), answer)
  }

  function DueRecords(s: Snapshot, now: u64): seq<Record> { Filter(s.records, Due(now)) }

  function StepExpire(st: Store, scope: Scope, now: u64, fault: Fault): (Store, Answer) {
    var pruned := PruneTombstones(st.mem, now);
    var due := DueRecords(pruned, now);
    if due == [] && |pruned.tombstones| == |st.mem.tombstones| then (st, ExpiredCount(0))
    else
      match ExpireFirst(pruned, due, |due|, now)
      case Err(e) => (st.(mem := pruned), Failed(e))
      case Ok(next) => Commit(st, next, scope, fault, ExpiredCount(|due|))
  }

  function Step(st: Store, scope: Scope, call: Call): (Store, Answer) {
    var now, fault := call.now, call.fault;
    match call.op
    case QuarantineOp(id, observedBy, envelope, reason, size) => (
      match AppendRecord(st.mem, scope, id, observedBy, envelope, reason, size, now)
      case Err(e) => (st, Failed(e))
      case Ok(next) => Commit(st, next, scope, fault, Done))
    case PolicyOp(id, observedBy, envelope, size) => (
      match ApplyPolicy(st.mem, scope, id, observedBy, envelope, size, now)
      case Err(e) => (st, Failed(e))
      case Ok(pair) => Commit(st, pair.0, scope, fault, Decided(pair.1)))
    case ExpireOp => StepExpire(st, scope, now, fault)
    case ConsumeOp(id) => (
      match Retire(st.mem, id, CONSUMED, now)
      case Err(e) => (st, Failed(e))
      case Ok(next) => Commit(st, next, scope, fault, Done))
    case RetryOp(id) => (
      match Retry(st.mem, id, now)
      case Err(e) => (st, Failed(e))
      case Ok(next) => Commit(st, next, scope, fault, Done))
    case ReopenOp => (
      match Validate(st.disk, scope)
      case Some(e) => (st, Failed(e))
      case None => (Store(st.disk, st.disk), Done))
  }

  /** The store after the first `n` calls. */
  function Run(st: Store, scope: Scope, calls: seq<Call>, n: nat): Store
    requires n <= |calls|
  {
    if n == 0 then st else Step(Run(st, scope, calls, n - 1), scope, calls[n-1]).0
  }

  function AnswerAt(st: Store, scope: Scope, calls: seq<Call>, i: nat): Answer
    requires i < |calls|
  {
    Step(Run(st, scope, calls, i), scope, calls[i]).1
  }

  // ----- the hypotheses under which the repository is used -----

  /** An id that enters the store is short, belongs to its sender, and is not
      tombstoned (the caller asks `has_terminal_evidence` first). */
  ghost predicate Admissible(s: Snapshot, owner: Ownership, op: Op) {
    op.QuarantineOp? || op.PolicyOp? ==>
      && |op.id| <= MAX_WIRE_ID_LEN
      && owner(op.id) == HexKey(op.envelope.from)
      && forall t | t in s.tombstones :: t.id != op.id
  }

  ghost predicate AdmissibleRun(st: Store, scope: Scope, owner: Ownership, calls: seq<Call>) {
    forall i | 0 <= i < |calls| :: Admissible(Run(st, scope, calls, i).mem, owner, calls[i].op)
  }

  ghost predicate SoundStore(st: Store, scope: Scope, owner: Ownership) {
    Sound(st.mem, scope, owner) && Sound(st.disk, scope, owner)
  }

  // ----- no run ends in Corrupt -----

  lemma CommitSound(st: Store, next: Snapshot, scope: Scope, owner: Ownership, fault: Fault, answer: Answer)
    requires SoundStore(st, scope, owner) && Sound(next, scope, owner)
    ensures var (st', a) := Commit(st, next, scope, fault, answer);
            && SoundStore(st', scope, owner)
            && (a == answer || a == Failed(Io) || a == Failed(Crypto))
            && (a == answer && answer != Failed(Io) && answer != Failed(Crypto) ==> st' == Store(next, next))
  {
    ValidateIsExact(next, scope);
  }

  lemma DueRecordsOk(s: Snapshot, now: u64)
    requires UniqueBy(s.records, RecordId)
    ensures UniqueBy(DueRecords(s, now), RecordId)
    ensures forall r :: r in DueRecords(s, now) <==> r in s.records && r.expiresAt <= now
  {
    FilterMembers(s.records, Due(now));
    UniqueFilter(s.records, Due(now), RecordId);
  }

  lemma ExpireSound(st: Store, scope: Scope, owner: Ownership, now: u64, fault: Fault)
    requires SoundStore(st, scope, owner)
    ensures var (st', a) := StepExpire(st, scope, now, fault);
            && SoundStore(st', scope, owner)
            && a != Failed(Corrupt) && a != Failed(InvalidScope)
  {
    var pruned := PruneTombstones(st.mem, now);
    PruneSound(st.mem, scope, owner, now);
    var due := DueRecords(pruned, now);
    DueRecordsOk(pruned, now);
    ExpireAllSound(pruned, scope, owner, due, now);
    var res := ExpireFirst(pruned, due, |due|, now);
    if res.Ok? {
      CommitSound(st, res.value, scope, owner, fault, ExpiredCount(|due|));
    }
  }

  /** One call keeps both snapshots sound and never answers that the snapshot is
      corrupt, whatever the clock says and whether or not the write succeeds. */
  lemma StepSound(st: Store, scope: Scope, owner: Ownership, call: Call)
    requires ValidScope(scope) && SoundStore(st, scope, owner) && Admissible(st.mem, owner, call.op)
    ensures var (st', a) := Step(st, scope, call);
            && SoundStore(st', scope, owner)
            && a != Failed(Corrupt) && a != Failed(InvalidScope)
  {
    hide Sound, AppendRecord, ApplyPolicy, Retire, Retry, Commit, StepExpire, Validate;
    var now, fault := call.now, call.fault;
    match call.op
    case QuarantineOp(id, observedBy, envelope, reason, size) =>
      var res := AppendRecord(st.mem, scope, id, observedBy, envelope, reason, size, now);
      if res.Ok? {
        QuarantineSound(st.mem, scope, owner, id, observedBy, envelope, reason, size, now);
        CommitSound(st, res.value, scope, owner, fault, Done);
      }
    case PolicyOp(id, observedBy, envelope, size) =>
      var res := ApplyPolicy(st.mem, scope, id, observedBy, envelope, size, now);
      if res.Ok? {
        ApplyPolicySound(st.mem, scope, owner, id, observedBy, envelope, size, now);
        CommitSound(st, res.value.0, scope, owner, fault, Decided(res.value.1));
      }
    case ExpireOp =>
      ExpireSound(st, scope, owner, now, fault);
    case ConsumeOp(id) =>
      var res := Retire(st.mem, id, CONSUMED, now);
      if res.Ok? {
        ConsumeSound(st.mem, scope, owner, id, now);
        CommitSound(st, res.value, scope, owner, fault, Done);
      }
    case RetryOp(id) =>
      var res := Retry(st.mem, id, now);
      if res.Ok? {
        RetrySound(st.mem, scope, owner, id, now);
        CommitSound(st, res.value, scope, owner, fault, Done);
      }
    case ReopenOp =>
      ReopenAccepts(st.disk, scope, owner);
  }

  lemma ReopenAccepts(s: Snapshot, scope: Scope, owner: Ownership)
    requires Sound(s, scope, owner)
    ensures Validate(s, scope).None?
  {
    ValidateIsExact(s, scope);
  }

  /** Over every run of admissible calls, with faults and crashes anywhere, both
      snapshots stay valid and no call ever ends in `Corrupt`. */
  lemma {:induction false} NeverCorrupt(st: Store, scope: Scope, owner: Ownership, calls: seq<Call>, n: nat)
    requires ValidScope(scope) && SoundStore(st, scope, owner) && AdmissibleRun(st, scope, owner, calls)
    requires n <= |calls|
    ensures SoundStore(Run(st, scope, calls, n), scope, owner)
    ensures forall i | 0 <= i < n :: AnswerAt(st, scope, calls, i) != Failed(Corrupt)
  {
    hide Step, Sound, Admissible;
    if n > 0 {
      NeverCorrupt(st, scope, owner, calls, n - 1);
      StepSound(Run(st, scope, calls, n - 1), scope, owner, calls[n-1]);
    }
  }

  lemma EmptyIsSound(scope: Scope, owner: Ownership)
    ensures SoundStore(Store(EmptySnapshot(scope), EmptySnapshot(scope)), scope, owner)
  {
  }
}
