/** What each operation leaves in the store, field by field: a stored delivery, a merged
    observation, a retry, a tombstone, an expiry. */
module QuarantineOutcomes {
  import opened Common
  import opened Facts
  import opened QuarantineModel
  import opened QuarantineValidation
  import opened QuarantineInvariant
  import opened QuarantineMachine
  import opened QuarantineRetention

  // ----- storing -----

  /** A delivery as it is stored at `now`: to be tried again after 15 seconds and dropped
      after 72 hours, and it can be opened again. */
  predicate StoredNow(r: Record, scope: Scope, id: string, envelope: Envelope, reason: string, now: u64) {
    && r.id == id && r.sender == HexKey(envelope.from) && r.kind == envelope.kind
    && r.firstObservedAt == now && r.quarantinedAt == now
    && r.eligibleAfter == Min(now + 15, U64_MAX) && r.expiresAt == Min(now + 259200, U64_MAX)
    && r.attempts == 0 && r.lastAttemptAt == None
    && r.reason == (if |reason| <= 96 then reason else reason[..96])
    && r.ciphertext.scope == scope && r.ciphertext.id == id && r.ciphertext.envelope == envelope
  }

  /** There is room for one more record of this sender and `size` more bytes. */
  predicate RecordRoom(s: Snapshot, sender: string, size: nat) {
    |s.records| < 256 && Sum(s.records, FromSender(sender)) < 32 && Sum(s.records, CipherSize) + size <= 32 * 1024 * 1024
  }

  /** A new id is stored exactly if it is well formed, could be sealed and there is room;
      nothing else changes. */
  lemma StoreExactly(s: Snapshot, scope: Scope, id: string, observedBy: seq<string>, envelope: Envelope,
                     reason: string, size: Option<nat>, now: u64)
    requires forall r | r in s.records :: r.id != id
    ensures var res := AppendRecord(s, scope, id, observedBy, envelope, reason, size, now);
            && (res.Ok? <==> ValidEventId(id) && size.Some? && RecordRoom(s, HexKey(envelope.from), size.value))
            && (res.Ok? ==>
                  && res.value == s.(records := res.value.records) && |res.value.records| == |s.records| + 1
                  && exists r :: && StoredNow(r, scope, id, envelope, reason, now) && r.ciphertext.size == size.value
                                 && forall q :: q in res.value.records <==> q in s.records || q == r)
  {
    if size.Some? {
      var r := NewRecord(scope, id, observedBy, envelope, reason, size.value, now);
      PushSortMembers(s.records, r, RecordLe);
      assert StoredNow(r, scope, id, envelope, reason, now);
    }
  }

  /** A stored id keeps its record, but for who observed it, exactly if sender and kind are
      the same; otherwise nothing happens. */
  lemma ObserveExactly(s: Snapshot, scope: Scope, id: string, observedBy: seq<string>, envelope: Envelope,
                       reason: string, size: Option<nat>, now: u64, r: Record)
    requires UniqueBy(s.records, RecordId) && ValidEventId(id) && r in s.records && r.id == id
    ensures var res := AppendRecord(s, scope, id, observedBy, envelope, reason, size, now);
            && (res.Ok? <==> r.sender == HexKey(envelope.from) && r.kind == envelope.kind)
            && (res.Ok? ==>
                  && res.value == s.(records := res.value.records)
                  && Replaced(s.records, res.value.records, r, r.(observedBy := MergeObservations(r.observedBy, observedBy))))
  {
    var i :| 0 <= i < |s.records| && s.records[i] == r;
    assert HasRecordId(id)(s.records[i]);
    var k := Position(s.records, HasRecordId(id)).value;
    UniqueMember(s.records, s.records[k], r, RecordId);
    var r' := r.(observedBy := MergeObservations(r.observedBy, observedBy));
    ReplacedMembers(s.records, k, r');
    var res := AppendRecord(s, scope, id, observedBy, envelope, reason, size, now);
    if res.Ok? { assert res.value.records == s.records[k := r']; }
  }

  /** `r'` took the place of `r`. */
  ghost predicate Replaced(rs: seq<Record>, rs': seq<Record>, r: Record, r': Record) {
    forall q :: q in rs' <==> (q in rs && q != r) || q == r'
  }

  lemma ReplacedMembers(rs: seq<Record>, k: nat, r: Record)
    requires UniqueBy(rs, RecordId) && k < |rs|
    ensures Replaced(rs, rs[k := r], rs[k], r)
  {
    var qs := rs[k := r];
    forall q ensures q in qs <==> (q in rs && q != rs[k]) || q == r {
      assert qs[k] == r;
      if q in rs && q != rs[k] {
        var i :| 0 <= i < |rs| && rs[i] == q;
        assert qs[i] == q;
      }
      if q in qs && q != r {
        var i :| 0 <= i < |qs| && qs[i] == q;
        assert rs[i] == q && RecordId(rs[i]) != RecordId(rs[k]);
      }
    }
  }

  lemma {:induction false} DedupMembers(s: seq<string>)
    ensures NoRepeats(Dedup(s)) && forall x :: x in Dedup(s) <==> x in s
  {
    if |s| > 0 {
      DedupMembers(s[..|s|-1]);
      assert s == s[..|s|-1] + [s[|s|-1]];
    }
  }

  /** Merged observations are the non-empty relay names of at most 512 bytes from both
      lists, sorted and without repetition; of more than sixteen, the first sixteen. */
  lemma MergeExactly(existing: seq<string>, incoming: seq<string>)
    ensures var merged := MergeObservations(existing, incoming);
            && NoRepeats(merged) && SortedBy(merged, StringLe)
            && (forall x | x in merged :: x in existing + incoming && 0 < |x| <= 512)
            && (forall x | x in existing + incoming && 0 < |x| <= 512 ::
                  x in merged || (|merged| == 16 && forall y | y in merged :: StringLe(y, x)))
  {
    hide Dedup, NoRepeats, SortedBy, Sort, Filter;
    ValidObservations(existing + incoming);
    FirstSixteen(Sort(Dedup(Filter(existing + incoming, OkObservation)), StringLe));
  }

  lemma ValidObservations(names: seq<string>)
    ensures var all := Sort(Dedup(Filter(names, OkObservation)), StringLe);
            && NoRepeats(all) && SortedBy(all, StringLe)
            && forall x :: x in all <==> x in names && 0 < |x| <= 512
  {
    hide Dedup, NoRepeats, SortedBy, Sort, Filter;
    var valid := Filter(names, OkObservation);
    FilterMembers(names, OkObservation);
    DedupMembers(valid);
    SortContents(Dedup(valid), StringLe);
    SortedOnce(Dedup(valid));
  }

  lemma SortedOnce(s: seq<string>)
    requires NoRepeats(s)
    ensures NoRepeats(Sort(s, StringLe)) && SortedBy(Sort(s, StringLe), StringLe)
  {
    UniqueSort(s, StringLe, Itself);
    StringOrder();
    SortSorted(s, StringLe);
    var all := Sort(s, StringLe);
    forall i, j | 0 <= i < j < |all| ensures all[i] != all[j] { assert Itself(all[i]) != Itself(all[j]); }
  }

  lemma FirstSixteen(all: seq<string>)
    requires NoRepeats(all) && SortedBy(all, StringLe)
    ensures var merged := if |all| <= 16 then all else all[..16];
            && NoRepeats(merged) && SortedBy(merged, StringLe) && (forall x | x in merged :: x in all)
            && forall x | x in all :: x in merged || (|merged| == 16 && forall y | y in merged :: StringLe(y, x))
  {
    var merged := if |all| <= 16 then all else all[..16];
    forall x | x in all && x !in merged ensures |merged| == 16 && forall y | y in merged :: StringLe(y, x) {
      var i :| 0 <= i < |all| && all[i] == x;
      assert forall j | 0 <= j < 16 && j < |all| :: merged[j] == all[j];
      assert i >= 16;
    }
  }

  function Itself(x: string): string { x }

  lemma StringOrder()
    ensures TotalPreorder(StringLe)
  {
    forall a: string, b: string ensures StringLe(a, b) || StringLe(b, a) { StringLeTotal(a, b); }
    forall a: string, b: string, c: string | StringLe(a, b) && StringLe(b, c) ensures StringLe(a, c) {
      StringLeTransitive(a, b, c);
    }
  }

  // ----- retries -----

  /** Fifteen seconds, doubled with every attempt up to fifteen minutes. */
  function Delay(attempts: nat): nat {
    if attempts == 0 then 15 else if attempts == 1 then 30 else if attempts == 2 then 60
    else if attempts == 3 then 120 else if attempts == 4 then 240 else if attempts == 5 then 480 else 900
  }

  predicate TriedAgain(r: Record, r': Record, now: u64) {
    r' == r.(attempts := Min(r.attempts + 1, 65535), lastAttemptAt := Some(now),
             eligibleAfter := Min(now + Delay(Min(r.attempts + 1, 65535)), r.expiresAt))
  }

  lemma RetryIsTriedAgain(r: Record, now: u64)
    ensures TriedAgain(r, RetryRecord(r, now), now)
  {
    hide RetryDelay;
    DelayTable(Min(r.attempts + 1, 65535));
  }

  /** A retry writes one attempt, its time and the next one, and changes nothing else. */
  lemma RetryExactly(s: Snapshot, id: string, now: u64, r: Record)
    requires UniqueBy(s.records, RecordId) && r in s.records && r.id == id
    ensures var res := Retry(s, id, now);
            && res.Ok? && res.value == s.(records := res.value.records)
            && exists r' :: TriedAgain(r, r', now) && Replaced(s.records, res.value.records, r, r')
  {
    hide RetryRecord, TriedAgain;
    var i :| 0 <= i < |s.records| && s.records[i] == r;
    assert HasRecordId(id)(s.records[i]);
    var k := Position(s.records, HasRecordId(id)).value;
    UniqueMember(s.records, s.records[k], r, RecordId);
    RetryIsTriedAgain(r, now);
    ReplacedMembers(s.records, k, RetryRecord(r, now));
    assert Replaced(s.records, Retry(s, id, now).value.records, r, RetryRecord(r, now));
  }

  // ----- tombstones -----

  /** The trace a retired record leaves. */
  predicate TraceOf(t: Tombstone, r: Record, reason: string, now: u64) {
    t.id == r.id && t.sender == r.sender && t.kind == r.kind && t.reason == reason
    && t.firstObservedAt == r.firstObservedAt && t.terminalAt == now
  }

  /** A stored record without tombstone is retired exactly if there is room for its trace:
      then the record is gone, the trace is there, and nothing else changed. */
  lemma RetireExactly(s: Snapshot, id: string, reason: string, now: u64, r: Record)
    requires UniqueBy(s.records, RecordId) && r in s.records && r.id == id && forall t | t in s.tombstones :: t.id != id
    ensures var res := Retire(s, id, reason, now);
            && (res.Ok? <==> exists t :: TraceOf(t, r, reason, now) && t == TombstoneOf(r, reason, now)
                                         && |s.tombstones| < 1024 && TombstoneBytes(s.tombstones) + TombstoneSize(t) <= 1024 * 1024)
            && (res.Ok? ==>
                  && res.value == s.(records := res.value.records, tombstones := res.value.tombstones)
                  && (forall q :: q in res.value.records <==> q in s.records && q != r)
                  && exists t :: TraceOf(t, r, reason, now)
                                 && forall u :: u in res.value.tombstones <==> u in s.tombstones || u == t)
  {
    var i :| 0 <= i < |s.records| && s.records[i] == r;
    assert HasRecordId(id)(s.records[i]);
    var k := Position(s.records, HasRecordId(id)).value;
    UniqueMember(s.records, s.records[k], r, RecordId);
    var t := TombstoneOf(r, reason, now);
    assert TraceOf(t, r, reason, now);
    PushSortMembers(s.tombstones, t, TombstoneLe);
    FilterMembers(s.records, OtherRecordId(id));
    forall q | q in s.records && q.id == id ensures q == r { UniqueMember(s.records, q, r, RecordId); }
  }

  // ----- expiry -----

  /** A successful expiry drops exactly the records past their time and the tombstones
      older than thirty days; each dropped record leaves a tombstone of this moment. */
  lemma ExpireExactly(st: Store, scope: Scope, owner: Ownership, now: u64, fault: Fault)
    requires SoundStore(st, scope, owner) && StepExpire(st, scope, now, fault).1.ExpiredCount?
    ensures var (st', a) := StepExpire(st, scope, now, fault);
            && st'.mem.policies == st.mem.policies
            && (forall r :: r in st'.mem.records <==> r in st.mem.records && r.expiresAt > now)
            && (forall t | t in st.mem.tombstones && SatSub(now, t.terminalAt) <= 2592000 :: t in st'.mem.tombstones)
            && (forall t | t in st.mem.tombstones && t in st'.mem.tombstones :: SatSub(now, t.terminalAt) <= 2592000)
            && (forall r | r in st.mem.records && r.expiresAt <= now :: HasTrace(st'.mem, r, "expired", now))
            && (a.count == 0 <==> forall r | r in st.mem.records :: r.expiresAt > now)
            && (st' == st || st'.disk == st'.mem)
  {
    hide ExpireFirst, Validate, ValidTombstones, ValidPolicies, DisjointIds;
    var pruned := PruneTombstones(st.mem, now);
    PruneSound(st.mem, scope, owner, now);
    FilterMembers(st.mem.tombstones, FreshTombstone(now));
    FilterAll(st.mem.tombstones, FreshTombstone(now));
    var due := DueRecords(pruned, now);
    DueRecordsOk(pruned, now);
    ExpireAllSound(pruned, scope, owner, due, now);
    DueOrNot(pruned, due, now);
    ExpireAddsNow(pruned, due, |due|, now);
    ExpireTraces(pruned, scope, due, |due|, now);
  }

  ghost predicate HasTrace(s: Snapshot, r: Record, reason: string, now: u64) {
    exists t | t in s.tombstones :: TraceOf(t, r, reason, now)
  }

  lemma RetireTraces(s: Snapshot, scope: Scope, r: Record, now: u64)
    requires Consistent(s, scope) && r in s.records && Retire(s, r.id, EXPIRED, now).Ok?
    ensures HasTrace(Retire(s, r.id, EXPIRED, now).value, r, "expired", now)
    ensures forall t | t in s.tombstones :: t in Retire(s, r.id, EXPIRED, now).value.tombstones
  {
    hide Retire, TraceOf;
    RetireExactly(s, r.id, EXPIRED, now, r);
  }

  /** Every record an expiry drops leaves its trace. */
  lemma {:induction false} ExpireTraces(s: Snapshot, scope: Scope, due: seq<Record>, n: nat, now: u64)
    requires Consistent(s, scope) && n <= |due| && UniqueBy(due, RecordId) && forall r | r in due :: r in s.records
    ensures var res := ExpireFirst(s, due, n, now);
            res.Ok? ==> forall i | 0 <= i < n :: HasTrace(res.value, due[i], "expired", now)
  {
    hide Retire, TraceOf, Consistent;
    if n > 0 && ExpireFirst(s, due, n, now).Ok? {
      ExpireTraces(s, scope, due, n - 1, now);
      ExpireFirstSound(s, scope, due, n - 1, now);
      var t, r := ExpireFirst(s, due, n - 1, now).value, due[n-1];
      assert r in due;
      assert forall i | 0 <= i < n - 1 :: RecordId(due[i]) != RecordId(due[n-1]);
      assert !Among(due, n - 1, r.id);
      RetireTraces(t, scope, r, now);
    }
  }

  /** The tombstones an expiry adds are of this moment. */
  lemma {:induction false} ExpireAddsNow(s: Snapshot, due: seq<Record>, n: nat, now: u64)
    requires n <= |due|
    ensures var res := ExpireFirst(s, due, n, now);
            res.Ok? ==> forall t | t in res.value.tombstones :: t in s.tombstones || t.terminalAt == now
  {
    hide Retire;
    if n > 0 {
      ExpireAddsNow(s, due, n - 1, now);
      var prev := ExpireFirst(s, due, n - 1, now);
      if prev.Ok? { RetireAddsNow(prev.value, due[n-1].id, EXPIRED, now); }
    }
  }

  lemma RetireAddsNow(s: Snapshot, id: string, reason: string, now: u64)
    ensures var res := Retire(s, id, reason, now);
            res.Ok? ==> forall t | t in res.value.tombstones :: t in s.tombstones || t.terminalAt == now
  {
    var k := Position(s.records, HasRecordId(id));
    if k.Some? { PushSortMembers(s.tombstones, TombstoneOf(s.records[k.value], reason, now), TombstoneLe); }
  }

  lemma DueOrNot(s: Snapshot, due: seq<Record>, now: u64)
    requires forall r :: r in due <==> r in s.records && r.expiresAt <= now
    ensures due == [] <==> forall r | r in s.records :: r.expiresAt > now
    ensures forall r | r in s.records && r.expiresAt <= now :: Among(due, |due|, r.id) && exists i | 0 <= i < |due| :: due[i] == r
    ensures forall r | r in s.records && UniqueBy(s.records, RecordId) :: Among(due, |due|, r.id) <==> r.expiresAt <= now
  {
    if due != [] { assert due[0] in due; }
    forall r | r in s.records && r.expiresAt <= now ensures Among(due, |due|, r.id) && exists i | 0 <= i < |due| :: due[i] == r {
      assert r in due;
      var i :| 0 <= i < |due| && due[i] == r;
    }
    forall r | r in s.records && UniqueBy(s.records, RecordId) && Among(due, |due|, r.id) ensures r.expiresAt <= now {
      var i :| 0 <= i < |due| && due[i].id == r.id;
      assert due[i] in due;
      UniqueMember(s.records, due[i], r, RecordId);
    }
  }

  // ----- faults -----

  /** A fault of the write touches the file only: memory is as after the same call without
      fault, and the file stays as it was. Without fault, a call that succeeds leaves both
      alike, unless it had nothing to write. */
  lemma FaultsTouchDiskOnly(st: Store, scope: Scope, call: Call)
    ensures var (st', a) := Step(st, scope, call);
            var (calm, b) := Step(st, scope, call.(fault := NoFault));
            && st'.mem == calm.mem
            && (call.fault != NoFault && !call.op.ReopenOp? ==>
                  st'.disk == st.disk && ((a == b && (b.Failed? || calm == st)) || a == Failed(if call.fault == IoFault then Io else Crypto)))
            && (!b.Failed? ==> calm.disk == calm.mem || calm == st)
  {
    hide AppendRecord, ApplyPolicy, Retire, Retry, ExpireFirst, Validate, PruneTombstones, DueRecords;
  }
}
