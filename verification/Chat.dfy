/** The durable chat inbox: at most 512 messages in time order, and a queue of the
    65536 newest ids that were acknowledged or evicted
    (platform/hivra-ffi/src/chat_api.rs). A string is the sequence of its UTF-8
    bytes, one char each. The encrypted file is the snapshot `disk`. */
module Chat {
  import opened Common

  const INBOX_CAPACITY: nat := 512
  const TOMBSTONE_CAPACITY: nat := 65536
  const MAX_PLAINTEXT_BYTES: nat := 33554432

  datatype Message = Message(eventId: string, from: string, to: string, payload: string, timestamp: u64)

  datatype Snapshot = Snapshot(records: seq<Message>, tombstones: seq<string>)

  const EMPTY := Snapshot([], [])

  function IdOf(m: Message): string { m.eventId }

  /** The stored order: timestamp, then id. */
  predicate Older(a: Message, b: Message) {
    if a.timestamp == b.timestamp then StringLe(a.eventId, b.eventId) else a.timestamp < b.timestamp
  }

  // ----- serialized size -----

  const HEADER_BYTES: nat := 2 + 72 + 1 + 72 + 8 + 8

  function MessageSize(m: Message): nat {
    40 + |m.eventId| + |m.from| + |m.to| + |m.payload|
  }

  function IdSize(id: string): nat { 8 + |id| }

  function Size(s: Snapshot): nat { HEADER_BYTES + Sum(s.records, MessageSize) + Sum(s.tombstones, IdSize) }

  // ----- tombstones -----

  function Newest(ids: seq<string>): seq<string> {
    if |ids| > TOMBSTONE_CAPACITY then ids[|ids| - TOMBSTONE_CAPACITY..] else ids
  }

  function Push(tombstones: seq<string>, ids: seq<string>): seq<string> {
    if ids == [] then tombstones
    else
      var t := Push(tombstones, ids[..|ids|-1]);
      if ids[|ids|-1] in t then t else t + [ids[|ids|-1]]
  }

  function Bury(tombstones: seq<string>, ids: seq<string>): seq<string> { Newest(Push(tombstones, ids)) }

  // ----- operations -----

  function Retire(s: Snapshot): Snapshot
    requires s.records != []
  {
    Snapshot(s.records[1..], Bury(s.tombstones, [s.records[0].eventId]))
  }

  function EvictCount(s: Snapshot): Snapshot
    decreases |s.records|
  {
    if |s.records| > INBOX_CAPACITY then EvictCount(Retire(s)) else s
  }

  function EvictBytes(s: Snapshot): Option<Snapshot>
    decreases |s.records|
  {
    if Size(s) <= MAX_PLAINTEXT_BYTES then Some(s)
    else if |s.records| <= 1 then None
    else EvictBytes(Retire(s))
  }

  predicate Known(s: Snapshot, id: string) {
    id in s.tombstones || exists m | m in s.records :: m.eventId == id
  }

  function Arrival(s: Snapshot, m: Message): Snapshot { s.(records := Sort(s.records + [m], Older)) }

  /** The snapshot `persist_chat_handoff` writes for a new message; None when it gives up. */
  function Persisted(s: Snapshot, m: Message): Option<Snapshot> { EvictBytes(EvictCount(Arrival(s, m))) }

  function Ids(ms: seq<Message>): (ids: seq<string>)
    ensures |ids| == |ms|
  {
    seq(|ms|, i requires 0 <= i < |ms| => ms[i].eventId)
  }

  function Listed(ids: set<string>): Message -> bool { (m: Message) => m.eventId in ids }

  function Unlisted(ids: set<string>): Message -> bool { (m: Message) => m.eventId !in ids }

  function Acknowledged(s: Snapshot, ids: set<string>): Snapshot {
    Snapshot(Filter(s.records, Unlisted(ids)), Bury(s.tombstones, Ids(Filter(s.records, Listed(ids)))))
  }

  // ----- the inbox on disk -----

  class Inbox {
    var disk: Snapshot

    constructor ()
      ensures disk == EMPTY
    {
      disk := EMPTY;
    }

    method ListHandoff() returns (records: seq<Message>)
      ensures records == disk.records
    {
      records := disk.records;
    }

    /** `persist_chat_handoff`; `written` is whether the file could be replaced. */
    method PersistHandoff(m: Message, written: bool) returns (ok: bool)
      modifies this
      ensures ok == Answer(old(disk), PersistOp(m, written))
      ensures disk == Do(old(disk), PersistOp(m, written))
    {
      hide Size, Bury, Sort;
      if m.eventId in disk.tombstones || exists x | x in disk.records :: x.eventId == m.eventId {
        return true;
      }
      var s := disk.(records := Sort(disk.records + [m], Older));
      ghost var arrived := s;
      while |s.records| > INBOX_CAPACITY
        invariant disk == old(disk) && EvictCount(s) == EvictCount(arrived)
        decreases |s.records|
      {
        var evicted := s.records[0];
        s := s.(records := s.records[1..]);
        var tombstones := AppendTombstones(s.tombstones, [evicted.eventId]);
        s := s.(tombstones := tombstones);
      }
      while Size(s) > MAX_PLAINTEXT_BYTES
        invariant disk == old(disk) && EvictBytes(s) == Persisted(old(disk), m)
        decreases |s.records|
      {
        if |s.records| <= 1 { return false; }
        var evicted := s.records[0];
        s := s.(records := s.records[1..]);
        var tombstones := AppendTombstones(s.tombstones, [evicted.eventId]);
        s := s.(tombstones := tombstones);
      }
      ok := written;
      if written { disk := s; }
    }

    /** `acknowledge_chat_handoff`. */
    method AcknowledgeHandoff(ids: set<string>, written: bool) returns (ok: bool)
      modifies this
      ensures ok == Answer(old(disk), AckOp(ids, written))
      ensures disk == Do(old(disk), AckOp(ids, written))
    {
      if ids == {} { return true; }
      var kept: seq<Message>, acknowledged: seq<string> := [], [];
      for i := 0 to |disk.records|
        invariant kept == Filter(disk.records[..i], Unlisted(ids))
        invariant acknowledged == Ids(Filter(disk.records[..i], Listed(ids)))
      {
        assert disk.records[..i+1][..i] == disk.records[..i];
        var m := disk.records[i];
        if m.eventId in ids {
          acknowledged := acknowledged + [m.eventId];
        } else {
          kept := kept + [m];
        }
      }
      assert disk.records[..|disk.records|] == disk.records;
      var tombstones := AppendTombstones(disk.tombstones, acknowledged);
      var s := Snapshot(kept, tombstones);
      ok := Size(s) <= MAX_PLAINTEXT_BYTES && written;
      if ok { disk := s; }
    }
  }

  /** `append_chat_tombstones`. */
  method AppendTombstones(tombstones: seq<string>, ids: seq<string>) returns (t: seq<string>)
    ensures t == Bury(tombstones, ids)
  {
    t := tombstones;
    for i := 0 to |ids|
      invariant t == Push(tombstones, ids[..i])
    {
      assert ids[..i+1][..i] == ids[..i];
      if !(ids[i] in t) { t := t + [ids[i]]; }
    }
    assert ids[..|ids|] == ids;
    if |t| > TOMBSTONE_CAPACITY {
      var overflow := |t| - TOMBSTONE_CAPACITY;
      t := t[overflow..];
    }
  }

  // ----- runs -----

  datatype Op =
    | PersistOp(message: Message, written: bool)
    | AckOp(ids: set<string>, written: bool)

  function Do(s: Snapshot, op: Op): Snapshot {
    match op
    case PersistOp(m, written) =>
      if Known(s, m.eventId) || Persisted(s, m).None? || !written then s else Persisted(s, m).value
    case AckOp(ids, written) =>
      if ids == {} || Size(Acknowledged(s, ids)) > MAX_PLAINTEXT_BYTES || !written then s else Acknowledged(s, ids)
  }

  predicate Answer(s: Snapshot, op: Op) {
    match op
    case PersistOp(m, written) => Known(s, m.eventId) || (Persisted(s, m).Some? && written)
    case AckOp(ids, written) => ids == {} || (Size(Acknowledged(s, ids)) <= MAX_PLAINTEXT_BYTES && written)
  }

  function Run(ops: seq<Op>): Snapshot {
    if ops == [] then EMPTY else Do(Run(ops[..|ops|-1]), ops[|ops|-1])
  }

  /** The messages a step started from, with the arriving one when the step wrote. */
  function Present(s: Snapshot, op: Op): seq<Message> {
    if op.PersistOp? && Do(s, op) != s then Sort(s.records + [op.message], Older) else s.records
  }

  function NotIn(records: seq<Message>): Message -> bool { (m: Message) => m !in records }

  /** The ids of the messages a step removed, oldest first. */
  function Departed(s: Snapshot, op: Op): seq<string> {
    Ids(Filter(Present(s, op), NotIn(Do(s, op).records)))
  }

  /** Every id removed so far, in order of removal. */
  function Log(ops: seq<Op>): seq<string> {
    if ops == [] then []
    else Log(ops[..|ops|-1]) + Departed(Run(ops[..|ops|-1]), ops[|ops|-1])
  }

  // ----- the invariant -----

  ghost predicate Sound(s: Snapshot) {
    && UniqueBy(s.records, IdOf)
    && SortedBy(s.records, Older)
    && |s.records| <= INBOX_CAPACITY
    && |s.tombstones| <= TOMBSTONE_CAPACITY
    && NoRepeats(s.tombstones)
    && (forall m | m in s.records :: m.eventId !in s.tombstones)
    && Size(s) <= MAX_PLAINTEXT_BYTES
  }

  lemma OlderIsOrder()
    ensures TotalPreorder(Older)
  {
    forall a: Message, b: Message ensures Older(a, b) || Older(b, a) { StringLeTotal(a.eventId, b.eventId); }
    forall a: Message, b: Message, c: Message | Older(a, b) && Older(b, c) ensures Older(a, c) {
      if a.timestamp == b.timestamp == c.timestamp { StringLeTransitive(a.eventId, b.eventId, c.eventId); }
    }
  }

  // ----- eviction in closed form -----

  /** The `j` oldest messages of `r` evicted at once. */
  function After(r: seq<Message>, t: seq<string>, j: nat): Snapshot
    requires j <= |r|
  {
    Snapshot(r[j..], Newest(t + Ids(r[..j])))
  }

  /** New ids that are not yet buried. */
  ghost predicate Burial(t: seq<string>, ids: seq<string>) {
    NoRepeats(ids) && NoRepeats(t) && forall id | id in ids :: id !in t
  }

  lemma {:induction false} PushFresh(t: seq<string>, ids: seq<string>)
    requires Burial(t, ids)
    ensures Push(t, ids) == t + ids
  {
    if ids != [] {
      var less := ids[..|ids|-1];
      assert ids == less + [ids[|ids|-1]];
      PushFresh(t, less);
      assert ids[|ids|-1] !in less;
    } else {
      assert t + ids == t;
    }
  }

  lemma NewestNewest(t: seq<string>, more: seq<string>)
    ensures Newest(Newest(t) + more) == Newest(t + more)
  {
  }

  lemma NewestBurial(t: seq<string>, ids: seq<string>)
    requires Burial(t, ids)
    ensures NoRepeats(Newest(t + ids)) && |Newest(t + ids)| <= TOMBSTONE_CAPACITY
    ensures forall id | id in Newest(t + ids) :: id in t || id in ids
    ensures |ids| <= TOMBSTONE_CAPACITY ==> forall id | id in ids :: id in Newest(t + ids)
  {
    var all := t + ids;
    forall i, j | 0 <= i < j < |all| ensures all[i] != all[j] {
      if i < |t| && j >= |t| { assert ids[j - |t|] in ids; }
    }
    if |ids| <= TOMBSTONE_CAPACITY {
      var k := |Newest(all)| - |ids|;
      forall id | id in ids ensures id in Newest(all) {
        var i :| 0 <= i < |ids| && ids[i] == id;
        assert Newest(all)[k + i] == id;
      }
    }
  }

  /** Distinct ids, none of them buried. */
  ghost predicate Separate(r: seq<Message>, t: seq<string>) {
    UniqueBy(r, IdOf) && NoRepeats(t) && forall m | m in r :: m.eventId !in t
  }

  lemma SeparateBurial(r: seq<Message>, t: seq<string>, j: nat)
    requires Separate(r, t) && j <= |r|
    ensures Burial(t, Ids(r[..j]))
    ensures forall m | m in r[j..] :: m.eventId !in Ids(r[..j])
  {
    var ids := Ids(r[..j]);
    forall a, b | 0 <= a < b < |ids| ensures ids[a] != ids[b] { assert IdOf(r[a]) != IdOf(r[b]); }
    forall id | id in ids ensures id !in t {
      var a :| 0 <= a < |ids| && ids[a] == id;
      assert r[a] in r;
    }
    forall m | m in r[j..] ensures m.eventId !in ids {
      var b :| j <= b < |r| && r[b] == m;
      forall a | 0 <= a < j ensures ids[a] != m.eventId { assert IdOf(r[a]) != IdOf(r[b]); }
    }
  }

  lemma RetireAfter(r: seq<Message>, t: seq<string>, j: nat)
    requires Separate(r, t) && j < |r|
    ensures Retire(After(r, t, j)) == After(r, t, j + 1)
  {
    hide Newest, Push, Separate;
    var id := r[j].eventId;
    SeparateBurial(r, t, j);
    SeparateBurial(r, t, j + 1);
    NewestBurial(t, Ids(r[..j]));
    assert Ids(r[..j+1]) == Ids(r[..j]) + [id];
    assert r[j] in r[j..];
    assert id in Ids(r[..j+1]);
    var b := Newest(t + Ids(r[..j]));
    assert id !in b;
    PushFresh(b, [id]);
    NewestNewest(t + Ids(r[..j]), [id]);
    assert t + Ids(r[..j]) + [id] == t + Ids(r[..j+1]);
  }

  predicate Fits(r: seq<Message>, t: seq<string>, j: nat)
    requires j <= |r|
  {
    |r| - j <= INBOX_CAPACITY && Size(After(r, t, j)) <= MAX_PLAINTEXT_BYTES
  }

  lemma {:induction false} CountAfter(r: seq<Message>, t: seq<string>, j: nat)
    requires Separate(r, t) && j <= |r|
    ensures EvictCount(After(r, t, j)) == After(r, t, if |r| - j > INBOX_CAPACITY then |r| - INBOX_CAPACITY else j)
    decreases |r| - j
  {
    hide After, Separate, Retire, Bury;
    AfterRecords(r, t, j);
    if |r| - j > INBOX_CAPACITY {
      RetireAfter(r, t, j);
      CountAfter(r, t, j + 1);
    }
  }

  lemma AfterRecords(r: seq<Message>, t: seq<string>, j: nat)
    requires j <= |r|
    ensures After(r, t, j).records == r[j..]
  {
  }

  /** Eviction by bytes stops at the first fit, and fails when there is none that
      keeps a message. */
  lemma {:induction false} BytesAfter(r: seq<Message>, t: seq<string>, j: nat)
    requires Separate(r, t) && j < |r| && |r| - j <= INBOX_CAPACITY
    ensures match EvictBytes(After(r, t, j))
            case Some(s) => exists k | j <= k < |r| ::
              s == After(r, t, k) && Fits(r, t, k) && forall i | j <= i < k :: !Fits(r, t, i)
            case None => forall i | j <= i < |r| :: !Fits(r, t, i)
    decreases |r| - j
  {
    hide After, Separate, Retire, Bury, Size;
    AfterRecords(r, t, j);
    if Fits(r, t, j) {
      assert EvictBytes(After(r, t, j)) == Some(After(r, t, j));
    } else if j + 1 < |r| {
      RetireAfter(r, t, j);
      BytesAfter(r, t, j + 1);
    }
  }

  /** Storing a new message evicts the fewest oldest messages that make the rest fit
      the count and byte limits, and buries exactly their ids; it gives up exactly
      when even one message alone does not fit. */
  lemma PersistKeepsNewest(s: Snapshot, m: Message)
    requires Sound(s) && !Known(s, m.eventId)
    ensures var r := Sort(s.records + [m], Older);
            match Persisted(s, m)
            case Some(s') => exists j | 0 <= j < |r| ::
              s' == After(r, s.tombstones, j) && Fits(r, s.tombstones, j) && forall i | 0 <= i < j :: !Fits(r, s.tombstones, i)
            case None => forall j | 0 <= j < |r| :: !Fits(r, s.tombstones, j)
  {
    hide After, EvictCount, EvictBytes, Size;
    var r, t := Sort(s.records + [m], Older), s.tombstones;
    ArrivalSeparate(s, m);
    assert After(r, t, 0) == Arrival(s, m) by { NothingEvicted(r, t); }
    CountAfter(r, t, 0);
    var j0 := if |r| > INBOX_CAPACITY then |r| - INBOX_CAPACITY else 0;
    BytesAfter(r, t, j0);
    forall i | 0 <= i < j0 ensures !Fits(r, t, i) { }
  }

  lemma NothingEvicted(r: seq<Message>, t: seq<string>)
    requires |t| <= TOMBSTONE_CAPACITY
    ensures After(r, t, 0) == Snapshot(r, t)
  {
    assert r[0..] == r && r[..0] == [] && t + Ids([]) == t;
  }

  lemma ArrivalSeparate(s: Snapshot, m: Message)
    requires Sound(s) && !Known(s, m.eventId)
    ensures var r := Sort(s.records + [m], Older);
            && Separate(r, s.tombstones) && SortedBy(r, Older) && |r| == |s.records| + 1
            && forall x :: x in r <==> x in s.records || x == m
  {
    hide Sort, Size;
    PushSortMembers(s.records, m, Older);
    PushSortUnique(s.records, m, Older, IdOf);
    OlderIsOrder();
    SortSorted(s.records + [m], Older);
  }

  // ----- every step -----

  lemma AfterSound(r: seq<Message>, t: seq<string>, j: nat)
    requires Separate(r, t) && SortedBy(r, Older) && j <= |r| && Fits(r, t, j)
    ensures Sound(After(r, t, j))
  {
    hide Newest, Size;
    SeparateBurial(r, t, j);
    NewestBurial(t, Ids(r[..j]));
    var s := After(r, t, j);
    forall a, b | 0 <= a < b < |s.records| ensures IdOf(s.records[a]) != IdOf(s.records[b]) {
      assert IdOf(r[j + a]) != IdOf(r[j + b]);
    }
    forall m | m in s.records ensures m.eventId !in s.tombstones { assert m in r; }
  }

  lemma PersistSound(s: Snapshot, m: Message, written: bool)
    requires Sound(s)
    ensures Sound(Do(s, PersistOp(m, written)))
  {
    hide Sound, Persisted, After, Fits, Known;
    if Do(s, PersistOp(m, written)) != s {
      PersistKeepsNewest(s, m);
      ArrivalSeparate(s, m);
      var r := Sort(s.records + [m], Older);
      var j :| 0 <= j < |r| && Persisted(s, m) == Some(After(r, s.tombstones, j)) && Fits(r, s.tombstones, j);
      AfterSound(r, s.tombstones, j);
    }
  }

  lemma {:induction false} FilterSorted(s: seq<Message>, p: Message -> bool)
    requires SortedBy(s, Older)
    ensures SortedBy(Filter(s, p), Older)
  {
    if s != [] {
      var t, x := s[..|s|-1], s[|s|-1];
      FilterSorted(t, p);
      FilterMembers(t, p);
      var f := Filter(t, p);
      forall i | 0 <= i < |f| ensures Older(f[i], x) {
        assert f[i] in t;
        var k :| 0 <= k < |t| && t[k] == f[i];
        assert Older(s[k], s[|s|-1]);
      }
    }
  }

  /** The acknowledged ids are new to the tombstones. */
  lemma AckBurial(s: Snapshot, ids: set<string>)
    requires Sound(s)
    ensures Burial(s.tombstones, Ids(Filter(s.records, Listed(ids))))
    ensures |Filter(s.records, Listed(ids))| <= |s.records|
    ensures forall m | m in s.records && m.eventId !in ids :: m.eventId !in Ids(Filter(s.records, Listed(ids)))
  {
    hide Size, SortedBy;
    var gone := Filter(s.records, Listed(ids));
    UniqueFilter(s.records, Listed(ids), IdOf);
    FilterMembers(s.records, Listed(ids));
    var all := Ids(gone);
    forall a, b | 0 <= a < b < |all| ensures all[a] != all[b] { assert IdOf(gone[a]) != IdOf(gone[b]); }
    forall id | id in all ensures id !in s.tombstones && id in ids {
      var a :| 0 <= a < |all| && all[a] == id;
      assert gone[a] in gone;
    }
  }

  lemma AckSound(s: Snapshot, ids: set<string>)
    requires Sound(s)
    ensures Sound(Acknowledged(s, ids))
  {
    hide Newest, Push, Size, Filter;
    AckBurial(s, ids);
    var gone := Ids(Filter(s.records, Listed(ids)));
    PushFresh(s.tombstones, gone);
    NewestBurial(s.tombstones, gone);
    UniqueFilter(s.records, Unlisted(ids), IdOf);
    FilterSorted(s.records, Unlisted(ids));
    FilterMembers(s.records, Unlisted(ids));
    AckShrinks(s, ids);
  }

  /** An acknowledgement never makes the snapshot larger, so it cannot fail on size. */
  lemma AckShrinks(s: Snapshot, ids: set<string>)
    requires Sound(s)
    ensures Size(Acknowledged(s, ids)) <= Size(s)
  {
    hide Newest, Push, Sound;
    var gone := Filter(s.records, Listed(ids));
    AckBurial(s, ids);
    PushFresh(s.tombstones, Ids(gone));
    NewestSize(s.tombstones + Ids(gone));
    SumConcat(s.tombstones, Ids(gone), IdSize);
    IdsSize(gone);
    SplitSize(s.records, ids);
  }

  lemma NewestSize(ids: seq<string>)
    ensures Sum(Newest(ids), IdSize) <= Sum(ids, IdSize)
  {
    if |ids| > TOMBSTONE_CAPACITY {
      var k := |ids| - TOMBSTONE_CAPACITY;
      SumConcat(ids[..k], ids[k..], IdSize);
      assert ids == ids[..k] + ids[k..];
    }
  }

  lemma {:induction false} IdsSize(ms: seq<Message>)
    ensures Sum(Ids(ms), IdSize) <= Sum(ms, MessageSize)
  {
    if ms != [] {
      IdsSize(ms[..|ms|-1]);
      assert Ids(ms)[..|ms|-1] == Ids(ms[..|ms|-1]);
    }
  }

  lemma {:induction false} SplitSize(ms: seq<Message>, ids: set<string>)
    ensures Sum(Filter(ms, Listed(ids)), MessageSize) + Sum(Filter(ms, Unlisted(ids)), MessageSize)
         == Sum(ms, MessageSize)
  {
    if ms != [] {
      var less, m := ms[..|ms|-1], ms[|ms|-1];
      SplitSize(less, ids);
      SumAppend(Filter(less, Listed(ids)), m, MessageSize);
      SumAppend(Filter(less, Unlisted(ids)), m, MessageSize);
    }
  }

  lemma StepSound(s: Snapshot, op: Op)
    requires Sound(s)
    ensures Sound(Do(s, op))
  {
    hide Sound, Persisted, Acknowledged;
    match op
    case PersistOp(m, written) => PersistSound(s, m, written);
    case AckOp(ids, written) => AckSound(s, ids);
  }

  /** In every run: ids unique, in time order, at most 512, disjoint from at most 65536
      distinct tombstones, within the byte limit. */
  lemma {:induction false} RunSound(ops: seq<Op>)
    ensures Sound(Run(ops))
  {
    hide Do;
    if ops != [] {
      RunSound(ops[..|ops|-1]);
      StepSound(Run(ops[..|ops|-1]), ops[|ops|-1]);
    }
  }

  // ----- what the answers mean -----

  predicate ListedIn(s: Snapshot, id: string) { exists m | m in s.records :: m.eventId == id }

  /** A message answered with success is listed or buried. */
  lemma PersistSettles(s: Snapshot, m: Message, written: bool)
    requires Sound(s) && Answer(s, PersistOp(m, written))
    ensures Known(Do(s, PersistOp(m, written)), m.eventId)
  {
    hide Persisted, Sort, Newest, Size;
    if !Known(s, m.eventId) {
      PersistKeepsNewest(s, m);
      ArrivalSeparate(s, m);
      var r, t := Sort(s.records + [m], Older), s.tombstones;
      var j :| 0 <= j < |r| && Persisted(s, m) == Some(After(r, t, j));
      SeparateBurial(r, t, j);
      NewestBurial(t, Ids(r[..j]));
      var i :| 0 <= i < |r| && r[i] == m;
      if i < j { assert Ids(r[..j])[i] == m.eventId; } else { assert r[j..][i - j] == m; }
    }
  }

  /** A successful acknowledgement delists exactly the named ids, and buries those
      that were listed. */
  lemma AckSettles(s: Snapshot, ids: set<string>, written: bool)
    requires Sound(s)
    ensures Answer(s, AckOp(ids, written)) <==> ids == {} || written
    ensures Answer(s, AckOp(ids, written)) ==>
              var s' := Do(s, AckOp(ids, written));
              && (forall m :: m in s'.records <==> m in s.records && m.eventId !in ids)
              && (forall m | m in s.records && m.eventId in ids :: m.eventId in s'.tombstones)
  {
    hide Newest, Push, Size, SortedBy;
    AckShrinks(s, ids);
    AckBurial(s, ids);
    var gone := Filter(s.records, Listed(ids));
    PushFresh(s.tombstones, Ids(gone));
    NewestBurial(s.tombstones, Ids(gone));
    FilterMembers(s.records, Unlisted(ids));
    FilterMembers(s.records, Listed(ids));
    forall m | m in s.records && m.eventId in ids ensures m.eventId in Ids(gone) {
      var k :| 0 <= k < |gone| && gone[k] == m;
      assert Ids(gone)[k] == m.eventId;
    }
  }

  // ----- the tombstone queue -----

  lemma {:induction false} FilterTail(r: seq<Message>, j: nat)
    requires UniqueBy(r, IdOf) && j <= |r|
    ensures Filter(r, NotIn(r[j..])) == r[..j]
  {
    FilterTailAt(r, j, |r|);
    assert r[..|r|] == r;
  }

  lemma {:induction false} FilterTailAt(r: seq<Message>, j: nat, n: nat)
    requires UniqueBy(r, IdOf) && j <= |r| && n <= |r|
    ensures Filter(r[..n], NotIn(r[j..])) == r[..Min(j, n)]
  {
    if n > 0 {
      FilterTailAt(r, j, n - 1);
      assert r[..n][..n-1] == r[..n-1];
      var m := r[n-1];
      if n <= j {
        forall k | j <= k < |r| ensures r[k] != m { assert IdOf(r[n-1]) != IdOf(r[k]); }
        assert m !in r[j..];
      } else {
        assert r[j..][n - 1 - j] == m;
      }
    }
  }

  lemma {:induction false} FilterSame(r: seq<Message>, p: Message -> bool, q: Message -> bool)
    requires forall m | m in r :: p(m) == q(m)
    ensures Filter(r, p) == Filter(r, q)
  {
    if r != [] { FilterSame(r[..|r|-1], p, q); }
  }

  /** A step buries the ids of the messages it removed, behind the earlier ones. */
  lemma StepBuries(s: Snapshot, op: Op)
    requires Sound(s)
    ensures Do(s, op).tombstones == Newest(s.tombstones + Departed(s, op))
  {
    hide Sound, Persisted, Acknowledged, Newest, Sort, Size;
    if Do(s, op) == s {
      NothingDeparts(s);
    } else if op.PersistOp? {
      PersistBuries(s, op.message);
    } else {
      AckBuries(s, op.ids);
    }
  }

  lemma NothingDeparts(s: Snapshot)
    requires Sound(s)
    ensures Filter(s.records, NotIn(s.records)) == [] && Newest(s.tombstones + Ids([])) == s.tombstones
  {
    FilterMembers(s.records, NotIn(s.records));
    var f := Filter(s.records, NotIn(s.records));
    SameMembersEmpty(f, []);
    assert s.tombstones + Ids([]) == s.tombstones;
  }

  lemma PersistBuries(s: Snapshot, m: Message)
    requires Sound(s) && !Known(s, m.eventId) && Persisted(s, m).Some?
    ensures var r := Sort(s.records + [m], Older);
            var s' := Persisted(s, m).value;
            s'.tombstones == Newest(s.tombstones + Ids(Filter(r, NotIn(s'.records))))
  {
    hide Sound, Persisted, Newest, Sort, Known, Filter, Fits;
    PersistKeepsNewest(s, m);
    ArrivalSeparate(s, m);
    var r, t := Sort(s.records + [m], Older), s.tombstones;
    var j :| 0 <= j < |r| && Persisted(s, m) == Some(After(r, t, j));
    FilterTail(r, j);
  }

  lemma AckBuries(s: Snapshot, ids: set<string>)
    requires Sound(s)
    ensures var s' := Acknowledged(s, ids);
            s'.tombstones == Newest(s.tombstones + Ids(Filter(s.records, NotIn(s'.records))))
  {
    hide Newest, Sound, Filter;
    AckBurial(s, ids);
    PushFresh(s.tombstones, Ids(Filter(s.records, Listed(ids))));
    FilterMembers(s.records, Unlisted(ids));
    FilterSame(s.records, Listed(ids), NotIn(Filter(s.records, Unlisted(ids))));
  }

  /** The tombstones are always the newest 65536 ids of the log. */
  lemma {:induction false} TombstonesAreNewest(ops: seq<Op>)
    ensures Run(ops).tombstones == Newest(Log(ops))
  {
    hide Do, Departed;
    if ops != [] {
      var less := ops[..|ops|-1];
      TombstonesAreNewest(less);
      RunSound(less);
      StepBuries(Run(less), ops[|ops|-1]);
      NewestNewest(Log(less), Departed(Run(less), ops[|ops|-1]));
    }
  }

  lemma {:induction false} LogGrows(ops: seq<Op>, i: nat)
    requires i <= |ops|
    ensures |Log(ops[..i])| <= |Log(ops)| && Log(ops)[..|Log(ops[..i])|] == Log(ops[..i])
  {
    if i == |ops| {
      assert ops[..i] == ops;
    } else {
      var less := ops[..|ops|-1];
      assert less[..i] == ops[..i];
      LogGrows(less, i);
    }
  }

  /** An id that was acknowledged or evicted is not listed again before 65536 later
      ids have been. */
  lemma NotRelisted(ops: seq<Op>, i: nat, p: nat)
    requires i <= |ops| && p < |Log(ops[..i])|
    ensures ListedIn(Run(ops), Log(ops[..i])[p]) ==> |Log(ops)| - (p + 1) >= TOMBSTONE_CAPACITY
  {
    LogGrows(ops, i);
    TombstonesAreNewest(ops);
    RunSound(ops);
    var log, id := Log(ops), Log(ops[..i])[p];
    assert log[..|Log(ops[..i])|][p] == log[p];
    if |log| - (p + 1) < TOMBSTONE_CAPACITY {
      assert id in Newest(log) by {
        var k := if |log| > TOMBSTONE_CAPACITY then p - (|log| - TOMBSTONE_CAPACITY) else p;
        assert Newest(log)[k] == id;
      }
      assert !ListedIn(Run(ops), id);
    }
  }

  // ----- order and size, spelled out -----

  /** Earlier messages come first; of the same time, the smaller id. */
  predicate ListedBefore(a: Message, b: Message) {
    a.timestamp < b.timestamp || (a.timestamp == b.timestamp && StringLe(a.eventId, b.eventId))
  }

  /** In every run the messages are listed oldest first. */
  lemma ListedInOrder(ops: seq<Op>)
    ensures var listed := Run(ops).records; forall i, j | 0 <= i < j < |listed| :: ListedBefore(listed[i], listed[j])
  {
    RunSound(ops);
    var listed := Run(ops).records;
    forall i, j | 0 <= i < j < |listed| ensures ListedBefore(listed[i], listed[j]) { assert Older(listed[i], listed[j]); }
  }

  /** What storing a message evicts is older than everything it keeps. */
  lemma OldestAreEvicted(s: Snapshot, m: Message, x: Message, y: Message)
    requires Sound(s) && !Known(s, m.eventId) && Persisted(s, m).Some?
    requires (x in s.records || x == m) && x !in Persisted(s, m).value.records && y in Persisted(s, m).value.records
    ensures ListedBefore(x, y) && (y in s.records || y == m)
  {
    hide Sound, Persisted, Newest, Sort, Known, Fits, After, Separate;
    PersistKeepsNewest(s, m);
    ArrivalSeparate(s, m);
    var r, t := Sort(s.records + [m], Older), s.tombstones;
    var j :| 0 <= j < |r| && Persisted(s, m) == Some(After(r, t, j));
    AfterRecords(r, t, j);
    var a :| 0 <= a < |r| && r[a] == x;
    var c :| 0 <= c < |r[j..]| && r[j..][c] == y;
    var b := j + c;
    forall i | j <= i < |r| ensures r[i] in r[j..] { assert r[j..][i - j] == r[i]; }
    assert Older(r[a], r[b]);
  }

  /** An empty snapshot takes 163 bytes, a message 40 and its texts, a tombstone 8 and its id. */
  lemma SizeGrows(s: Snapshot, m: Message, id: string)
    ensures Size(EMPTY) == 163
    ensures Size(s.(records := s.records + [m])) == Size(s) + 40 + |m.eventId| + |m.from| + |m.to| + |m.payload|
    ensures Size(s.(tombstones := s.tombstones + [id])) == Size(s) + 8 + |id|
  {
    SumAppend(s.records, m, MessageSize);
    SumAppend(s.tombstones, id, IdSize);
  }
}
