/** `validate_snapshot`: the scan with its growing sets and counters, the fault
    it reports first, and the proof that it accepts exactly the valid snapshots. */
module QuarantineValidation {
  import opened Common
  import opened Facts
  import opened QuarantineModel

  // ----- the first fault, item by item -----

  function RecordFault(rs: seq<Record>, k: nat, scope: Scope): Option<Error>
    requires k < |rs|
  {
    var r := rs[k];
    if !RecordHeaderOk(r, scope) || (exists j | 0 <= j < k :: rs[j].id == r.id) then Some(Corrupt)
    else if !ValidEventId(r.id) then Some(InvalidRecord)
    else if !ValidHex32(r.sender) then Some(InvalidScope)
    else if Sum(rs[..k+1], FromSender(r.sender)) > MAX_RECORDS_PER_SENDER then Some(Corrupt)
    else None
  }

  function FirstRecordFault(rs: seq<Record>, k: nat, scope: Scope): Option<Error>
    requires k <= |rs|
  {
    if k == 0 then None
    else
      var prev := FirstRecordFault(rs, k - 1, scope);
      if prev.Some? then prev else RecordFault(rs, k - 1, scope)
  }

  predicate InRecords(rs: seq<Record>, id: string) { exists j | 0 <= j < |rs| :: rs[j].id == id }

  function TombstoneFault(rs: seq<Record>, ts: seq<Tombstone>, k: nat, scope: Scope): Option<Error>
    requires k < |ts|
  {
    var t := ts[k];
    if !TombstoneHeaderOk(t, scope) || InRecords(rs, t.id) || (exists j | 0 <= j < k :: ts[j].id == t.id)
    then Some(Corrupt)
    else if !ValidEventId(t.id) then Some(InvalidRecord)
    else if !ValidHex32(t.sender) then Some(InvalidScope)
    else None
  }

  function FirstTombstoneFault(rs: seq<Record>, ts: seq<Tombstone>, k: nat, scope: Scope): Option<Error>
    requires k <= |ts|
  {
    if k == 0 then None
    else
      var prev := FirstTombstoneFault(rs, ts, k - 1, scope);
      if prev.Some? then prev else TombstoneFault(rs, ts, k - 1, scope)
  }

  /** `id` is charged before position (k, a) of the scan. */
  predicate ChargedBefore(ps: seq<Policy>, k: nat, a: nat, id: string)
    requires k < |ps| && a <= |ps[k].charges|
  {
    || (exists j | 0 <= j < k :: exists b | 0 <= b < |ps[j].charges| :: ps[j].charges[b].id == id)
    || (exists b | 0 <= b < a :: ps[k].charges[b].id == id)
  }

  function ChargeFault(ps: seq<Policy>, k: nat, a: nat): Option<Error>
    requires k < |ps| && a < |ps[k].charges|
  {
    var id := ps[k].charges[a].id;
    if !ValidEventId(id) then Some(InvalidRecord)
    else if ChargedBefore(ps, k, a, id) then Some(Corrupt)
    else None
  }

  function FirstChargeFault(ps: seq<Policy>, k: nat, a: nat): Option<Error>
    requires k < |ps| && a <= |ps[k].charges|
  {
    if a == 0 then None
    else
      var prev := FirstChargeFault(ps, k, a - 1);
      if prev.Some? then prev else ChargeFault(ps, k, a - 1)
  }

  function PolicyFault(ps: seq<Policy>, k: nat, scope: Scope): Option<Error>
    requires k < |ps|
  {
    var p := ps[k];
    if !PolicyHeaderOk(p, scope) || (exists j | 0 <= j < k :: ps[j].sender == p.sender) then Some(Corrupt)
    else if !ValidHex32(p.sender) then Some(InvalidScope)
    else FirstChargeFault(ps, k, |p.charges|)
  }

  function FirstPolicyFault(ps: seq<Policy>, k: nat, scope: Scope): Option<Error>
    requires k <= |ps|
  {
    if k == 0 then None
    else
      var prev := FirstPolicyFault(ps, k - 1, scope);
      if prev.Some? then prev else PolicyFault(ps, k - 1, scope)
  }

  function RecordsResult(rs: seq<Record>, scope: Scope): Option<Error> {
    var fault := FirstRecordFault(rs, |rs|, scope);
    if fault.Some? then fault
    else if Sum(rs, CipherSize) > MAX_CIPHERTEXT_BYTES then Some(Corrupt) else None
  }

  function TombstonesResult(rs: seq<Record>, ts: seq<Tombstone>, scope: Scope): Option<Error> {
    var fault := FirstTombstoneFault(rs, ts, |ts|, scope);
    if fault.Some? then fault
    else if TombstoneBytes(ts) > MAX_TOMBSTONE_BYTES then Some(Corrupt) else None
  }

  function PoliciesResult(ps: seq<Policy>, scope: Scope): Option<Error> {
    var fault := FirstPolicyFault(ps, |ps|, scope);
    if fault.Some? then fault
    else if Sum(ps, ChargeCount) > MAX_CHARGE_EVIDENCE || PolicyBytes(ps) > MAX_SENDER_POLICY_BYTES
    then Some(Corrupt) else None
  }

  /** The error `validate_snapshot` returns, or `None` when it accepts. */
  function Validate(s: Snapshot, scope: Scope): Option<Error> {
    if s.schema != SCHEMA_VERSION || s.scope != scope then Some(Corrupt)
    else if |s.records| > MAX_RECORDS || |s.tombstones| > MAX_TOMBSTONES
            || |s.policies| > MAX_POLICY_SENDERS then Some(Corrupt)
    else
      var records := RecordsResult(s.records, scope);
      if records.Some? then records
      else
        var tombstones := TombstonesResult(s.records, s.tombstones, scope);
        if tombstones.Some? then tombstones else PoliciesResult(s.policies, scope)
  }

  // ----- the scan accepts exactly the valid snapshots -----

  lemma {:induction false} NoRecordFault(rs: seq<Record>, k: nat, scope: Scope)
    requires k <= |rs|
    ensures FirstRecordFault(rs, k, scope).None? <==> forall i | 0 <= i < k :: RecordFault(rs, i, scope).None?
  {
    if k > 0 { NoRecordFault(rs, k - 1, scope); }
  }

  lemma {:induction false} NoTombstoneFault(rs: seq<Record>, ts: seq<Tombstone>, k: nat, scope: Scope)
    requires k <= |ts|
    ensures FirstTombstoneFault(rs, ts, k, scope).None?
       <==> forall i | 0 <= i < k :: TombstoneFault(rs, ts, i, scope).None?
  {
    if k > 0 { NoTombstoneFault(rs, ts, k - 1, scope); }
  }

  lemma {:induction false} NoChargeFault(ps: seq<Policy>, k: nat, a: nat)
    requires k < |ps| && a <= |ps[k].charges|
    ensures FirstChargeFault(ps, k, a).None? <==> forall i | 0 <= i < a :: ChargeFault(ps, k, i).None?
  {
    if a > 0 { NoChargeFault(ps, k, a - 1); }
  }

  lemma {:induction false} NoPolicyFault(ps: seq<Policy>, k: nat, scope: Scope)
    requires k <= |ps|
    ensures FirstPolicyFault(ps, k, scope).None? <==> forall i | 0 <= i < k :: PolicyFault(ps, i, scope).None?
  {
    if k > 0 { NoPolicyFault(ps, k - 1, scope); }
  }

  lemma {:induction false} PrefixSum<T(!new)>(s: seq<T>, k: nat, f: T -> nat)
    requires k <= |s|
    ensures Sum(s[..k], f) <= Sum(s, f)
  {
    SumConcat(s[..k], s[k..], f);
    assert s[..k] + s[k..] == s;
  }

  /** If no prefix exceeds the per-sender limit at its own last record, no sender
      exceeds it at all. */
  lemma {:induction false} SenderLimit(rs: seq<Record>, k: nat, sender: string)
    requires k <= |rs|
    requires forall i | 0 <= i < k :: Sum(rs[..i+1], FromSender(rs[i].sender)) <= MAX_RECORDS_PER_SENDER
    ensures Sum(rs[..k], FromSender(sender)) <= MAX_RECORDS_PER_SENDER
  {
    if k > 0 {
      SenderLimit(rs, k - 1, sender);
      assert rs[..k] == rs[..k-1] + [rs[k-1]];
      SumAppend(rs[..k-1], rs[k-1], FromSender(sender));
      assert Sum(rs[..(k-1)+1], FromSender(rs[k-1].sender)) <= MAX_RECORDS_PER_SENDER;
    }
  }

  lemma RecordsAccepted(rs: seq<Record>, scope: Scope)
    requires |rs| <= MAX_RECORDS
    ensures RecordsResult(rs, scope).None? <==> ValidRecords(rs, scope)
  {
    NoRecordFault(rs, |rs|, scope);
    if RecordsResult(rs, scope).None? {
      forall i, j | 0 <= i < j < |rs| ensures RecordId(rs[i]) != RecordId(rs[j]) {
        assert RecordFault(rs, j, scope).None?;
      }
      forall r | r in rs ensures RecordOk(r, scope) {
        var i :| 0 <= i < |rs| && rs[i] == r;
        assert RecordFault(rs, i, scope).None?;
      }
      forall sender ensures Sum(rs, FromSender(sender)) <= MAX_RECORDS_PER_SENDER {
        forall i | 0 <= i < |rs|
          ensures Sum(rs[..i+1], FromSender(rs[i].sender)) <= MAX_RECORDS_PER_SENDER
        {
          assert RecordFault(rs, i, scope).None?;
        }
        SenderLimit(rs, |rs|, sender);
        assert rs[..|rs|] == rs;
      }
    }
    if ValidRecords(rs, scope) {
      forall i | 0 <= i < |rs| ensures RecordFault(rs, i, scope).None? {
        assert rs[i] in rs;
        PrefixSum(rs, i + 1, FromSender(rs[i].sender));
        assert forall j | 0 <= j < i :: RecordId(rs[j]) != RecordId(rs[i]);
      }
    }
  }

  lemma TombstonesAccepted(rs: seq<Record>, ts: seq<Tombstone>, scope: Scope)
    requires |ts| <= MAX_TOMBSTONES
    ensures TombstonesResult(rs, ts, scope).None? <==> ValidTombstones(ts, scope) && DisjointIds(rs, ts)
  {
    NoTombstoneFault(rs, ts, |ts|, scope);
    if TombstonesResult(rs, ts, scope).None? {
      forall i, j | 0 <= i < j < |ts| ensures TombstoneId(ts[i]) != TombstoneId(ts[j]) {
        assert TombstoneFault(rs, ts, j, scope).None?;
      }
      forall t | t in ts ensures TombstoneOk(t, scope) && forall r | r in rs :: r.id != t.id {
        var i :| 0 <= i < |ts| && ts[i] == t;
        assert TombstoneFault(rs, ts, i, scope).None?;
      }
    }
    if ValidTombstones(ts, scope) && DisjointIds(rs, ts) {
      forall i | 0 <= i < |ts| ensures TombstoneFault(rs, ts, i, scope).None? {
        assert ts[i] in ts;
        assert forall j | 0 <= j < |rs| :: rs[j] in rs;
        assert forall j | 0 <= j < i :: TombstoneId(ts[j]) != TombstoneId(ts[i]);
      }
    }
  }

  lemma PolicyAccepted(ps: seq<Policy>, k: nat, scope: Scope)
    requires k < |ps|
    ensures PolicyFault(ps, k, scope).None? <==>
              && PolicyOk(ps[k], scope)
              && (forall j | 0 <= j < k :: ps[j].sender != ps[k].sender)
              && (forall j, a, b | 0 <= j < k && 0 <= a < |ps[j].charges| && 0 <= b < |ps[k].charges| ::
                    ps[j].charges[a].id != ps[k].charges[b].id)
  {
    var p := ps[k];
    NoChargeFault(ps, k, |p.charges|);
    if PolicyFault(ps, k, scope).None? {
      forall a, b | 0 <= a < b < |p.charges| ensures ChargeId(p.charges[a]) != ChargeId(p.charges[b]) {
        assert ChargeFault(ps, k, b).None?;
      }
      forall c | c in p.charges ensures ValidEventId(c.id) {
        var b :| 0 <= b < |p.charges| && p.charges[b] == c;
        assert ChargeFault(ps, k, b).None?;
      }
      forall j, a, b | 0 <= j < k && 0 <= a < |ps[j].charges| && 0 <= b < |p.charges|
        ensures ps[j].charges[a].id != p.charges[b].id
      {
        assert ChargeFault(ps, k, b).None?;
      }
    }
    if PolicyOk(p, scope)
       && (forall j, a, b | 0 <= j < k && 0 <= a < |ps[j].charges| && 0 <= b < |p.charges| ::
             ps[j].charges[a].id != p.charges[b].id)
    {
      forall b | 0 <= b < |p.charges| ensures ChargeFault(ps, k, b).None? {
        assert p.charges[b] in p.charges;
        assert forall a | 0 <= a < b :: ChargeId(p.charges[a]) != ChargeId(p.charges[b]);
      }
    }
  }

  lemma PoliciesAccepted(ps: seq<Policy>, scope: Scope)
    requires |ps| <= MAX_POLICY_SENDERS
    ensures PoliciesResult(ps, scope).None? <==> ValidPolicies(ps, scope)
  {
    NoPolicyFault(ps, |ps|, scope);
    forall k | 0 <= k < |ps|
      ensures PolicyFault(ps, k, scope).None? <==>
                && PolicyOk(ps[k], scope)
                && (forall j | 0 <= j < k :: ps[j].sender != ps[k].sender)
                && (forall j, a, b | 0 <= j < k && 0 <= a < |ps[j].charges| && 0 <= b < |ps[k].charges| ::
                      ps[j].charges[a].id != ps[k].charges[b].id)
    {
      PolicyAccepted(ps, k, scope);
    }
    if PoliciesResult(ps, scope).None? {
      forall p | p in ps ensures PolicyOk(p, scope) {
        var k :| 0 <= k < |ps| && ps[k] == p;
        assert PolicyFault(ps, k, scope).None?;
      }
      forall i, j | 0 <= i < j < |ps| ensures PolicySender(ps[i]) != PolicySender(ps[j]) {
        assert PolicyFault(ps, j, scope).None?;
      }
      forall i, j, a, b | 0 <= i < j < |ps| && 0 <= a < |ps[i].charges| && 0 <= b < |ps[j].charges|
        ensures ps[i].charges[a].id != ps[j].charges[b].id
      {
        assert PolicyFault(ps, j, scope).None?;
      }
    }
    if ValidPolicies(ps, scope) {
      forall k | 0 <= k < |ps| ensures PolicyFault(ps, k, scope).None? {
        assert ps[k] in ps;
        assert forall j | 0 <= j < k :: PolicySender(ps[j]) != PolicySender(ps[k]);
      }
    }
  }

  lemma ValidateIsExact(s: Snapshot, scope: Scope)
    ensures Validate(s, scope).None? <==> ValidSnapshot(s, scope)
  {
    if |s.records| <= MAX_RECORDS { RecordsAccepted(s.records, scope); }
    if |s.tombstones| <= MAX_TOMBSTONES { TombstonesAccepted(s.records, s.tombstones, scope); }
    if |s.policies| <= MAX_POLICY_SENDERS { PoliciesAccepted(s.policies, scope); }
  }

  // ----- the scan itself -----

  // A fault found at one item is the fault of the whole scan.

  lemma {:induction false} RecordFaultStays(rs: seq<Record>, k: nat, n: nat, scope: Scope)
    requires k <= n <= |rs| && FirstRecordFault(rs, k, scope).Some?
    ensures FirstRecordFault(rs, n, scope) == FirstRecordFault(rs, k, scope)
  {
    if k < n { RecordFaultStays(rs, k, n - 1, scope); }
  }

  lemma {:induction false} TombstoneFaultStays(rs: seq<Record>, ts: seq<Tombstone>, k: nat, n: nat, scope: Scope)
    requires k <= n <= |ts| && FirstTombstoneFault(rs, ts, k, scope).Some?
    ensures FirstTombstoneFault(rs, ts, n, scope) == FirstTombstoneFault(rs, ts, k, scope)
  {
    if k < n { TombstoneFaultStays(rs, ts, k, n - 1, scope); }
  }

  lemma {:induction false} ChargeFaultStays(ps: seq<Policy>, k: nat, a: nat, n: nat)
    requires k < |ps| && a <= n <= |ps[k].charges| && FirstChargeFault(ps, k, a).Some?
    ensures FirstChargeFault(ps, k, n) == FirstChargeFault(ps, k, a)
  {
    if a < n { ChargeFaultStays(ps, k, a, n - 1); }
  }

  lemma {:induction false} PolicyFaultStays(ps: seq<Policy>, k: nat, n: nat, scope: Scope)
    requires k <= n <= |ps| && FirstPolicyFault(ps, k, scope).Some?
    ensures FirstPolicyFault(ps, n, scope) == FirstPolicyFault(ps, k, scope)
  {
    if k < n { PolicyFaultStays(ps, k, n - 1, scope); }
  }

  function CountOf(counts: map<string, nat>, sender: string): nat {
    if sender in counts then counts[sender] else 0
  }

  ghost predicate CountsMatch(counts: map<string, nat>, rs: seq<Record>) {
    forall sender {:trigger CountOf(counts, sender)} :: CountOf(counts, sender) == Sum(rs, FromSender(sender))
  }

  lemma CountOneMore(counts: map<string, nat>, rs: seq<Record>, r: Record)
    requires CountsMatch(counts, rs)
    ensures CountsMatch(counts[r.sender := CountOf(counts, r.sender) + 1], rs + [r])
    ensures Sum(rs + [r], FromSender(r.sender)) == CountOf(counts, r.sender) + 1
  {
    var counts' := counts[r.sender := CountOf(counts, r.sender) + 1];
    forall sender ensures CountOf(counts', sender) == Sum(rs + [r], FromSender(sender)) {
      assert CountOf(counts, sender) == Sum(rs, FromSender(sender));
      SumAppend(rs, r, FromSender(sender));
    }
    assert CountOf(counts, r.sender) == Sum(rs, FromSender(r.sender));
    SumAppend(rs, r, FromSender(r.sender));
  }

  ghost predicate IdsMatch(ids: set<string>, rs: seq<Record>) {
    forall id :: id in ids <==> InRecords(rs, id)
  }

  lemma IdsOneMore(ids: set<string>, rs: seq<Record>, r: Record)
    requires IdsMatch(ids, rs)
    ensures IdsMatch(ids + {r.id}, rs + [r])
  {
    forall id ensures id in ids + {r.id} <==> InRecords(rs + [r], id) {
      assert id in ids <==> InRecords(rs, id);
      if InRecords(rs, id) {
        var j :| 0 <= j < |rs| && rs[j].id == id;
        assert (rs + [r])[j].id == id;
      }
      if id == r.id { assert (rs + [r])[|rs|].id == id; }
    }
  }

  lemma EmptyScan(rs: seq<Record>)
    ensures CountsMatch(map[], rs[..0]) && IdsMatch({}, rs[..0]) && Sum(rs[..0], CipherSize) == 0
  {
  }

  /** One iteration of the record scan. */
  method CheckRecord(rs: seq<Record>, k: nat, scope: Scope, ids: set<string>, counts: map<string, nat>)
    returns (fault: Option<Error>, count: nat)
    requires k < |rs| && CountsMatch(counts, rs[..k]) && IdsMatch(ids, rs[..k])
    ensures fault == RecordFault(rs, k, scope)
    ensures fault.None? ==> count == CountOf(counts, rs[k].sender) + 1
  {
    var r := rs[k];
    count := CountOf(counts, r.sender) + 1;
    assert rs[..k+1] == rs[..k] + [r];
    SumAppend(rs[..k], r, FromSender(r.sender));
    assert r.id in ids <==> exists j | 0 <= j < k :: rs[j].id == r.id;
    if !RecordHeaderOk(r, scope) || r.id in ids { return Some(Corrupt), count; }
    if !ValidEventId(r.id) { return Some(InvalidRecord), count; }
    if !ValidHex32(r.sender) { return Some(InvalidScope), count; }
    fault := if count > MAX_RECORDS_PER_SENDER then Some(Corrupt) else None;
  }

  method CheckRecords(rs: seq<Record>, scope: Scope) returns (fault: Option<Error>, ids: set<string>)
    ensures fault == RecordsResult(rs, scope)
    ensures fault.None? ==> IdsMatch(ids, rs)
  {
    hide CountsMatch, IdsMatch, RecordFault, CountOf, Sum;
    ids := {};
    var counts: map<string, nat> := map[];
    var bytes := 0;
    var k := 0;
    EmptyScan(rs);
    while k < |rs|
      invariant 0 <= k <= |rs|
      invariant FirstRecordFault(rs, k, scope).None?
      invariant IdsMatch(ids, rs[..k])
      invariant CountsMatch(counts, rs[..k])
      invariant bytes == Sum(rs[..k], CipherSize)
    {
      var count;
      fault, count := CheckRecord(rs, k, scope, ids, counts);
      if fault.Some? {
        RecordFaultStays(rs, k + 1, |rs|, scope);
        return;
      }
      CountOneMore(counts, rs[..k], rs[k]);
      IdsOneMore(ids, rs[..k], rs[k]);
      SumAppend(rs[..k], rs[k], CipherSize);
      assert rs[..k+1] == rs[..k] + [rs[k]];
      counts := counts[rs[k].sender := count];
      ids := ids + {rs[k].id};
      bytes := bytes + rs[k].ciphertext.size;
      k := k + 1;
    }
    assert rs[..k] == rs;
    fault := if bytes > MAX_CIPHERTEXT_BYTES then Some(Corrupt) else None;
  }

  method CheckTombstones(rs: seq<Record>, ts: seq<Tombstone>, scope: Scope, recordIds: set<string>)
    returns (fault: Option<Error>)
    requires IdsMatch(recordIds, rs)
    ensures fault == TombstonesResult(rs, ts, scope)
  {
    var ids := recordIds;
    var k := 0;
    while k < |ts|
      invariant 0 <= k <= |ts|
      invariant FirstTombstoneFault(rs, ts, k, scope).None?
      invariant forall id :: id in ids <==> InRecords(rs, id) || exists j | 0 <= j < k :: ts[j].id == id
    {
      if FirstTombstoneFault(rs, ts, k + 1, scope).Some? { TombstoneFaultStays(rs, ts, k + 1, |ts|, scope); }
      var t := ts[k];
      if !TombstoneHeaderOk(t, scope) || t.id in ids { return Some(Corrupt); }
      ids := ids + {t.id};
      if !ValidEventId(t.id) { return Some(InvalidRecord); }
      if !ValidHex32(t.sender) { return Some(InvalidScope); }
      k := k + 1;
    }
    fault := if TombstoneBytes(ts) > MAX_TOMBSTONE_BYTES then Some(Corrupt) else None;
  }

  /** The charges of policy `k`, against the ids charged before it. */
  method CheckCharges(ps: seq<Policy>, k: nat, before: set<string>) returns (fault: Option<Error>, charged: set<string>)
    requires k < |ps| && forall id :: id in before <==> ChargedBefore(ps, k, 0, id)
    ensures fault == FirstChargeFault(ps, k, |ps[k].charges|)
    ensures fault.None? ==> forall id :: id in charged <==> ChargedBefore(ps, k, |ps[k].charges|, id)
  {
    charged := before;
    var cs := ps[k].charges;
    var a := 0;
    while a < |cs|
      invariant 0 <= a <= |cs|
      invariant FirstChargeFault(ps, k, a).None?
      invariant forall id :: id in charged <==> ChargedBefore(ps, k, a, id)
    {
      if FirstChargeFault(ps, k, a + 1).Some? { ChargeFaultStays(ps, k, a + 1, |cs|); }
      var id := cs[a].id;
      if !ValidEventId(id) { return Some(InvalidRecord), charged; }
      if id in charged { return Some(Corrupt), charged; }
      forall x ensures ChargedBefore(ps, k, a + 1, x) <==> ChargedBefore(ps, k, a, x) || x == id {
      }
      charged := charged + {id};
      a := a + 1;
    }
    fault := None;
  }

  ghost predicate ChargedMatch(charged: set<string>, ps: seq<Policy>, k: nat, a: nat)
    requires k < |ps| ==> a <= |ps[k].charges|
  {
    k < |ps| ==> forall id :: id in charged <==> ChargedBefore(ps, k, a, id)
  }

  ghost predicate SendersMatch(senders: set<string>, ps: seq<Policy>, k: nat)
    requires k <= |ps|
  {
    forall sender :: sender in senders <==> exists j | 0 <= j < k :: ps[j].sender == sender
  }

  lemma SendersOneMore(senders: set<string>, ps: seq<Policy>, k: nat)
    requires k < |ps| && SendersMatch(senders, ps, k)
    ensures SendersMatch(senders + {ps[k].sender}, ps, k + 1)
  {
  }

  /** What is charged up to the end of policy `k` is charged before policy `k + 1`. */
  lemma ChargedNext(charged: set<string>, ps: seq<Policy>, k: nat)
    requires k < |ps| && ChargedMatch(charged, ps, k, |ps[k].charges|)
    ensures ChargedMatch(charged, ps, k + 1, 0)
  {
    if k + 1 < |ps| {
      forall id ensures ChargedBefore(ps, k + 1, 0, id) <==> ChargedBefore(ps, k, |ps[k].charges|, id) {
      }
    }
  }

  lemma NothingCharged(ps: seq<Policy>)
    ensures ChargedMatch({}, ps, 0, 0) && SendersMatch({}, ps, 0) && Sum(ps[..0], ChargeCount) == 0
  {
  }

  /** One iteration of the policy scan. */
  method CheckPolicy(ps: seq<Policy>, k: nat, scope: Scope, senders: set<string>, before: set<string>)
    returns (fault: Option<Error>, charged: set<string>)
    requires k < |ps| && ChargedMatch(before, ps, k, 0) && SendersMatch(senders, ps, k)
    ensures fault == PolicyFault(ps, k, scope)
    ensures fault.None? ==> ChargedMatch(charged, ps, k, |ps[k].charges|)
  {
    var p := ps[k];
    if !PolicyHeaderOk(p, scope) || p.sender in senders { return Some(Corrupt), before; }
    if !ValidHex32(p.sender) { return Some(InvalidScope), before; }
    fault, charged := CheckCharges(ps, k, before);
  }

  method CheckPolicies(ps: seq<Policy>, scope: Scope) returns (fault: Option<Error>)
    ensures fault == PoliciesResult(ps, scope)
  {
    hide PolicyFault, ChargedMatch, SendersMatch, Sum;
    var senders: set<string> := {};
    var charged: set<string> := {};
    var count := 0;
    var k := 0;
    NothingCharged(ps);
    while k < |ps|
      invariant 0 <= k <= |ps|
      invariant FirstPolicyFault(ps, k, scope).None?
      invariant SendersMatch(senders, ps, k) && ChargedMatch(charged, ps, k, 0)
      invariant count == Sum(ps[..k], ChargeCount)
    {
      fault, charged := CheckPolicy(ps, k, scope, senders, charged);
      if fault.Some? {
        PolicyFaultStays(ps, k + 1, |ps|, scope);
        return;
      }
      SendersOneMore(senders, ps, k);
      ChargedNext(charged, ps, k);
      SumAppend(ps[..k], ps[k], ChargeCount);
      assert ps[..k+1] == ps[..k] + [ps[k]];
      senders := senders + {ps[k].sender};
      count := count + |ps[k].charges|;
      k := k + 1;
    }
    assert ps[..k] == ps;
    fault := if count > MAX_CHARGE_EVIDENCE || PolicyBytes(ps) > MAX_SENDER_POLICY_BYTES
      then Some(Corrupt) else None;
  }

  /** `validate_snapshot`: accepts exactly the valid snapshots, and otherwise
      reports the first fault of the scan. */
  method ValidateSnapshot(s: Snapshot, scope: Scope) returns (fault: Option<Error>)
    ensures fault == Validate(s, scope)
    ensures fault.None? <==> ValidSnapshot(s, scope)
  {
    ValidateIsExact(s, scope);
    if s.schema != SCHEMA_VERSION || s.scope != scope { return Some(Corrupt); }
    if |s.records| > MAX_RECORDS || |s.tombstones| > MAX_TOMBSTONES || |s.policies| > MAX_POLICY_SENDERS {
      return Some(Corrupt);
    }
    var ids;
    fault, ids := CheckRecords(s.records, scope);
    if fault.Some? { return; }
    fault := CheckTombstones(s.records, s.tombstones, scope, ids);
    if fault.Some? { return; }
    fault := CheckPolicies(s.policies, scope);
  }
}
