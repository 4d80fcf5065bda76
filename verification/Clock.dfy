/** The lock-free engine clock: any number of threads running the load and
    compare-exchange loops of `now` and `observe_engine_ts` on one atomic cell
    (platform/hivra-ffi/src/runtime_support.rs). Every load and every failing
    compare-exchange may see any value the cell ever held, stale ones included, and
    a compare-exchange may fail although the cell holds the expected value; one that
    succeeds acts on the newest value. */
module Clock {
  import opened Common

  /** Where a thread is; a thread not in the table is outside both functions. */
  datatype Thread =
    | Entering(current: u64)                 // now: wall clock read, cell not loaded
    | Trying(current: u64, seen: u64)        // now: about to compare and exchange
    | Noticing(ts: u64)                      // observe: cell not loaded
    | Raising(ts: u64, seen: u64)            // observe: about to test `ts > seen`

  datatype Answer =
    | Told(thread: nat, current: u64, value: u64, at: nat)  // now returned `value`, written as value number `at`
    | Noted(thread: nat, ts: u64, at: nat)                  // observe returned when `at` values had been written

  /** `values` are all values of the cell, oldest first; `answers` the returns in order. */
  datatype State = State(values: seq<u64>, threads: map<nat, Thread>, answers: seq<Answer>)

  const START := State([0], map[], [])

  datatype Step =
    | CallNow(thread: nat, current: u64)
    | CallObserve(thread: nat, ts: u64)
    | Load(thread: nat, k: nat)       // sees value number k
    | Exchange(thread: nat)           // the compare-exchange succeeds
    | Miss(thread: nat, k: nat)       // the compare-exchange fails and reports value number k
    | Leave(thread: nat)              // observe: `ts > seen` is false

  function Cell(s: State): u64
    requires s.values != []
  {
    s.values[|s.values|-1]
  }

  function NextValue(current: u64, seen: u64): u64 { Max(current, SatAdd(seen, 1)) }

  predicate Enabled(s: State, step: Step) {
    match step
    case CallNow(t, _) => t !in s.threads
    case CallObserve(t, _) => t !in s.threads
    case Load(t, k) => t in s.threads && (s.threads[t].Entering? || s.threads[t].Noticing?) && k < |s.values|
    case Exchange(t) =>
      && t in s.threads && s.values != []
      && match s.threads[t] {
           case Trying(_, seen) => seen == Cell(s)
           case Raising(ts, seen) => ts > seen && seen == Cell(s)
           case _ => false
         }
    case Miss(t, k) =>
      t in s.threads && k < |s.values|
      && (s.threads[t].Trying? || (s.threads[t].Raising? && s.threads[t].ts > s.threads[t].seen))
    case Leave(t) => t in s.threads && s.threads[t].Raising? && s.threads[t].ts <= s.threads[t].seen
  }

  function Apply(s: State, step: Step): State
    requires Enabled(s, step)
  {
    match step
    case CallNow(t, current) => s.(threads := s.threads[t := Entering(current)])
    case CallObserve(t, ts) => s.(threads := s.threads[t := Noticing(ts)])
    case Load(t, k) => s.(threads := s.threads[t := See(s.threads[t], s.values[k])])
    case Miss(t, k) => s.(threads := s.threads[t := See(s.threads[t], s.values[k])])
    case Exchange(t) =>
      var n := |s.values|;
      if s.threads[t].Trying? then
        var v := NextValue(s.threads[t].current, s.threads[t].seen);
        State(s.values + [v], s.threads - {t}, s.answers + [Told(t, s.threads[t].current, v, n)])
      else
        State(s.values + [s.threads[t].ts], s.threads - {t}, s.answers + [Noted(t, s.threads[t].ts, n + 1)])
    case Leave(t) =>
      s.(threads := s.threads - {t}, answers := s.answers + [Noted(t, s.threads[t].ts, |s.values|)])
  }

  function See(t: Thread, value: u64): Thread {
    match t
    case Entering(c) => Trying(c, value)
    case Trying(c, _) => Trying(c, value)
    case Noticing(ts) => Raising(ts, value)
    case Raising(ts, _) => Raising(ts, value)
  }

  /** Steps that are not enabled do not happen. */
  function Run(steps: seq<Step>): State {
    if steps == [] then START
    else
      var s := Run(steps[..|steps|-1]);
      if Enabled(s, steps[|steps|-1]) then Apply(s, steps[|steps|-1]) else s
  }

  // ----- invariant -----

  predicate Below(a: u64, b: u64) { a < b || b == U64_MAX }

  ghost predicate Ascending(values: seq<u64>) {
    forall i, j | 0 <= i < j < |values| :: Below(values[i], values[j])
  }

  /** A value some thread saw was in the cell. */
  ghost predicate SeenInCell(s: State) {
    forall t | t in s.threads ::
      match s.threads[t]
      case Trying(_, seen) => seen in s.values
      case Raising(_, seen) => seen in s.values
      case _ => true
  }

  /** What a return means: `now` wrote its value; what `observe` was given does not
      exceed the cell. */
  predicate Backed(s: State, a: Answer) {
    match a
    case Told(_, current, v, at) => at < |s.values| && s.values[at] == v && current <= v
    case Noted(_, ts, at) => 0 < at <= |s.values| && ts <= s.values[at-1]
  }

  /** Returns come in the order of the values written. */
  ghost predicate InOrder(s: State) {
    forall i, j | 0 <= i < j < |s.answers| && s.answers[j].Told? ::
      if s.answers[i].Told? then s.answers[i].at < s.answers[j].at else s.answers[i].at <= s.answers[j].at
  }

  ghost predicate Sound(s: State) {
    && s.values != [] && Ascending(s.values) && SeenInCell(s)
    && (forall a | a in s.answers :: Backed(s, a))
    && InOrder(s)
  }

  lemma AscendingPush(values: seq<u64>, v: u64)
    requires values != [] && Ascending(values) && Below(values[|values|-1], v)
    ensures Ascending(values + [v])
  {
    forall i | 0 <= i < |values| ensures Below(values[i], v) {
      if i < |values| - 1 { assert Below(values[i], values[|values|-1]); }
    }
  }

  lemma LastIsGreatest(values: seq<u64>, v: u64)
    requires values != [] && Ascending(values) && v in values
    ensures v <= values[|values|-1]
  {
    var i :| 0 <= i < |values| && values[i] == v;
    if i < |values| - 1 { assert Below(values[i], values[|values|-1]); }
  }

  lemma ExchangeSound(s: State, t: nat)
    requires Sound(s) && Enabled(s, Exchange(t))
    ensures Sound(Apply(s, Exchange(t)))
  {
    var s' := Apply(s, Exchange(t));
    var v := s'.values[|s.values|];
    AscendingPush(s.values, v);
    forall a | a in s'.answers ensures Backed(s', a) {
      if a in s.answers { assert Backed(s, a); }
    }
    forall i, j | 0 <= i < j < |s'.answers| && s'.answers[j].Told?
      ensures if s'.answers[i].Told? then s'.answers[i].at < s'.answers[j].at else s'.answers[i].at <= s'.answers[j].at
    {
      assert s.answers[i] in s.answers && Backed(s, s.answers[i]);
    }
  }

  lemma LeaveSound(s: State, t: nat)
    requires Sound(s) && Enabled(s, Leave(t))
    ensures Sound(Apply(s, Leave(t)))
  {
    LastIsGreatest(s.values, s.threads[t].seen);
  }

  lemma StepSound(s: State, step: Step)
    requires Sound(s) && Enabled(s, step)
    ensures Sound(Apply(s, step))
  {
    match step
    case Exchange(t) => ExchangeSound(s, t);
    case Leave(t) => LeaveSound(s, t);
    case CallNow(_, _) =>
    case CallObserve(_, _) =>
    case Load(t, k) => assert s.values[k] in s.values;
    case Miss(t, k) => assert s.values[k] in s.values;
  }

  lemma {:induction false} RunSound(steps: seq<Step>)
    ensures Sound(Run(steps))
  {
    hide Sound, Apply, Enabled;
    if steps == [] {
      StartSound();
    } else {
      var s := Run(steps[..|steps|-1]);
      RunSound(steps[..|steps|-1]);
      if Enabled(s, steps[|steps|-1]) { StepSound(s, steps[|steps|-1]); }
    }
  }

  lemma StartSound()
    ensures Sound(START)
  {
  }

  // ----- the clock's promises, for every interleaving -----

  /** Values returned by `now` increase strictly in the order they were written, until
      the end of the u64 range; each is at least the wall clock read at its call. */
  lemma NowIncreases(steps: seq<Step>, i: nat, j: nat)
    requires var answers := Run(steps).answers;
             i < j < |answers| && answers[i].Told? && answers[j].Told?
    ensures var answers := Run(steps).answers;
            && (answers[i].value < answers[j].value || answers[j].value == U64_MAX)
            && answers[j].value >= answers[j].current
  {
    RunSound(steps);
    var s := Run(steps);
    assert s.answers[i] in s.answers && s.answers[j] in s.answers;
    assert Backed(s, s.answers[i]) && Backed(s, s.answers[j]);
    assert Below(s.values[s.answers[i].at], s.values[s.answers[j].at]);
  }

  /** No two calls of `now` return the same value, except the u64 maximum. */
  lemma NowDistinct(steps: seq<Step>, i: nat, j: nat)
    requires var answers := Run(steps).answers;
             i < |answers| && j < |answers| && i != j && answers[i].Told? && answers[j].Told?
    ensures Run(steps).answers[i].value == Run(steps).answers[j].value ==> Run(steps).answers[i].value == U64_MAX
  {
    hide Run;
    if i < j { NowIncreases(steps, i, j); } else { NowIncreases(steps, j, i); }
  }

  /** A returned value is above every value that was in the cell before it. */
  lemma NowAbovePublished(steps: seq<Step>, i: nat, k: nat)
    requires var s := Run(steps);
             i < |s.answers| && s.answers[i].Told? && k < s.answers[i].at
    ensures var s := Run(steps);
            s.answers[i].at < |s.values| && Below(s.values[k], s.answers[i].value)
  {
    RunSound(steps);
    var s := Run(steps);
    assert s.answers[i] in s.answers && Backed(s, s.answers[i]);
  }

  /** A timestamp observed before, for example that of the last ledger event, stays
      below every value returned afterwards. */
  lemma NowAboveObserved(steps: seq<Step>, i: nat, j: nat)
    requires var answers := Run(steps).answers;
             i < j < |answers| && answers[i].Noted? && answers[j].Told?
    ensures Below(Run(steps).answers[i].ts, Run(steps).answers[j].value)
  {
    RunSound(steps);
    var s := Run(steps);
    var a, b := s.answers[i], s.answers[j];
    assert a in s.answers && b in s.answers && Backed(s, a) && Backed(s, b);
    assert Below(s.values[a.at - 1], s.values[b.at]);
  }

  /** The published values and the answers are never taken back: an answer's place in
      the order of writes is the same in every longer run. */
  lemma {:induction false} RunExtends(steps: seq<Step>, n: nat)
    requires n <= |steps|
    ensures var s, s' := Run(steps[..n]), Run(steps);
            && |s.values| <= |s'.values| && s'.values[..|s.values|] == s.values
            && |s.answers| <= |s'.answers| && s'.answers[..|s.answers|] == s.answers
  {
    if n == |steps| {
      assert steps[..n] == steps;
    } else {
      assert steps[..|steps|-1][..n] == steps[..n];
      RunExtends(steps[..|steps|-1], n);
    }
  }

  // ----- nothing more than promised -----

  /** Why value number `k` was written: `now` took the wall clock or one more than the
      value before, whichever is greater, or an observed timestamp was above that value. */
  predicate Explains(values: seq<u64>, a: Answer, k: nat)
    requires 0 < k < |values|
  {
    match a
    case Told(_, current, v, at) =>
      var next := if values[k-1] == U64_MAX then U64_MAX else values[k-1] + 1;
      at == k && v == values[k] && v == (if current <= next then next else current)
    case Noted(_, ts, at) => at == k + 1 && ts == values[k] && values[k-1] < ts
  }

  ghost predicate HasReason(s: State, k: nat)
    requires 0 < k < |s.values|
  {
    exists a | a in s.answers :: Explains(s.values, a, k)
  }

  ghost predicate Explained(s: State) {
    && (forall k | 0 < k < |s.values| :: HasReason(s, k))
    && (forall a | a in s.answers && a.Told? :: 0 < a.at < |s.values| && Explains(s.values, a, a.at))
  }

  lemma StepExplained(s: State, step: Step)
    requires Explained(s) && Enabled(s, step)
    ensures Explained(Apply(s, step))
  {
    var s' := Apply(s, step);
    forall k | 0 < k < |s'.values| ensures HasReason(s', k) {
      if k < |s.values| {
        assert HasReason(s, k);
        var a :| a in s.answers && Explains(s.values, a, k);
        assert a in s'.answers && Explains(s'.values, a, k);
      } else {
        var a := s'.answers[|s.answers|];
        assert a in s'.answers && Explains(s'.values, a, k);
      }
    }
  }

  /** Every value the cell ever gets is explained by one return, and every value `now`
      returns is exactly the greater of its wall clock and one more than the value before:
      the clock runs ahead of the wall clock only as far as it must. */
  lemma {:induction false} NothingElseIsWritten(steps: seq<Step>)
    ensures Explained(Run(steps))
  {
    hide Apply, Enabled, Explained;
    if steps == [] {
      StartExplained();
    } else {
      var s := Run(steps[..|steps|-1]);
      NothingElseIsWritten(steps[..|steps|-1]);
      if Enabled(s, steps[|steps|-1]) { StepExplained(s, steps[|steps|-1]); }
    }
  }

  lemma StartExplained()
    ensures Explained(START)
  {
  }

  // ----- progress -----

  /** A thread that sees the newest value finishes with its next step, if no other thread
      writes in between: `now` answers, `observe` writes or leaves. So no schedule of other
      threads can block it except by making progress itself. */
  lemma SeeingNewestFinishes(steps: seq<Step>, t: nat, newest: nat, look: Step)
    requires var s := Run(steps);
             newest + 1 == |s.values| && look in {Load(t, newest), Miss(t, newest)} && Enabled(s, look)
    ensures var seen := Apply(Run(steps), look);
            && (Enabled(seen, Exchange(t)) || Enabled(seen, Leave(t)))
            && (Enabled(seen, Exchange(t)) ==> t !in Apply(seen, Exchange(t)).threads)
            && (Run(steps).threads[t].Entering? || Run(steps).threads[t].Trying? ==> Enabled(seen, Exchange(t)))
  {
    RunSound(steps);
  }
}
