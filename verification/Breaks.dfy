/** A break delivered again after its relationship was established again: a v5 ledger
    refuses the second copy by its id, a v4 ledger, which dates what it receives anew,
    accepts it exactly when the sender's clock was ahead of the date it stored. */
module Breaks {
  import opened Common
  import opened Facts
  import opened Slot
  import opened Lookup
  import opened Router
  import opened Rerouting

  // ----- v5 -----

  /** Once a v5 ledger holds the break, every redelivery leaves the ledger as it is, in
      every continuation: it is consumed while the skip decision catches it and asks to be
      retried when only the id check of the append does. */
  lemma BreakRedelivered(c: Capsule, events: seq<Event>, m: Envelope, more: seq<Event>, t: Turn)
    requires c.legacy.Some? && m.payload.RelationshipBroken? && m.proof.Some?
    requires StoredSince(events, c.legacy.value, Event(m.payload, m.timestamp, m.proof.value.signer))
    requires Extends(more, events) && Checked(c, more, m, t)
    ensures Route(c, more, m, t) == (more, if Skips(c, more, m) then Consumed else Retry)
  {
    hide ShouldSkip, Addressed, SignerMatches;
    ExtendsMembers(more, events);
    var e := Event(m.payload, m.timestamp, m.proof.value.signer);
    var i :| c.legacy.value <= i < |events| && events[i] == e;
    assert more[i] == e;
    assert StoredSince(more, c.legacy.value, e);
  }

  /** A stored break dated in milliseconds is consumed by the skip decision in every
      continuation, re-establishments included. */
  lemma MillisBreakConsumed(c: Capsule, events: seq<Event>, m: Envelope, more: seq<Event>, t: Turn)
    requires c.legacy.Some? && m.payload.RelationshipBroken? && m.proof.Some?
    requires StoredSince(events, c.legacy.value, Event(m.payload, m.timestamp, m.proof.value.signer))
    requires Extends(more, events) && Checked(c, more, m, t)
    requires m.timestamp == 0 || m.timestamp >= MILLIS_FROM
    ensures Route(c, more, m, t) == (more, Consumed)
  {
    hide ShouldSkip, Checked;
    BreakRedelivered(c, events, m, more, t);
    ExtendsMembers(more, events);
    var e := Event(m.payload, m.timestamp, m.proof.value.signer);
    assert e in more;
    RecordedBreakSilences(c.owner, more, m.payload, m.proof.value.signer, m.timestamp, e);
  }

  /** The relationship `m` breaks, established at `at`. */
  function Established(c: Capsule, est: Establishment, at: u64): Event {
    Event(RelationshipEstablished(est), at, c.owner)
  }

  predicate Targets(m: Envelope, est: Establishment) {
    m.payload.RelationshipBroken? && m.payload.peer == est.peer && m.payload.own == est.own
  }

  /** A break dated in seconds, on a fresh v5 ledger: stored with its own number, which
      does not silence the delivery after a re-establishment; the append then refuses it
      and the delivery is answered Retry. */
  lemma SecondsBreakRetries(c: Capsule, est: Establishment, m: Envelope, first: u64, again: u64, t: Turn)
    requires c.legacy == Some(0) && Targets(m, est) && t.admitted
    requires Checked(c, [Established(c, est, first)], m, t) && m.proof.value.version == 5
    requires 0 < m.timestamp < MILLIS_FROM && first <= m.timestamp * 1000 && again <= m.timestamp * 1000
    ensures var start := [Established(c, est, first)];
            var after := start + [Event(m.payload, m.timestamp, m.proof.value.signer)];
            var more := after + [Established(c, est, again)];
            Route(c, start, m, t) == (after, Consumed) && Route(c, more, m, t) == (more, Retry)
  {
    hide Normalize, Addressed, KeyActive, Latest;
    var start := [Established(c, est, first)];
    var b := Event(m.payload, m.timestamp, m.proof.value.signer);
    var after := start + [b];
    var more := after + [Established(c, est, again)];
    SecondsAreScaled(m.timestamp);
    OneRelationship(c, est, m, first, b, again);
    assert !StoredSince(start, 0, b);
    assert after[1] == b;
    assert Extends(more, after);
    StillAddressed(c, start, more, m, t);
    BreakRedelivered(c, after, m, more, t);
  }

  lemma SecondsAreScaled(ts: u64)
    requires 0 < ts < MILLIS_FROM
    ensures Normalize(ts) == ts * 1000 && ts < Normalize(ts)
  {
  }

  /** A break is addressed by its envelope alone. */
  lemma StillAddressed(c: Capsule, events: seq<Event>, more: seq<Event>, m: Envelope, t: Turn)
    requires Checked(c, events, m, t) && m.payload.RelationshipBroken?
    ensures Checked(c, more, m, t)
  {
  }

  /** What the skip decision sees before the break and after the re-establishment. */
  lemma OneRelationship(c: Capsule, est: Establishment, m: Envelope, first: u64, b: Event, again: u64)
    requires Targets(m, est) && b.fact == m.payload
    ensures var key := RelKey(m.payload.peer, m.payload.own);
            var start := [Established(c, est, first)];
            var more := start + [b] + [Established(c, est, again)];
            && KeyActive(start, key) && KeyActive(more, key)
            && Latest(start, Breaking(key)) == None && Latest(start, Establishing(key)) == Some(first)
            && Latest(more, Breaking(key)) == Some(b.timestamp)
            && Latest(more, Establishing(key)) == Some(Max(first, again))
  {
    var key := RelKey(m.payload.peer, m.payload.own);
    var start := [Established(c, est, first)];
    var after := start + [b];
    var more := after + [Established(c, est, again)];
    assert start[..0] == [] && after[..1] == start && more[..2] == after;
  }

  // ----- v4 -----

  /** v4 ledgers are in the order of their dates. */
  ghost predicate InOrder(events: seq<Event>) {
    forall i, j | 0 <= i < j < |events| :: events[i].timestamp <= events[j].timestamp
  }

  /** On a v4 ledger a break just appended stays without a second copy, in every ordered
      continuation and for every turn, exactly if its normalized date is not after the
      date the ledger stored it under. */
  lemma RedatedBreakSettles(c: Capsule, events: seq<Event>, m: Envelope, t: Turn)
    requires c.legacy.None? && InOrder(events) && m.payload.RelationshipBroken? && t.admitted
    requires Checked(c, events, m, t) && !Skips(c, events, m)
    ensures var after := events + [Event(m.payload, LocalDate(events, t), m.proof.value.signer)];
            && Route(c, events, m, t) == (after, Consumed) && InOrder(after)
            && ((forall more, t' | Extends(more, after) && InOrder(more) :: Route(c, more, m, t').0 == more)
                <==> Normalize(m.timestamp) <= LocalDate(events, t))
  {
    hide ShouldSkip, Normalize, Addressed;
    var e := Event(m.payload, LocalDate(events, t), m.proof.value.signer);
    var after := events + [e];
    if Normalize(m.timestamp) <= LocalDate(events, t) {
      forall more, t' | Extends(more, after) && InOrder(more) ensures Route(c, more, m, t').0 == more {
        ExtendsMembers(more, after);
        assert after[|events|] == e;
        RecordedBreakSilences(c.owner, more, m.payload, m.proof.value.signer, m.timestamp, e);
      }
    } else {
      var more := after + [Event(RelationshipEstablished(Reestablishment(m.payload)), Normalize(m.timestamp), c.owner)];
      assert Extends(more, after);
      StillAddressed(c, events, more, m, t);
      NotSilenced(c, events, m, e);
      assert InOrder(more) && Route(c, more, m, t).0 != more;
    }
  }

  lemma NotSilenced(c: Capsule, events: seq<Event>, m: Envelope, e: Event)
    requires m.payload.RelationshipBroken? && m.proof.Some? && e.fact == m.payload && e.timestamp < Normalize(m.timestamp)
    requires !Skips(c, events, m)
    ensures var more := events + [e] + [Event(RelationshipEstablished(Reestablishment(m.payload)), Normalize(m.timestamp), c.owner)];
            !Skips(c, more, m)
  {
    hide KeyActive, Normalize;
    Reestablished(events + [e], m.payload, Normalize(m.timestamp), c.owner);
    assert (events + [e])[..|events|] == events;
  }

  /** A real case: the sender's clock is ahead of ours. Its break is stored under our
      date, the relationship is established again, and the same delivery breaks it a
      second time. */
  lemma FastClockBreakRepeats(c: Capsule, est: Establishment, m: Envelope, first: u64, t: Turn)
    requires c.legacy.None? && Targets(m, est) && t.admitted
    requires Checked(c, [Established(c, est, first)], m, t)
    requires m.timestamp >= MILLIS_FROM && first + 1 < m.timestamp && t.now < m.timestamp < U64_MAX
    ensures var start := [Established(c, est, first)];
            var after := Route(c, start, m, t).0;
            var more := after + [Established(c, est, m.timestamp)];
            && after == start + [Event(m.payload, Max(t.now, first + 1), m.proof.value.signer)]
            && InOrder(more)
            && Route(c, more, m, t) == (more + [Event(m.payload, m.timestamp + 1, m.proof.value.signer)], Consumed)
  {
    hide Addressed, KeyActive, Latest;
    var start := [Established(c, est, first)];
    var b := Event(m.payload, Max(t.now, first + 1), m.proof.value.signer);
    OneRelationship(c, est, m, first, b, m.timestamp);
    assert Route(c, start, m, t).0 == start + [b];
    var more := start + [b] + [Established(c, est, m.timestamp)];
    StillAddressed(c, start, more, m, t);
  }
}
