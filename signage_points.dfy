/**
 The skipped-signage-point detector as values: the messages the parser
 produces, the state a checker keeps between messages, one `check` step,
 and the handler's pass of a batch of messages through a list of checkers.
 The classes in module Handlers are proved against these functions.

 Timestamps are integers counting microseconds, the resolution of Python's
 `datetime` and `timedelta`.
 */
module SignagePoints {
  import opened Notifier

  datatype Option<T> = None | Some(value: T)

  const MicrosPerSecond := 1000000
  const SecondsPerDay := 86400

  /** Signage points count 1, 2, ..., 64 and then start again at 1. */
  const RollOverPoint := 64

  /** A gap shorter than this many seconds marks an irregular increment as a
      network-wide blip rather than a local skip. */
  const FlakyGapSeconds := 15

  /** One parsed "finished signage point" log line. */
  datatype FinishedSignagePointMessage = FinishedSignagePointMessage(timestamp: int, signagePoint: int)

  // ---------------------------------------------------------------------
  // Time differences
  // ---------------------------------------------------------------------

  /** The `seconds` component of the duration `later - earlier`: the whole
      seconds of the duration with whole days removed. A duration is
      normalised to days, seconds and microseconds with seconds in
      0..86399 and floor rounding, so a negative duration has a large
      seconds component. Dafny's `/` and `%` by a positive constant round
      the same way. */
  function TimeDiffSeconds(earlier: int, later: int): (s: int)
    ensures 0 <= s < SecondsPerDay
  {
    ((later - earlier) / MicrosPerSecond) % SecondsPerDay
  }

  /** For a gap of less than a day, the seconds component is the elapsed
      time truncated to whole seconds. */
  lemma TimeDiffIsElapsedWithinADay(earlier: int, later: int)
    requires earlier <= later < earlier + SecondsPerDay * MicrosPerSecond
    ensures TimeDiffSeconds(earlier, later) * MicrosPerSecond <= later - earlier
    ensures later - earlier < (TimeDiffSeconds(earlier, later) + 1) * MicrosPerSecond
  {
  }

  /** Whole days in a gap are invisible: a gap of `days` days plus `d`
      reads exactly like a gap of `d`. */
  lemma TimeDiffIgnoresWholeDays(earlier: int, later: int, days: int)
    ensures TimeDiffSeconds(earlier, later + days * SecondsPerDay * MicrosPerSecond) == TimeDiffSeconds(earlier, later)
  {
    var d := later - earlier;
    var q := d / MicrosPerSecond;
    var shifted := d + days * SecondsPerDay * MicrosPerSecond;
    assert shifted == (q + days * SecondsPerDay) * MicrosPerSecond + d % MicrosPerSecond;
    assert shifted / MicrosPerSecond == q + days * SecondsPerDay;
  }

  /** A timestamp that steps back by less than a day reads as a day minus
      the step, rounded up to whole seconds. A step back of up to one second
      reads as 86399 seconds; any step back of up to 86385 seconds reads as
      at least 15 seconds, and a longer one as less than 15. */
  lemma BackwardStepReadsAsLongGap(earlier: int, later: int)
    requires earlier - SecondsPerDay * MicrosPerSecond <= later < earlier
    ensures TimeDiffSeconds(earlier, later) == SecondsPerDay + (later - earlier) / MicrosPerSecond
    ensures earlier - MicrosPerSecond <= later ==> TimeDiffSeconds(earlier, later) == SecondsPerDay - 1
    ensures TimeDiffSeconds(earlier, later) >= FlakyGapSeconds <==>
              earlier - (SecondsPerDay - FlakyGapSeconds) * MicrosPerSecond <= later
  {
  }

  // ---------------------------------------------------------------------
  // Increments
  // ---------------------------------------------------------------------

  /** The signage point that regularly follows `last`. */
  function NextSignagePoint(last: int): (n: int)
    ensures 1 <= n <= RollOverPoint
    ensures 1 <= last < RollOverPoint ==> n == last + 1
    ensures last == RollOverPoint ==> n == 1
  {
    last % RollOverPoint + 1
  }

  /** The checker's test: the increment from `last`, taken modulo the
      roll-over point, to `current` lies outside the range (0, 1]. On
      integers that range holds the single increment 1. */
  predicate IsIrregularIncrement(last: int, current: int)
    ensures IsIrregularIncrement(last, current) <==> current - last % RollOverPoint != 1
  {
    var incrementDiff := current - last % RollOverPoint;
    incrementDiff <= 0 || incrementDiff > 1
  }

  /** An increment is irregular exactly when `current` is not the point that
      regularly follows `last`. */
  lemma IrregularIffNotNext(last: int, current: int)
    ensures IsIrregularIncrement(last, current) <==> current != NextSignagePoint(last)
  {
  }

  /** Within the range 1..64 an increment is regular exactly for one step
      forward or the wrap from 64 to 1; a duplicate, a decrease and a skip
      forward are all irregular. */
  lemma RegularIncrementsInRange(last: int, current: int)
    requires 1 <= last <= RollOverPoint && 1 <= current <= RollOverPoint
    ensures !IsIrregularIncrement(last, current) <==>
              (current == last + 1 || (last == RollOverPoint && current == 1))
  {
  }

  // ---------------------------------------------------------------------
  // One checker
  // ---------------------------------------------------------------------

  /** What a checker remembers: the timestamp and signage point of the last
      message it was given, both absent before the first message. */
  datatype CheckerState = CheckerState(lastTimestamp: Option<int>, lastSignagePoint: Option<int>)
  {
    /** The two fields are set together. */
    predicate Valid()
    {
      lastTimestamp.None? <==> lastSignagePoint.None?
    }
  }

  /** The state of a checker that has not seen any message. */
  const Unprimed := CheckerState(None, None)

  /** The state of a checker whose last message was `msg`. */
  function Primed(msg: FinishedSignagePointMessage): (s: CheckerState)
    ensures s.Valid() && s.lastSignagePoint.Some?
  {
    CheckerState(Some(msg.timestamp), Some(msg.signagePoint))
  }

  /** The event that reports a skip from `last` to `current`. */
  function SkipEvent(last: int, current: int): (e: Event)
    ensures e.kind == User && e.priority == Normal && e.service == FullNode
    ensures e.message.last == last && e.message.current == current
  {
    Event(User, Normal, FullNode, SkippedSignagePoints(last, current))
  }

  /** One `check` call: the new state and the event, if any. The first
      message only primes the checker. Later, an event is reported when
      the increment is irregular and the seconds component of the gap is
      at least 15. Either way the message becomes the last one seen. */
  function CheckStep(s: CheckerState, msg: FinishedSignagePointMessage): (r: (CheckerState, Option<Event>))
    requires s.Valid()
    ensures r.0 == Primed(msg)
    ensures s.lastSignagePoint.None? ==> r.1.None?
  {
    match s.lastSignagePoint
    case None => (Primed(msg), None)
    case Some(last) =>
      var skipped := msg.signagePoint != NextSignagePoint(last);
      var longGap := TimeDiffSeconds(s.lastTimestamp.value, msg.timestamp) >= FlakyGapSeconds;
      (Primed(msg), if skipped && longGap then Some(SkipEvent(last, msg.signagePoint)) else None)
  }

  /** The first message a fresh checker sees reports nothing and primes it. */
  lemma FirstCheckOnlyPrimes(msg: FinishedSignagePointMessage)
    ensures CheckStep(Unprimed, msg) == (Primed(msg), None)
  {
  }

  /** A checker reports an event exactly when it has seen a message before,
      the increment is irregular, and the gap is at least 15 seconds; the
      event is then the skip from the last to the current point. */
  lemma CheckStepReportsIff(s: CheckerState, msg: FinishedSignagePointMessage)
    requires s.Valid()
    ensures CheckStep(s, msg).1.Some? <==>
              s.lastSignagePoint.Some?
              && IsIrregularIncrement(s.lastSignagePoint.value, msg.signagePoint)
              && TimeDiffSeconds(s.lastTimestamp.value, msg.timestamp) >= FlakyGapSeconds
    ensures CheckStep(s, msg).1.Some? ==>
              CheckStep(s, msg).1 == Some(SkipEvent(s.lastSignagePoint.value, msg.signagePoint))
  {
  }

  /** Every reported event is a user-facing, normal-priority full-node event
      naming the last and the current signage point. */
  lemma ReportedEventNamesBothPoints(s: CheckerState, msg: FinishedSignagePointMessage)
    requires s.Valid() && CheckStep(s, msg).1.Some?
    ensures s.lastSignagePoint.Some?
    ensures var e := CheckStep(s, msg).1.value;
            e.kind == User && e.priority == Normal && e.service == FullNode
            && e.message == SkippedSignagePoints(s.lastSignagePoint.value, msg.signagePoint)
  {
  }

  /** A regular increment reports nothing, however long the gap. */
  lemma RegularIncrementIsSilent(s: CheckerState, msg: FinishedSignagePointMessage)
    requires s.Valid() && s.lastSignagePoint.Some?
    requires !IsIrregularIncrement(s.lastSignagePoint.value, msg.signagePoint)
    ensures CheckStep(s, msg) == (Primed(msg), None)
  {
  }

  /** The wrap from 64 to 1 is a regular increment. */
  lemma RollOverIsSilent(lastTimestamp: int, timestamp: int)
    ensures CheckStep(CheckerState(Some(lastTimestamp), Some(RollOverPoint)), FinishedSignagePointMessage(timestamp, 1)).1 == None
  {
  }

  /** An irregular increment within 15 seconds reports nothing, yet the
      checker still moves on to the new message. */
  lemma QuickIrregularIncrementIsSuppressed(s: CheckerState, msg: FinishedSignagePointMessage)
    requires s.Valid() && s.lastSignagePoint.Some?
    requires IsIrregularIncrement(s.lastSignagePoint.value, msg.signagePoint)
    requires TimeDiffSeconds(s.lastTimestamp.value, msg.timestamp) < FlakyGapSeconds
    ensures CheckStep(s, msg) == (Primed(msg), None)
  {
  }

  /** An irregular increment after 15 seconds or more reports the skip. */
  lemma SlowIrregularIncrementIsReported(s: CheckerState, msg: FinishedSignagePointMessage)
    requires s.Valid() && s.lastSignagePoint.Some?
    requires IsIrregularIncrement(s.lastSignagePoint.value, msg.signagePoint)
    requires TimeDiffSeconds(s.lastTimestamp.value, msg.timestamp) >= FlakyGapSeconds
    ensures CheckStep(s, msg) == (Primed(msg), Some(SkipEvent(s.lastSignagePoint.value, msg.signagePoint)))
  {
  }

  /** A clock that steps back by 86390 seconds makes a skip from 10 to 13
      read as a 10-second gap, so it is suppressed. */
  lemma NearlyDayBackwardStepIsSuppressed()
    ensures CheckStep(CheckerState(Some(86390 * MicrosPerSecond), Some(10)), FinishedSignagePointMessage(0, 13)).1 == None
  {
  }

  /** A step back of more than a day loses its whole days: after a step
      back of 86401 seconds the gap reads as 86399 seconds, so a skip from
      10 to 13 is reported. */
  lemma OverDayBackwardStepIsReported()
    ensures TimeDiffSeconds(86401 * MicrosPerSecond, 0) == SecondsPerDay - 1
    ensures CheckStep(CheckerState(Some(86401 * MicrosPerSecond), Some(10)), FinishedSignagePointMessage(0, 13)).1
            == Some(SkipEvent(10, 13))
  {
  }

  // ---------------------------------------------------------------------
  // The handler: every message through every checker
  // ---------------------------------------------------------------------

  /** The event of an outcome, as a sequence of zero or one events. */
  function Emitted(e: Option<Event>): (r: seq<Event>)
    ensures |r| == (if e.Some? then 1 else 0)
    ensures e.Some? ==> r[0] == e.value
  {
    if e.Some? then [e.value] else []
  }

  predicate AllValid(states: seq<CheckerState>)
  {
    forall k | 0 <= k < |states| :: states[k].Valid()
  }

  /** One message given to each checker in registration order: the new
      states and the events collected. Each checker moves to the message
      independently of the others. */
  function RunCheckers(states: seq<CheckerState>, msg: FinishedSignagePointMessage): (r: (seq<CheckerState>, seq<Event>))
    requires AllValid(states)
    ensures |r.0| == |states| && |r.1| <= |states|
    ensures forall k | 0 <= k < |states| :: r.0[k] == Primed(msg)
    decreases |states|
  {
    if states == [] then ([], [])
    else
      var n := |states| - 1;
      var (updated, events) := RunCheckers(states[..n], msg);
      var (next, event) := CheckStep(states[n], msg);
      (updated + [next], events + Emitted(event))
  }

  /** Extending the checkers by one more runs that checker after the others. */
  lemma RunCheckersStep(states: seq<CheckerState>, j: int, msg: FinishedSignagePointMessage, collected: seq<Event>, event: Option<Event>)
    requires AllValid(states) && 0 <= j < |states|
    requires collected == RunCheckers(states[..j], msg).1
    requires event == CheckStep(states[j], msg).1
    ensures collected + Emitted(event) == RunCheckers(states[..j + 1], msg).1
  {
    assert states[..j + 1][..j] == states[..j];
  }

  /** A batch of messages handled in order, each given to every checker:
      the final states and the events collected, message by message and,
      within a message, checker by checker. */
  function HandleBatch(states: seq<CheckerState>, msgs: seq<FinishedSignagePointMessage>): (r: (seq<CheckerState>, seq<Event>))
    requires AllValid(states)
    ensures |r.0| == |states| && AllValid(r.0)
    ensures msgs == [] ==> r.0 == states && r.1 == []
    ensures msgs != [] ==> forall k | 0 <= k < |states| :: r.0[k] == Primed(msgs[|msgs| - 1])
    decreases |msgs|
  {
    if msgs == [] then (states, [])
    else
      var n := |msgs| - 1;
      var (before, earlier) := HandleBatch(states, msgs[..n]);
      var (after, latest) := RunCheckers(before, msgs[n]);
      (after, earlier + latest)
  }

  lemma MulSucc(n: nat, m: nat)
    ensures (n + 1) * m == n * m + m
  {
  }

  /** Each message yields at most one event per checker. */
  lemma {:induction false} HandleBatchBound(states: seq<CheckerState>, msgs: seq<FinishedSignagePointMessage>)
    requires AllValid(states)
    ensures |HandleBatch(states, msgs).1| <= |msgs| * |states|
    decreases |msgs|
  {
    if msgs != [] {
      var n := |msgs| - 1;
      HandleBatchBound(states, msgs[..n]);
      MulSucc(n, |states|);
    }
  }

  /** The events of the outcomes, in order. */
  function Reported(outcomes: seq<Option<Event>>): (r: seq<Event>)
    ensures |r| <= |outcomes|
  {
    if outcomes == [] then [] else Emitted(outcomes[0]) + Reported(outcomes[1..])
  }

  lemma {:induction false} ReportedAppend(outcomes: seq<Option<Event>>, o: Option<Event>)
    ensures Reported(outcomes + [o]) == Reported(outcomes) + Emitted(o)
    decreases |outcomes|
  {
    if outcomes == [] {
      assert Reported([o]) == Emitted(o) + Reported([]);
    } else {
      assert (outcomes + [o])[1..] == outcomes[1..] + [o];
      ReportedAppend(outcomes[1..], o);
    }
  }

  /** What each checker alone returns for `msg`, in registration order. */
  function Outcomes(states: seq<CheckerState>, msg: FinishedSignagePointMessage): (r: seq<Option<Event>>)
    requires AllValid(states)
    ensures |r| == |states|
  {
    seq(|states|, k requires 0 <= k < |states| => CheckStep(states[k], msg).1)
  }

  /** The events collected for one message are exactly the non-empty
      results of the checkers, in registration order. */
  lemma {:induction false} RunCheckersCollectsInOrder(states: seq<CheckerState>, msg: FinishedSignagePointMessage)
    requires AllValid(states)
    ensures RunCheckers(states, msg).1 == Reported(Outcomes(states, msg))
    decreases |states|
  {
    if states != [] {
      var n := |states| - 1;
      RunCheckersCollectsInOrder(states[..n], msg);
      assert Outcomes(states, msg) == Outcomes(states[..n], msg) + [CheckStep(states[n], msg).1];
      ReportedAppend(Outcomes(states[..n], msg), CheckStep(states[n], msg).1);
    }
  }

  /** Two checkers that both report on a message yield both events, in
      registration order. */
  lemma TwoReportingCheckers(first: CheckerState, second: CheckerState, msg: FinishedSignagePointMessage, e1: Event, e2: Event)
    requires first.Valid() && second.Valid()
    requires CheckStep(first, msg).1 == Some(e1) && CheckStep(second, msg).1 == Some(e2)
    ensures RunCheckers([first, second], msg).1 == [e1, e2]
  {
  }

  /** Handling two batches one after the other, with the checkers' states
      carried over, is handling their concatenation. */
  lemma {:induction false} HandleBatchConcat(states: seq<CheckerState>, a: seq<FinishedSignagePointMessage>, b: seq<FinishedSignagePointMessage>)
    requires AllValid(states)
    ensures var first := HandleBatch(states, a);
            var second := HandleBatch(first.0, b);
            HandleBatch(states, a + b) == (second.0, first.1 + second.1)
    decreases |b|
  {
    if b == [] {
      assert a + b == a;
      var first := HandleBatch(states, a);
      assert first.1 + [] == first.1;
    } else {
      var n := |b| - 1;
      assert (a + b)[..|a + b| - 1] == a + b[..n];
      assert (a + b)[|a + b| - 1] == b[n];
      HandleBatchConcat(states, a, b[..n]);
      var first := HandleBatch(states, a);
      var mid := HandleBatch(first.0, b[..n]);
      var last := RunCheckers(mid.0, b[n]);
      assert HandleBatch(states, a + b) == (last.0, (first.1 + mid.1) + last.1);
      assert HandleBatch(first.0, b) == (last.0, mid.1 + last.1);
      assert (first.1 + mid.1) + last.1 == first.1 + (mid.1 + last.1);
    }
  }

  /** Every checker is unprimed or last saw the point that regularly
      precedes `msg`. */
  predicate AllExpect(states: seq<CheckerState>, msg: FinishedSignagePointMessage)
  {
    forall k | 0 <= k < |states| ::
      states[k].lastSignagePoint.Some? ==> msg.signagePoint == NextSignagePoint(states[k].lastSignagePoint.value)
  }

  /** Every message after the first is the regular successor of the one before. */
  predicate AdvancesRegularly(msgs: seq<FinishedSignagePointMessage>)
  {
    forall i | 0 < i < |msgs| :: msgs[i].signagePoint == NextSignagePoint(msgs[i - 1].signagePoint)
  }

  /** A message every checker expects reports nothing. */
  lemma {:induction false} ExpectedMessageIsSilent(states: seq<CheckerState>, msg: FinishedSignagePointMessage)
    requires AllValid(states) && AllExpect(states, msg)
    ensures RunCheckers(states, msg).1 == []
    decreases |states|
  {
    if states != [] {
      var n := |states| - 1;
      ExpectedMessageIsSilent(states[..n], msg);
    }
  }

  /** A batch whose signage points advance regularly, starting where every
      checker expects, reports nothing, whatever the timestamps. */
  lemma {:induction false} RegularBatchIsSilent(states: seq<CheckerState>, msgs: seq<FinishedSignagePointMessage>)
    requires AllValid(states) && AdvancesRegularly(msgs)
    requires msgs != [] ==> AllExpect(states, msgs[0])
    ensures HandleBatch(states, msgs).1 == []
    decreases |msgs|
  {
    if msgs != [] {
      var n := |msgs| - 1;
      RegularBatchIsSilent(states, msgs[..n]);
      var before := HandleBatch(states, msgs[..n]).0;
      if n > 0 {
        assert msgs[..n][n - 1] == msgs[n - 1];
      }
      assert AllExpect(before, msgs[n]);
      ExpectedMessageIsSilent(before, msgs[n]);
    }
  }
}
