/**
 The finished-signage-point handler and its one condition checker as
 objects. The checker keeps the last message it saw in two fields that
 every `Check` call overwrites; the handler feeds each message of a parsed
 batch to each of its checkers and collects the events they return. Both
 methods are proved against the functions of module SignagePoints.
 */
module Handlers {
  import opened Notifier
  import opened SignagePoints

  /** Checks that the full node did not skip any signage points. */
  class NonSkippedSignagePoints {
    var lastSignagePointTimestamp: Option<int>
    var lastSignagePoint: Option<int>
    var rollOverPoint: int

    /** The roll-over point is 64 and the two last-seen fields are set together. */
    ghost predicate Valid()
      reads this
    {
      rollOverPoint == RollOverPoint && State().Valid()
    }

    /** The checker's state as a value. */
    function State(): CheckerState
      reads this
    {
      CheckerState(lastSignagePointTimestamp, lastSignagePoint)
    }

    constructor ()
      ensures Valid() && State() == Unprimed
    {
      lastSignagePointTimestamp := None;
      lastSignagePoint := None;
      rollOverPoint := 64;
    }

    /** Classify one message against the last one seen, then remember it. */
    method Check(msg: FinishedSignagePointMessage) returns (event: Option<Event>)
      requires Valid()
      modifies this
      ensures Valid() && rollOverPoint == old(rollOverPoint)
      ensures lastSignagePointTimestamp == Some(msg.timestamp) && lastSignagePoint == Some(msg.signagePoint)
      ensures State() == CheckStep(old(State()), msg).0
      ensures event == CheckStep(old(State()), msg).1
    {
      if lastSignagePoint.None? {
        lastSignagePointTimestamp := Some(msg.timestamp);
        lastSignagePoint := Some(msg.signagePoint);
        return None;
      }

      event := None;
      var timeDiffSeconds := TimeDiffSeconds(lastSignagePointTimestamp.value, msg.timestamp);
      var incrementDiff := msg.signagePoint - lastSignagePoint.value % rollOverPoint;

      if incrementDiff <= 0 || incrementDiff > 1 {
        // A gap below 15 seconds is taken for a network-wide blip and only logged.
        if timeDiffSeconds >= FlakyGapSeconds {
          event := Some(Event(User, Normal, FullNode, SkippedSignagePoints(lastSignagePoint.value, msg.signagePoint)));
        }
      }
      IrregularIffNotNext(lastSignagePoint.value, msg.signagePoint);

      lastSignagePointTimestamp := Some(msg.timestamp);
      lastSignagePoint := Some(msg.signagePoint);
    }
  }

  /** The states of `checkers`, in order. */
  function StatesOf(checkers: seq<NonSkippedSignagePoints>): (r: seq<CheckerState>)
    reads checkers
    ensures |r| == |checkers|
    ensures forall k | 0 <= k < |checkers| :: r[k] == checkers[k].State()
  {
    seq(|checkers|, k requires 0 <= k < |checkers| reads checkers => checkers[k].State())
  }

  /** Parses finished-signage-point log lines and evaluates its condition
      checkers on each of them. */
  class FinishedSignagePointHandler {
    const condCheckers: seq<NonSkippedSignagePoints>

    /** The checkers are distinct objects, each in a valid state. */
    ghost predicate Valid()
      reads condCheckers
    {
      (forall i, j | 0 <= i < j < |condCheckers| :: condCheckers[i] != condCheckers[j])
      && (forall k | 0 <= k < |condCheckers| :: condCheckers[k].Valid())
    }

    /** A handler with a single fresh skipped-signage-point checker. */
    constructor ()
      ensures Valid() && |condCheckers| == 1 && fresh(condCheckers[0])
      ensures StatesOf(condCheckers) == [Unprimed]
    {
      var checker := new NonSkippedSignagePoints();
      condCheckers := [checker];
    }

    /** Run every message of a parsed batch through every checker, in
        registration order, and return the events they report. */
    method Handle(msgs: seq<FinishedSignagePointMessage>) returns (events: seq<Event>)
      requires Valid()
      modifies condCheckers
      ensures Valid()
      ensures StatesOf(condCheckers) == HandleBatch(old(StatesOf(condCheckers)), msgs).0
      ensures events == HandleBatch(old(StatesOf(condCheckers)), msgs).1
    {
      events := [];
      for i := 0 to |msgs|
        invariant Valid()
        invariant StatesOf(condCheckers) == HandleBatch(old(StatesOf(condCheckers)), msgs[..i]).0
        invariant events == HandleBatch(old(StatesOf(condCheckers)), msgs[..i]).1
      {
        var reported := CheckAll(msgs[i]);
        events := events + reported;
        assert msgs[..i + 1][..i] == msgs[..i];
      }
      assert msgs[..|msgs|] == msgs;
    }

    /** The inner loop of `Handle`: give one message to every checker, in
        registration order, and collect what they report. */
    method CheckAll(msg: FinishedSignagePointMessage) returns (events: seq<Event>)
      requires Valid()
      modifies condCheckers
      ensures Valid()
      ensures StatesOf(condCheckers) == RunCheckers(old(StatesOf(condCheckers)), msg).0
      ensures events == RunCheckers(old(StatesOf(condCheckers)), msg).1
    {
      ghost var before := StatesOf(condCheckers);
      events := [];
      for j := 0 to |condCheckers|
        invariant Valid()
        invariant forall k | 0 <= k < j :: condCheckers[k].State() == Primed(msg)
        invariant forall k | j <= k < |condCheckers| :: condCheckers[k].State() == before[k]
        invariant events == RunCheckers(before[..j], msg).1
      {
        var checker := condCheckers[j];
        assert forall k | 0 <= k < |condCheckers| && k != j :: condCheckers[k] != checker;
        assert checker.State() == before[j];
        var event := checker.Check(msg);
        RunCheckersStep(before, j, msg, events, event);
        if event.Some? {
          events := events + [event.value];
        }
      }
      assert before[..|condCheckers|] == before;
      assert StatesOf(condCheckers) == RunCheckers(before, msg).0;
    }
  }
}
