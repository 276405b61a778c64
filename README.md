# Skipped signage point detection (chiadog)

chiadog watches the debug log of a chia full node and notifies the user when
something looks wrong. This project models its finished-signage-point handler:

- `NonSkippedSignagePoints`, a condition checker that remembers the timestamp
  and the signage point of the last "finished signage point" message. For each
  new message it computes the increment from the last point, taken modulo the
  roll-over point 64, to the new point. An increment of exactly 1, including
  the wrap from 64 to 1, is regular. Any other increment is taken for a
  network-wide blip when the seconds component of the time gap is below 15. At
  15 seconds or more it becomes a user-facing, normal-priority full-node event
  that names both points. Either way the new message becomes the last one seen.
- `FinishedSignagePointHandler`, which gives every parsed message, in order, to
  every registered checker, in registration order, and collects the events.

Files:

- `notifier.dfy` (module `Notifier`): the event record and its enumerations.
- `signage_points.dfy` (module `SignagePoints`): the model as values. It holds
  the parsed message, the checker state, one check step (`CheckStep`), one
  message through all checkers (`RunCheckers`) and a whole batch
  (`HandleBatch`), with the lemmas about them.
- `handlers.dfy` (module `Handlers`): the two classes. Their methods update the
  checker fields in place. Their postconditions tie the new state and the
  returned events to the functions of `SignagePoints`.

Modelling choices:

- Timestamps are integers counting microseconds. `TimeDiffSeconds` is the
  `seconds` component of a Python `timedelta`, not its total length. Python
  normalises a duration into days, seconds in 0..86399 and microseconds,
  rounding toward minus infinity. So the model takes
  `((later - earlier) / 1000000) % 86400`, where Dafny's `/` and `%` by a
  positive divisor round the same way.
- Two consequences are proved rather than hidden. A gap of whole days plus d
  reads like a gap of d (`TimeDiffIgnoresWholeDays`). A timestamp that steps
  back by up to 86385 seconds reads as a gap of at least 15 seconds, so an
  irregular increment then is reported; a step back of up to one second reads
  as 86399 seconds (`BackwardStepReadsAsLongGap`). A step back of more than
  86385 seconds and at most a day reads as a gap below 15 seconds, so an
  irregular increment then is suppressed (`NearlyDayBackwardStepIsSuppressed`).
  A step back of more than a day loses its whole days like a forward gap
  (`TimeDiffIgnoresWholeDays`): after a step back of 86401 seconds the gap
  reads as 86399 seconds and a skip is reported again
  (`OverDayBackwardStepIsReported`).
- A signage point is an unbounded `int`, like a Python integer. `%` by 64 agrees
  with Python's for every sign.
- An event's message is kept as the pair (last point, current point) that the
  text names, as `Description.SkippedSignagePoints`.
- The handler's inner loop over its checkers is written as its own method,
  `CheckAll`. `Handle` calls it once per message. The loops and their order are
  those of the source.
- The handler's checkers must be distinct objects (`FinishedSignagePointHandler.Valid`).
  The source builds the list itself from one fresh checker and never shares it.

## Model

| member | source | states |
|---|---|---|
| `SignagePoints.TimeDiffSeconds` | src/chia_log/handlers/finished_signage_point_handler.py:70 | the seconds component of a time gap always lies in 0..86399 |
| `SignagePoints.TimeDiffIsElapsedWithinADay` | src/chia_log/handlers/finished_signage_point_handler.py:70 | for a gap of zero to one day, the seconds component is the elapsed time truncated to whole seconds |
| `SignagePoints.TimeDiffIgnoresWholeDays` | src/chia_log/handlers/finished_signage_point_handler.py:70 | adding any number of whole days to a gap leaves its seconds component unchanged |
| `SignagePoints.BackwardStepReadsAsLongGap` | src/chia_log/handlers/finished_signage_point_handler.py:70-78 | a timestamp that steps back by less than a day reads as 86400 plus the floored negative gap: 86399 for a step of up to 1 s, at least 15 exactly when the step is at most 86385 s |
| `SignagePoints.NextSignagePoint` | src/chia_log/handlers/finished_signage_point_handler.py:61-71 | the regular successor is always in 1..64; it is last + 1 for 1 <= last < 64 and 1 after 64 |
| `SignagePoints.IsIrregularIncrement` | src/chia_log/handlers/finished_signage_point_handler.py:71-73 | the source's test holds exactly when new - (last mod 64) lies outside (0, 1], that is, differs from 1 |
| `SignagePoints.IrregularIffNotNext` | src/chia_log/handlers/finished_signage_point_handler.py:71-73 | the source's test `diff <= 0 or diff > 1` holds exactly when the new point is not the regular successor of the last |
| `SignagePoints.RegularIncrementsInRange` | src/chia_log/handlers/finished_signage_point_handler.py:71-73 | for points in 1..64, only one step forward or the wrap 64 to 1 is regular, so duplicates, decreases and skips are irregular |
| `SignagePoints.Primed` | src/chia_log/handlers/finished_signage_point_handler.py:94-95 | the state after a message has both last-seen fields set, together |
| `SignagePoints.SkipEvent` | src/chia_log/handlers/finished_signage_point_handler.py:85-92 | the skip event is USER, NORMAL and FULL_NODE, and its message names the last and the current point |
| `SignagePoints.CheckStep` | src/chia_log/handlers/finished_signage_point_handler.py:63-96 | after every check the stored pair is the message just checked, whatever was returned; a checker with no last point returns no event |
| `SignagePoints.FirstCheckOnlyPrimes` | src/chia_log/handlers/finished_signage_point_handler.py:63-67 | the first check on a fresh checker returns no event and stores that message's timestamp and point |
| `SignagePoints.CheckStepReportsIff` | src/chia_log/handlers/finished_signage_point_handler.py:69-92 | an event is returned if and only if a last point exists, the increment is irregular and the seconds component is at least 15; the event is then the skip from the last to the current point |
| `SignagePoints.ReportedEventNamesBothPoints` | src/chia_log/handlers/finished_signage_point_handler.py:84-92 | every returned event has type USER, priority NORMAL and service FULL_NODE, and its message names the last and the current point |
| `SignagePoints.RegularIncrementIsSilent` | src/chia_log/handlers/finished_signage_point_handler.py:71-73 | a regular increment returns no event, whatever the time gap, and stores the new message |
| `SignagePoints.RollOverIsSilent` | src/chia_log/handlers/finished_signage_point_handler.py:61-73 | the step from 64 to 1 returns no event, whatever the timestamps |
| `SignagePoints.QuickIrregularIncrementIsSuppressed` | src/chia_log/handlers/finished_signage_point_handler.py:73-83 | an irregular increment with a seconds component below 15 returns no event, and the checker still stores the new message |
| `SignagePoints.SlowIrregularIncrementIsReported` | src/chia_log/handlers/finished_signage_point_handler.py:84-95 | an irregular increment with a seconds component of at least 15 returns the skip event from the last to the current point and stores the new message |
| `SignagePoints.NearlyDayBackwardStepIsSuppressed` | src/chia_log/handlers/finished_signage_point_handler.py:70-83 | a skip from 10 to 13 after the clock steps back by 86390 s reads as a 10 s gap and returns no event |
| `SignagePoints.OverDayBackwardStepIsReported` | src/chia_log/handlers/finished_signage_point_handler.py:70-92 | after the clock steps back by 86401 s the gap reads as 86399 s, so a skip from 10 to 13 returns the skip event from 10 to 13 |
| `SignagePoints.Emitted` | src/chia_log/handlers/finished_signage_point_handler.py:38-40 | a checker's result adds one event when it is present and none when it is absent |
| `SignagePoints.RunCheckers` | src/chia_log/handlers/finished_signage_point_handler.py:37-40 | one message through all checkers moves every checker to that message and yields at most one event per checker |
| `SignagePoints.RunCheckersCollectsInOrder` | src/chia_log/handlers/finished_signage_point_handler.py:37-40 | the events for one message are exactly the present results of the checkers, each taken alone, in registration order |
| `SignagePoints.TwoReportingCheckers` | src/chia_log/handlers/finished_signage_point_handler.py:37-40 | two checkers that both report on a message yield both events, first checker first |
| `SignagePoints.HandleBatch` | src/chia_log/handlers/finished_signage_point_handler.py:27-42 | an empty batch changes nothing and returns no events; after a non-empty batch every checker holds its last message; the pair invariant is kept |
| `SignagePoints.HandleBatchBound` | src/chia_log/handlers/finished_signage_point_handler.py:27-42 | a batch returns at most (number of messages) x (number of checkers) events |
| `SignagePoints.HandleBatchConcat` | src/chia_log/handlers/finished_signage_point_handler.py:22-42 | handling two batches in turn, with the checker state carried over, gives the same states and the same events, in order, as handling their concatenation |
| `SignagePoints.ExpectedMessageIsSilent` | src/chia_log/handlers/finished_signage_point_handler.py:37-40 | a message that is the regular successor for every primed checker yields no events |
| `SignagePoints.RegularBatchIsSilent` | src/chia_log/handlers/finished_signage_point_handler.py:36-40 | a batch whose points advance regularly from where the checkers stand yields no events, whatever its timestamps |
| `Handlers.NonSkippedSignagePoints.constructor` | src/chia_log/handlers/finished_signage_point_handler.py:57-61 | a new checker has both last-seen fields unset and roll-over point 64 |
| `Handlers.NonSkippedSignagePoints.Check` | src/chia_log/handlers/finished_signage_point_handler.py:63-96 | the in-place check keeps the roll-over point at 64 and the two fields set together, overwrites both with the message, and returns exactly the event of `CheckStep` |
| `Handlers.FinishedSignagePointHandler.constructor` | src/chia_log/handlers/finished_signage_point_handler.py:18-20 | a new handler holds exactly one fresh checker, with no last message |
| `Handlers.FinishedSignagePointHandler.Handle` | src/chia_log/handlers/finished_signage_point_handler.py:22-42 | the nested loop leaves the checkers in the states of `HandleBatch` and returns its events: message by message, checker by checker |
| `Handlers.FinishedSignagePointHandler.CheckAll` | src/chia_log/handlers/finished_signage_point_handler.py:37-40 | the inner loop moves each checker by `CheckStep` and returns the events of `RunCheckers`, in registration order |

## Left out

- The parser (`FinishedSignagePointParser`) is not part of this model. `Handle` takes the already parsed messages. Its regular expressions and its date parsing are not modelled.
- The `logging` calls (lines 33, 58 and 79-83, 89) only record diagnostics and do not change behaviour.
- The text of the event message is not modelled. The model keeps the two numbers that the text names.
- The abstract `ConditionChecker` base class is not modelled. The handler holds the one concrete checker class, which is the only one it ever registers.
- `EventService` and `EventType` are partial. `EventService` has `FullNode`, which the handler uses, and `Harvester`, which the notifier's tests use. `EventType` has `User` and `KeepAlive`; the handler produces only `User` (it states at lines 30-32 that it makes no keep-alive events). The rest of the notifier's enumerations are not part of this model.
- The Telegram notifier (`src/notifier/telegram_notifier.py`) and its tests are left out. They are an HTTPS request to a chat-bot service plus URL encoding, which is network I/O.
