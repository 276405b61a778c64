/**
 The notification vocabulary shared by every log handler: an event is a
 value carrying its kind, priority, the service it concerns and a message.
 Only some enumerators are declared: the ones the signage-point handler
 and the notifier refer to, the harvester service that the notifier's own
 tests use, and the keep-alive kind that the handler does not produce.
 */
module Notifier {

  /** Whether an event is meant for the user or is an internal keep-alive. */
  datatype EventType = User | KeepAlive

  /** Priority of an event. */
  datatype EventPriority = Low | Normal | High

  /** The chia service an event is about. */
  datatype EventService = Harvester | FullNode

  /** The content of an event's message. The handler's message text names the
      last and the current signage point; the model keeps the two numbers
      rather than the formatted text. */
  datatype Description = SkippedSignagePoints(last: int, current: int)

  /** An immutable notification record. */
  datatype Event = Event(kind: EventType, priority: EventPriority, service: EventService, message: Description)
}
