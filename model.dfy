/**
 * The entities the geofence event handler reads and produces.
 *
 * The handler itself keeps no state of its own: everything it reads comes
 * from the object cache (last positions, geofences, calendars) and everything
 * it does is an ordered trace of calls into two collaborators, the command
 * sender and the event callback.
 */
module GeofenceModel {
  import opened Wrappers

  /** Database identifiers (Java `long`). */
  type Id = int

  /** A fix time; the handler only passes it on to a calendar. */
  type Time = int

  /** A telemetry fix. `geofenceIds` is the list computed upstream; it may be null. */
  datatype Position = Position(deviceId: Id, fixTime: Time, geofenceIds: Option<seq<Id>>)

  /**
   * A cached geofence: its calendar reference (0 means none) and the two
   * flags that ask for an engine stop on entry (`stopIn`) or on exit (`stopOut`).
   */
  datatype Geofence = Geofence(calendarId: Id, stopIn: bool, stopOut: bool)

  /** A cached calendar, seen only through its `checkMoment` predicate. */
  datatype Calendar = Calendar(checkMoment: Time -> bool)

  /**
   * The read-through object cache as the handler sees it during one call:
   * the last stored position per device, and geofences and calendars by id.
   * A key that is absent stands for a lookup that returns null.
   */
  datatype Cache = Cache(
    positions: map<Id, Position>,
    geofences: map<Id, Geofence>,
    calendars: map<Id, Calendar>)

  /** The two event types this handler emits. */
  datatype EventType = GeofenceEnter | GeofenceExit

  /** An event built from the position, with the geofence that triggered it. */
  datatype Event = Event(eventType: EventType, position: Position, geofenceId: Id)

  /** The only command kind this handler sends. */
  datatype CommandType = EngineStop

  datatype Command = Command(deviceId: Id, commandType: CommandType)

  /**
   * What one call of the command sender did: it returned null, returned a
   * non-null value (a queued command), or threw an exception with a message.
   */
  datatype SendOutcome = ReturnedNull | ReturnedQueued | Raised(message: string)

  /** One call into a collaborator, in the order it was made. */
  datatype Action =
    | SendCommand(command: Command, outcome: SendOutcome)
    | EventDetected(event: Event)

  /** How a call of the handler ended. */
  datatype End = Returned | ThrewNullPointer(geofenceId: Id)

  /** The observable result of one call: the trace and how it ended. */
  datatype Run = Run(actions: seq<Action>, end: End)

  /** The two sides of the membership diff, processed exits first. */
  datatype Direction = Exit | Enter

  /**
   * The handler as written dereferences the geofence of an entered id
   * without a null check; `NullChecked` is the same handler with the check
   * the exit side already has.
   */
  datatype Build = AsWritten | NullChecked

  /** Prefixes a run with actions that happened before it. */
  function Prepend(before: seq<Action>, run: Run): Run
  {
    Run(before + run.actions, run.end)
  }
}
