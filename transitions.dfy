/**
 * The specification of `analyzePosition` as functions: what one geofence
 * transition does, what a run over a list of ids does, and what a whole
 * call does. The methods of module GeofenceEventHandler are proved equal to
 * these, and module TraceProperties proves what they promise.
 */
module Transitions {
  import opened Wrappers
  import opened GeofenceModel
  import opened Membership

  /** The geofence ids of the device's cached last position: none if there is no such position or its list is null. */
  function LastGeofences(p: Position, c: Cache): seq<Id>
  {
    if p.deviceId in c.positions && c.positions[p.deviceId].geofenceIds.Some?
    then c.positions[p.deviceId].geofenceIds.value
    else []
  }

  /** The calendar of a geofence: looked up only for a non-zero id, and null when the cache has none. */
  function ResolveCalendar(g: Geofence, c: Cache): Option<Calendar>
  {
    if g.calendarId != 0 && g.calendarId in c.calendars then Some(c.calendars[g.calendarId]) else None
  }

  /** A transition counts when there is no calendar or the calendar accepts the fix time. */
  predicate GatedIn(g: Geofence, c: Cache, t: Time)
  {
    var calendar := ResolveCalendar(g, c);
    calendar.None? || calendar.value.checkMoment(t)
  }

  /** The flag that asks for an engine stop on this side of the diff. */
  function StopFlag(g: Geofence, d: Direction): bool
  {
    match d
    case Exit => g.stopOut
    case Enter => g.stopIn
  }

  function EventTypeOf(d: Direction): EventType
  {
    match d
    case Exit => GeofenceExit
    case Enter => GeofenceEnter
  }

  function DirectionOf(t: EventType): Direction
  {
    match t
    case GeofenceExit => Exit
    case GeofenceEnter => Enter
  }

  /** What one id of the diff leads to. */
  datatype Step = Skip | Throw | Emit(stop: bool)

  /**
   * One id of the diff: a missing geofence is skipped on the exit side and
   * dereferenced (a NullPointerException) on the entry side as written; a
   * gated-out transition is skipped; a gated-in one emits an event, preceded
   * by an engine-stop command when the geofence's flag for that side is set.
   */
  function Transition(d: Direction, id: Id, p: Position, c: Cache, build: Build): (s: Step)
    ensures s.Throw? <==> d == Enter && build == AsWritten && id !in c.geofences
    ensures s.Emit? <==> id in c.geofences && GatedIn(c.geofences[id], c, p.fixTime)
    ensures s.Emit? ==> s.stop == StopFlag(c.geofences[id], d)
  {
    if id !in c.geofences then
      if d == Enter && build == AsWritten then Throw else Skip
    else
      var geofence := c.geofences[id];
      if GatedIn(geofence, c, p.fixTime) then Emit(StopFlag(geofence, d)) else Skip
  }

  /** The engine-stop command for the position's device. */
  function StopCommand(p: Position): Command
  {
    Command(p.deviceId, EngineStop)
  }

  /**
   * The actions of one gated-in id: the engine-stop attempt, which gets the
   * sender's outcome for attempt `sent`, when the flag is set; then the event.
   */
  function Emission(d: Direction, id: Id, p: Position, stop: bool, send: nat -> SendOutcome, sent: nat): seq<Action>
  {
    var event := EventDetected(Event(EventTypeOf(d), p, id));
    if stop then [SendCommand(StopCommand(p), send(sent)), event] else [event]
  }

  /**
   * One loop of `analyzePosition` over `ids`. `sent` is the number of
   * commands already sent in this call: attempt number `k` gets the outcome
   * `send(k)`, whatever it is, and processing goes on.
   */
  function Process(d: Direction, ids: seq<Id>, p: Position, c: Cache,
                   send: nat -> SendOutcome, sent: nat, build: Build): Run
    decreases |ids|
  {
    if ids == [] then Run([], Returned)
    else
      match Transition(d, ids[0], p, c, build)
      case Throw => Run([], ThrewNullPointer(ids[0]))
      case Skip => Process(d, ids[1..], p, c, send, sent, build)
      case Emit(stop) =>
        Prepend(Emission(d, ids[0], p, stop, send, sent),
                Process(d, ids[1..], p, c, send, if stop then sent + 1 else sent, build))
  }

  /** The number of command attempts in a trace. */
  function CommandCount(actions: seq<Action>): (n: nat)
    ensures n <= |actions|
  {
    if actions == [] then 0
    else (if actions[0].SendCommand? then 1 else 0) + CommandCount(actions[1..])
  }

  /** Command attempts add up over concatenated traces. */
  lemma {:induction false} CommandCountAppend(a: seq<Action>, b: seq<Action>)
    ensures CommandCount(a + b) == CommandCount(a) + CommandCount(b)
  {
    if a == [] {
      assert a + b == b;
    } else {
      assert (a + b)[0] == a[0] && (a + b)[1..] == a[1..] + b;
      CommandCountAppend(a[1..], b);
    }
  }

  /**
   * A whole call: nothing for a stale position; otherwise the exited ids,
   * then (unless that threw) the entered ids, with attempts numbered across
   * both loops.
   */
  function Analyze(isLatest: bool, p: Position, c: Cache, send: nat -> SendOutcome, build: Build): Run
  {
    if !isLatest then Run([], Returned)
    else
      var diff := MembershipDiff(LastGeofences(p, c), p.geofenceIds);
      var exits := Process(Exit, diff.exited, p, c, send, 0, build);
      if exits.end != Returned then exits
      else Prepend(exits.actions, Process(Enter, diff.entered, p, c, send, CommandCount(exits.actions), build))
  }

  // ---------------------------------------------------------------------
  // Unfolding one loop step, for the loop in `GeofenceEventHandler`.

  /** One step of a loop that starts at index `i`. */
  lemma ProcessStep(d: Direction, ids: seq<Id>, i: nat, p: Position, c: Cache,
                    send: nat -> SendOutcome, sent: nat, build: Build)
    requires i < |ids|
    ensures Process(d, ids[i..], p, c, send, sent, build)
         == match Transition(d, ids[i], p, c, build)
            case Throw => Run([], ThrewNullPointer(ids[i]))
            case Skip => Process(d, ids[i + 1..], p, c, send, sent, build)
            case Emit(stop) =>
              Prepend(Emission(d, ids[i], p, stop, send, sent),
                      Process(d, ids[i + 1..], p, c, send, if stop then sent + 1 else sent, build))
  {
    assert ids[i..][0] == ids[i] && ids[i..][1..] == ids[i + 1..];
  }

  /**
   * A loop that has produced `actions` and reached index `i`, where the id
   * is gated in, moves on by the id's emission and the commands it counts.
   */
  lemma ProcessEmitAdvance(d: Direction, ids: seq<Id>, i: nat, p: Position, c: Cache,
                           send: nat -> SendOutcome, sent0: nat, sent: nat, build: Build,
                           actions: seq<Action>, stop: bool)
    requires i < |ids| && Transition(d, ids[i], p, c, build) == Emit(stop)
    requires Prepend(actions, Process(d, ids[i..], p, c, send, sent, build))
          == Process(d, ids, p, c, send, sent0, build)
    ensures var block := Emission(d, ids[i], p, stop, send, sent);
            Prepend(actions + block, Process(d, ids[i + 1..], p, c, send, if stop then sent + 1 else sent, build))
              == Process(d, ids, p, c, send, sent0, build)
            && CommandCount(actions + block) == CommandCount(actions) + (if stop then 1 else 0)
  {
    var block := Emission(d, ids[i], p, stop, send, sent);
    var rest := Process(d, ids[i + 1..], p, c, send, if stop then sent + 1 else sent, build);
    assert ids[i..][0] == ids[i] && ids[i..][1..] == ids[i + 1..];
    assert Process(d, ids[i..], p, c, send, sent, build) == Prepend(block, rest);
    assert actions + block + rest.actions == actions + (block + rest.actions);
    CommandCountAppend(actions, block);
    EmissionCount(d, ids[i], p, stop, send, sent);
  }

  /** An emission holds one command exactly when the stop flag is set. */
  lemma EmissionCount(d: Direction, id: Id, p: Position, stop: bool, send: nat -> SendOutcome, sent: nat)
    ensures CommandCount(Emission(d, id, p, stop, send, sent)) == if stop then 1 else 0
  {
    var block := Emission(d, id, p, stop, send, sent);
    assert block[|block| - 1].EventDetected?;
    if stop {
      assert block[1..] == [block[1]];
      assert block[1..][1..] == [];
    } else {
      assert block[1..] == [];
    }
  }

  // ---------------------------------------------------------------------
  // Reference definitions the properties are stated with.

  /** The index of the first id whose geofence is not cached (|ids| if none). */
  function FirstUncached(ids: seq<Id>, c: Cache): (k: nat)
    ensures k <= |ids|
    ensures forall j :: 0 <= j < k ==> ids[j] in c.geofences
    ensures k < |ids| ==> ids[k] !in c.geofences
  {
    if ids == [] || ids[0] !in c.geofences then 0
    else 1 + FirstUncached(ids[1..], c)
  }

  /** The ids a loop gets through before it throws: all of them unless it is the unguarded entry loop. */
  function Reached(d: Direction, ids: seq<Id>, c: Cache, build: Build): seq<Id>
  {
    if d == Enter && build == AsWritten then ids[..FirstUncached(ids, c)] else ids
  }

  /** One event per id, in list order, for every id whose geofence is cached and gated in. */
  function Announced(d: Direction, ids: seq<Id>, p: Position, c: Cache): seq<Event>
  {
    if ids == [] then []
    else
      var id := ids[0];
      (if id in c.geofences && GatedIn(c.geofences[id], c, p.fixTime)
       then [Event(EventTypeOf(d), p, id)] else [])
      + Announced(d, ids[1..], p, c)
  }

  /** The events handed to the callback, in order. */
  function EventsOf(actions: seq<Action>): seq<Event>
  {
    if actions == [] then []
    else (if actions[0].EventDetected? then [actions[0].event] else []) + EventsOf(actions[1..])
  }

  /** A trace with the sender's outcomes erased: what was attempted and emitted. */
  datatype Effect = Attempted(command: Command) | Emitted(event: Event)

  function Effects(actions: seq<Action>): seq<Effect>
  {
    if actions == [] then []
    else
      [match actions[0]
       case SendCommand(command, _) => Attempted(command)
       case EventDetected(event) => Emitted(event)]
      + Effects(actions[1..])
  }

  /** The event's geofence is cached and asks for an engine stop on the event's side. */
  predicate StopRequested(e: Event, c: Cache)
  {
    e.geofenceId in c.geofences && StopFlag(c.geofences[e.geofenceId], DirectionOf(e.eventType))
  }

  /**
   * Every command is the engine stop for the position's device and comes
   * immediately before an event whose geofence asks for a stop, and every
   * event whose geofence asks for a stop comes immediately after a command:
   * an event follows a command exactly when its geofence asks for a stop.
   */
  ghost predicate CommandsPairedWithEvents(actions: seq<Action>, p: Position, c: Cache)
  {
    && (forall i :: 0 <= i < |actions| && actions[i].SendCommand? ==>
          && actions[i].command == StopCommand(p)
          && i + 1 < |actions|
          && actions[i + 1].EventDetected?
          && StopRequested(actions[i + 1].event, c))
    && (forall i :: 0 <= i < |actions| && actions[i].EventDetected? && StopRequested(actions[i].event, c) ==>
          0 < i && actions[i - 1].SendCommand?)
  }

  /**
   * Each command carries the sender's outcome for its attempt, attempts being
   * numbered in trace order starting from `sent`.
   */
  ghost predicate OutcomesInAttemptOrder(actions: seq<Action>, send: nat -> SendOutcome, sent: nat)
    decreases |actions|
  {
    actions == [] ||
    match actions[0]
    case SendCommand(_, outcome) => outcome == send(sent) && OutcomesInAttemptOrder(actions[1..], send, sent + 1)
    case EventDetected(_) => OutcomesInAttemptOrder(actions[1..], send, sent)
  }

  /** Every event is of the loop's type, for the position, for one of `ids`, cached and gated in. */
  ghost predicate EventsFrom(actions: seq<Action>, d: Direction, ids: seq<Id>, p: Position, c: Cache)
  {
    forall i :: 0 <= i < |actions| && actions[i].EventDetected? ==>
      var e := actions[i].event;
      && e.eventType == EventTypeOf(d)
      && e.position == p
      && e.geofenceId in ids
      && e.geofenceId in c.geofences
      && GatedIn(c.geofences[e.geofenceId], c, p.fixTime)
  }
}
