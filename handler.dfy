/**
 * `GeofenceEventHandler.analyzePosition` as methods: the two lists are
 * built and filtered in place, then two loops walk the exited and the
 * entered ids, calling the command sender and the event callback in order.
 * The collaborators are data: `isLatest` is the freshness check's answer,
 * the cache is a snapshot, and `send(k)` is what the command sender does on
 * the k-th call (0-based) within this call.
 */
module GeofenceEventHandler {
  import opened Wrappers
  import opened GeofenceModel
  import opened Membership
  import opened Transitions

  /** Builds the exited (`oldGeofences`) and entered (`newGeofences`) lists. */
  method ComputeDiff(position: Position, cache: Cache) returns (oldGeofences: seq<Id>, newGeofences: seq<Id>)
    ensures Diff(oldGeofences, newGeofences) == MembershipDiff(LastGeofences(position, cache), position.geofenceIds)
  {
    oldGeofences := [];
    if position.deviceId in cache.positions {
      var lastPosition := cache.positions[position.deviceId];
      if lastPosition.geofenceIds.Some? {
        assert oldGeofences + lastPosition.geofenceIds.value == lastPosition.geofenceIds.value;
        oldGeofences := oldGeofences + lastPosition.geofenceIds.value;
      }
    }
    newGeofences := [];
    if position.geofenceIds.Some? {
      assert newGeofences + position.geofenceIds.value == position.geofenceIds.value;
      newGeofences := newGeofences + position.geofenceIds.value;
      newGeofences := RemoveAll(newGeofences, oldGeofences);
      oldGeofences := RemoveAll(oldGeofences, position.geofenceIds.value);
    }
  }

  /**
   * The per-id part of either loop up to the decision: look up the
   * geofence (a missing one is skipped on the exit side and dereferenced on
   * the entry side as written), resolve its calendar, gate on the fix time,
   * and read the stop flag for this side.
   */
  method EvaluateTransition(d: Direction, geofenceId: Id, position: Position, cache: Cache, build: Build)
    returns (step: Step)
    ensures step == Transition(d, geofenceId, position, cache, build)
  {
    if geofenceId !in cache.geofences {
      return if d == Enter && build == AsWritten then Throw else Skip;
    }
    var geofence := cache.geofences[geofenceId];
    var calendar: Option<Calendar> := None;
    if geofence.calendarId != 0 && geofence.calendarId in cache.calendars {
      calendar := Some(cache.calendars[geofence.calendarId]);
    }
    if calendar.None? || calendar.value.checkMoment(position.fixTime) {
      step := Emit(if d == Exit then geofence.stopOut else geofence.stopIn);
    } else {
      step := Skip;
    }
  }

  /**
   * One of the two loops. `sent` counts the commands attempted so far in the
   * call; a sender failure is caught and the loop goes on. On the entry side
   * as written, an id whose geofence is not cached ends the call with a
   * NullPointerException, after the actions already performed.
   */
  method ProcessTransitions(d: Direction, ids: seq<Id>, position: Position, cache: Cache,
                            send: nat -> SendOutcome, sent0: nat, build: Build)
    returns (run: Run, sent: nat)
    ensures run == Process(d, ids, position, cache, send, sent0, build)
    ensures sent == sent0 + CommandCount(run.actions)
  {
    var actions: seq<Action> := [];
    sent := sent0;
    var i := 0;
    while i < |ids|
      invariant 0 <= i <= |ids|
      invariant sent == sent0 + CommandCount(actions)
      invariant Prepend(actions, Process(d, ids[i..], position, cache, send, sent, build))
             == Process(d, ids, position, cache, send, sent0, build)
    {
      var geofenceId := ids[i];
      var step := EvaluateTransition(d, geofenceId, position, cache, build);
      match step {
        case Throw =>
          return Run(actions, ThrewNullPointer(geofenceId)), sent;
        case Skip =>
          ProcessStep(d, ids, i, position, cache, send, sent, build);
        case Emit(stop) =>
          var block := [EventDetected(Event(EventTypeOf(d), position, geofenceId))];
          if stop {
            block := [SendCommand(StopCommand(position), send(sent))] + block;
          }
          assert block == Emission(d, geofenceId, position, stop, send, sent);
          ProcessEmitAdvance(d, ids, i, position, cache, send, sent0, sent, build, actions, stop);
          actions := actions + block;
          sent := if stop then sent + 1 else sent;
      }
      i := i + 1;
    }
    run := Run(actions, Returned);
  }

  /**
   * `analyzePosition`: a stale position does nothing; otherwise the exited
   * ids are processed, then the entered ids.
   */
  method AnalyzePosition(isLatest: bool, position: Position, cache: Cache,
                         send: nat -> SendOutcome, build: Build)
    returns (run: Run)
    ensures run == Analyze(isLatest, position, cache, send, build)
    ensures !isLatest ==> run == Run([], Returned)
  {
    if !isLatest {
      return Run([], Returned);
    }
    var oldGeofences, newGeofences := ComputeDiff(position, cache);
    var exits, sent := ProcessTransitions(Exit, oldGeofences, position, cache, send, 0, build);
    if exits.end != Returned {
      return exits;
    }
    var enters, _ := ProcessTransitions(Enter, newGeofences, position, cache, send, sent, build);
    run := Prepend(exits.actions, enters);
  }
}
