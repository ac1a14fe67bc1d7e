/**
 * Concrete calls of `analyzePosition`, computed from the specification.
 * Device 1 reports position `p`; `CacheWith` caches its last position,
 * fixed at time 50 with the given list.
 */
module Scenarios {
  import opened Wrappers
  import opened GeofenceModel
  import opened Membership
  import opened Transitions

  function Fence(stopIn: bool, stopOut: bool): Geofence
  {
    Geofence(0, stopIn, stopOut)
  }

  function CacheWith(last: seq<Id>, geofences: map<Id, Geofence>, calendars: map<Id, Calendar>): Cache
  {
    Cache(map[1 := Position(1, 50, Some(last))], geofences, calendars)
  }

  /**
   * Last {10, 20}, current {20, 30}; 10 stops on exit, 30 does not stop on
   * entry: one attempt and an EXIT for 10, then an ENTER for 30, nothing for 20.
   */
  lemma CrossingTwoBoundaries(send: nat -> SendOutcome)
    ensures var p := Position(1, 100, Some([20, 30]));
            var c := CacheWith([10, 20], map[10 := Fence(false, true), 20 := Fence(true, true), 30 := Fence(false, false)], map[]);
            Analyze(true, p, c, send, AsWritten)
              == Run([SendCommand(Command(1, EngineStop), send(0)),
                      EventDetected(Event(GeofenceExit, p, 10)),
                      EventDetected(Event(GeofenceEnter, p, 30))], Returned)
  {
  }

  /** Entering a geofence whose calendar rejects the fix time does nothing. */
  lemma EntryOutsideCalendar(send: nat -> SendOutcome)
    ensures var p := Position(1, 100, Some([5]));
            var c := CacheWith([], map[5 := Geofence(9, true, true)], map[9 := Calendar(t => false)]);
            Analyze(true, p, c, send, AsWritten) == Run([], Returned)
  {
  }

  /** Leaving a geofence that is no longer cached does nothing and does not throw. */
  lemma ExitFromDeletedGeofence(send: nat -> SendOutcome)
    ensures var p := Position(1, 100, Some([]));
            var c := CacheWith([7], map[], map[]);
            Analyze(true, p, c, send, AsWritten) == Run([], Returned)
  {
  }

  /** Every send throws, yet both exits are reported and both stops attempted. */
  lemma FailingSenderDoesNotStopEvents()
    ensures var p := Position(1, 100, Some([]));
            var c := CacheWith([1, 2], map[1 := Fence(false, true), 2 := Fence(false, true)], map[]);
            var send := (k: nat) => Raised("device offline");
            Analyze(true, p, c, send, AsWritten)
              == Run([SendCommand(Command(1, EngineStop), Raised("device offline")),
                      EventDetected(Event(GeofenceExit, p, 1)),
                      SendCommand(Command(1, EngineStop), Raised("device offline")),
                      EventDetected(Event(GeofenceExit, p, 2))], Returned)
  {
  }

  /** The lists are not sets: an id listed twice in the last position exits twice. */
  lemma DuplicateIdExitsTwice(send: nat -> SendOutcome)
    ensures var p := Position(1, 100, None);
            var c := CacheWith([4, 4], map[4 := Fence(false, false)], map[]);
            Analyze(true, p, c, send, AsWritten)
              == Run([EventDetected(Event(GeofenceExit, p, 4)), EventDetected(Event(GeofenceExit, p, 4))], Returned)
  {
  }

  /**
   * Entering 5 (not cached) and 6 (cached): as written the call throws at 5
   * and 6 is never reported; with the null check 6 is reported.
   */
  lemma MissingEnteredGeofenceAbortsCall(send: nat -> SendOutcome)
    ensures var p := Position(1, 100, Some([5, 6]));
            var c := CacheWith([], map[6 := Fence(false, false)], map[]);
            && Analyze(true, p, c, send, AsWritten) == Run([], ThrewNullPointer(5))
            && Analyze(true, p, c, send, NullChecked) == Run([EventDetected(Event(GeofenceEnter, p, 6))], Returned)
  {
  }
}
