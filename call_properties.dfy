/**
 * What one call of `analyzePosition` promises, proved about `Analyze` from
 * the per-loop lemmas of module TraceProperties.
 */
module CallProperties {
  import opened Wrappers
  import opened GeofenceModel
  import opened Membership
  import opened Transitions
  import opened TraceProperties

  /** The diff a call works on. */
  function DiffOf(p: Position, c: Cache): Diff
  {
    MembershipDiff(LastGeofences(p, c), p.geofenceIds)
  }

  /** Neither an event for geofence `id` nor a command paired with such an event. */
  ghost predicate NothingFor(actions: seq<Action>, id: Id)
  {
    && (forall i :: 0 <= i < |actions| && actions[i].EventDetected? ==> actions[i].event.geofenceId != id)
    && (forall i :: 0 <= i < |actions| && actions[i].SendCommand? ==>
          i + 1 < |actions| && actions[i + 1].EventDetected? && actions[i + 1].event.geofenceId != id)
  }

  /**
   * For a latest position: one EXIT event per cached, gated-in exited id in
   * list order, then one ENTER event per cached, gated-in entered id that
   * the entry loop reaches, in list order. The call returns normally unless
   * (as written) an entered id has no cached geofence: then it throws at the
   * first such id.
   */
  lemma CallEvents(p: Position, c: Cache, send: nat -> SendOutcome, build: Build)
    ensures var diff := DiffOf(p, c);
            var run := Analyze(true, p, c, send, build);
            && EventsOf(run.actions)
               == Announced(Exit, diff.exited, p, c) + Announced(Enter, Reached(Enter, diff.entered, c, build), p, c)
            && run.end == (var k := FirstUncached(diff.entered, c);
                           if build == AsWritten && k < |diff.entered| then ThrewNullPointer(diff.entered[k]) else Returned)
  {
    var diff := DiffOf(p, c);
    var exits := Process(Exit, diff.exited, p, c, send, 0, build);
    ProcessEnd(Exit, diff.exited, p, c, send, 0, build);
    ProcessEvents(Exit, diff.exited, p, c, send, 0, build);
    var n := CommandCount(exits.actions);
    var enters := Process(Enter, diff.entered, p, c, send, n, build);
    ProcessEnd(Enter, diff.entered, p, c, send, n, build);
    ProcessEvents(Enter, diff.entered, p, c, send, n, build);
    EventsOfAppend(exits.actions, enters.actions);
  }

  /**
   * In every call, each engine-stop command goes to the position's device
   * immediately before the event of a geofence flagged for a stop on that
   * side, each such event follows its command, and the k-th command carries
   * the sender's outcome for attempt k.
   */
  lemma CallCommands(isLatest: bool, p: Position, c: Cache, send: nat -> SendOutcome, build: Build)
    ensures var run := Analyze(isLatest, p, c, send, build);
            CommandsPairedWithEvents(run.actions, p, c) && OutcomesInAttemptOrder(run.actions, send, 0)
  {
    if isLatest {
      var diff := DiffOf(p, c);
      var exits := Process(Exit, diff.exited, p, c, send, 0, build);
      ProcessEnd(Exit, diff.exited, p, c, send, 0, build);
      ProcessPaired(Exit, diff.exited, p, c, send, 0, build);
      ProcessOutcomes(Exit, diff.exited, p, c, send, 0, build);
      var n := CommandCount(exits.actions);
      var enters := Process(Enter, diff.entered, p, c, send, n, build);
      ProcessPaired(Enter, diff.entered, p, c, send, n, build);
      ProcessOutcomes(Enter, diff.entered, p, c, send, n, build);
      PairedAppend(exits.actions, enters.actions, p, c);
      OutcomesAppend(exits.actions, enters.actions, send, 0);
    }
  }

  /**
   * Every event is for the position and for a cached, gated-in geofence:
   * an EXIT event for an exited id, an ENTER event for an entered id; and
   * no EXIT event comes after an ENTER event.
   */
  lemma CallEventsOrdered(isLatest: bool, p: Position, c: Cache, send: nat -> SendOutcome, build: Build)
    ensures var diff := DiffOf(p, c);
            var acts := Analyze(isLatest, p, c, send, build).actions;
            && (forall i :: 0 <= i < |acts| && acts[i].EventDetected? ==>
                  var e := acts[i].event;
                  && e.position == p
                  && e.geofenceId in c.geofences
                  && GatedIn(c.geofences[e.geofenceId], c, p.fixTime)
                  && (e.eventType == GeofenceExit ==> e.geofenceId in diff.exited)
                  && (e.eventType == GeofenceEnter ==> e.geofenceId in diff.entered))
            && (forall i, j ::
                  0 <= i < j < |acts| && acts[i].EventDetected? && acts[j].EventDetected? &&
                  acts[i].event.eventType == GeofenceEnter
                  ==> acts[j].event.eventType == GeofenceEnter)
  {
    if isLatest {
      var diff := DiffOf(p, c);
      var exits := Process(Exit, diff.exited, p, c, send, 0, build);
      ProcessEnd(Exit, diff.exited, p, c, send, 0, build);
      ProcessEventsFrom(Exit, diff.exited, p, c, send, 0, build);
      var n := CommandCount(exits.actions);
      var enters := Process(Enter, diff.entered, p, c, send, n, build);
      ProcessEventsFrom(Enter, diff.entered, p, c, send, n, build);
      var a, b := exits.actions, enters.actions;
      var acts := a + b;
      assert Analyze(isLatest, p, c, send, build).actions == acts;
      forall i | 0 <= i < |acts| && acts[i].EventDetected?
        ensures i < |a| ==> acts[i].event.eventType == GeofenceExit && acts[i].event.geofenceId in diff.exited
        ensures |a| <= i ==> acts[i].event.eventType == GeofenceEnter && acts[i].event.geofenceId in diff.entered
        ensures acts[i].event.position == p && acts[i].event.geofenceId in c.geofences
        ensures GatedIn(c.geofences[acts[i].event.geofenceId], c, p.fixTime)
      {
        if i < |a| {
          assert acts[i] == a[i];
        } else {
          assert acts[i] == b[i - |a|];
        }
      }
    }
  }

  /** An id in both the last and the current list gets no event and no command. */
  lemma KeptGeofenceIsSilent(isLatest: bool, p: Position, c: Cache, send: nat -> SendOutcome, build: Build, id: Id)
    requires p.geofenceIds.Some? && id in p.geofenceIds.value && id in LastGeofences(p, c)
    ensures NothingFor(Analyze(isLatest, p, c, send, build).actions, id)
  {
    CallEventsOrdered(isLatest, p, c, send, build);
    CallCommands(isLatest, p, c, send, build);
  }

  /** A geofence whose calendar rejects the fix time gets no event and no command, whatever its flags. */
  lemma GatedOutGeofenceIsSilent(isLatest: bool, p: Position, c: Cache, send: nat -> SendOutcome, build: Build, id: Id)
    requires id in c.geofences && !GatedIn(c.geofences[id], c, p.fixTime)
    ensures NothingFor(Analyze(isLatest, p, c, send, build).actions, id)
  {
    CallEventsOrdered(isLatest, p, c, send, build);
    CallCommands(isLatest, p, c, send, build);
  }

  /** A current position without a geofence list exits every geofence of the last one. */
  lemma NullCurrentListExitsAll(p: Position, c: Cache, send: nat -> SendOutcome, build: Build)
    requires p.geofenceIds.None?
    ensures var run := Analyze(true, p, c, send, build);
            EventsOf(run.actions) == Announced(Exit, LastGeofences(p, c), p, c) && run.end == Returned
  {
    CallEvents(p, c, send, build);
    assert Reached(Enter, [], c, build) == [];
  }

  /** Without a cached last position (or its list), every event is an entry for the current list. */
  lemma NoLastListEntersAll(p: Position, c: Cache, send: nat -> SendOutcome, build: Build)
    requires p.deviceId !in c.positions || c.positions[p.deviceId].geofenceIds.None?
    requires p.geofenceIds.Some?
    ensures var cur := p.geofenceIds.value;
            EventsOf(Analyze(true, p, c, send, build).actions) == Announced(Enter, Reached(Enter, cur, c, build), p, c)
  {
    var cur := p.geofenceIds.value;
    WithoutDisjoint(cur, []);
    CallEvents(p, c, send, build);
    assert Announced(Exit, [], p, c) + Announced(Enter, Reached(Enter, cur, c, build), p, c)
        == Announced(Enter, Reached(Enter, cur, c, build), p, c);
  }

  /**
   * Two positions with the same membership produce no event and no command;
   * a current position with no list has the same membership as an empty one.
   */
  lemma UnchangedMembershipIsSilent(isLatest: bool, p: Position, c: Cache, send: nat -> SendOutcome, build: Build)
    requires forall x :: x in LastGeofences(p, c) <==> (p.geofenceIds.Some? && x in p.geofenceIds.value)
    ensures Analyze(isLatest, p, c, send, build) == Run([], Returned)
  {
    var last := LastGeofences(p, c);
    if p.geofenceIds.Some? {
      SameMembersNoDiff(last, p.geofenceIds.value);
    } else {
      WithoutDisjoint(last, []);
      WithoutSubsumed(last, []);
    }
  }

  /**
   * What a call attempts and emits, and how it ends, is the same whatever
   * the sender returns or throws: a failed send never suppresses its event
   * or the rest of the ids.
   */
  lemma SendFailuresAreIsolated(isLatest: bool, p: Position, c: Cache,
                                send1: nat -> SendOutcome, send2: nat -> SendOutcome, build: Build)
    ensures var r1 := Analyze(isLatest, p, c, send1, build);
            var r2 := Analyze(isLatest, p, c, send2, build);
            Effects(r1.actions) == Effects(r2.actions) && r1.end == r2.end
  {
    if isLatest {
      var diff := DiffOf(p, c);
      var x1 := Process(Exit, diff.exited, p, c, send1, 0, build);
      var x2 := Process(Exit, diff.exited, p, c, send2, 0, build);
      ProcessIgnoresOutcomes(Exit, diff.exited, p, c, send1, 0, send2, 0, build);
      if x1.end == Returned {
        var n1, n2 := CommandCount(x1.actions), CommandCount(x2.actions);
        var e1 := Process(Enter, diff.entered, p, c, send1, n1, build);
        var e2 := Process(Enter, diff.entered, p, c, send2, n2, build);
        ProcessIgnoresOutcomes(Enter, diff.entered, p, c, send1, n1, send2, n2, build);
        EffectsAppend(x1.actions, e1.actions);
        EffectsAppend(x2.actions, e2.actions);
      }
    }
  }

  /** With the null check on the entry side, a call always returns normally. */
  lemma NullCheckedNeverThrows(isLatest: bool, p: Position, c: Cache, send: nat -> SendOutcome)
    ensures Analyze(isLatest, p, c, send, NullChecked).end == Returned
  {
    if isLatest {
      CallEvents(p, c, send, NullChecked);
    }
  }

  /** The null check changes nothing when every entered id has a cached geofence. */
  lemma NullCheckOnlyMattersForMissingGeofences(isLatest: bool, p: Position, c: Cache, send: nat -> SendOutcome)
    requires forall x :: x in DiffOf(p, c).entered ==> x in c.geofences
    ensures Analyze(isLatest, p, c, send, AsWritten) == Analyze(isLatest, p, c, send, NullChecked)
  {
    if isLatest {
      var diff := DiffOf(p, c);
      ProcessNullCheckAgrees(Exit, diff.exited, p, c, send, 0);
      var exits := Process(Exit, diff.exited, p, c, send, 0, AsWritten);
      ProcessNullCheckAgrees(Enter, diff.entered, p, c, send, CommandCount(exits.actions));
    }
  }
}
