/**
 * What a call of `analyzePosition` promises, proved about the specification
 * functions of module Transitions: first for one loop (`Process`), then for
 * a whole call (`Analyze`).
 */
module TraceProperties {
  import opened Wrappers
  import opened GeofenceModel
  import opened Membership
  import opened Transitions

  // ---------------------------------------------------------------------
  // Traces under concatenation.

  /** The events of concatenated traces are concatenated. */
  lemma {:induction false} EventsOfAppend(a: seq<Action>, b: seq<Action>)
    ensures EventsOf(a + b) == EventsOf(a) + EventsOf(b)
  {
    if a == [] {
      assert a + b == b;
    } else {
      assert (a + b)[0] == a[0] && (a + b)[1..] == a[1..] + b;
      EventsOfAppend(a[1..], b);
    }
  }

  /** The effects of concatenated traces are concatenated. */
  lemma {:induction false} EffectsAppend(a: seq<Action>, b: seq<Action>)
    ensures Effects(a + b) == Effects(a) + Effects(b)
  {
    if a == [] {
      assert a + b == b;
    } else {
      assert (a + b)[0] == a[0] && (a + b)[1..] == a[1..] + b;
      EffectsAppend(a[1..], b);
    }
  }

  /** Pairing of commands with events survives concatenation. */
  lemma PairedAppend(a: seq<Action>, b: seq<Action>, p: Position, c: Cache)
    requires CommandsPairedWithEvents(a, p, c) && CommandsPairedWithEvents(b, p, c)
    ensures CommandsPairedWithEvents(a + b, p, c)
  {
  }

  /** Attempt numbering survives concatenation, the second part counting on from the first. */
  lemma {:induction false} OutcomesAppend(a: seq<Action>, b: seq<Action>, send: nat -> SendOutcome, sent: nat)
    requires OutcomesInAttemptOrder(a, send, sent)
    requires OutcomesInAttemptOrder(b, send, sent + CommandCount(a))
    ensures OutcomesInAttemptOrder(a + b, send, sent)
  {
    if a == [] {
      assert a + b == b;
    } else {
      assert (a + b)[0] == a[0] && (a + b)[1..] == a[1..] + b;
      OutcomesAppend(a[1..], b, send, if a[0].SendCommand? then sent + 1 else sent);
    }
  }

  /**
   * The command at index `j` of a trace carries the outcome of attempt
   * `sent + k`, where `k` is the number of commands before it.
   */
  lemma {:induction false} OutcomeAt(actions: seq<Action>, send: nat -> SendOutcome, sent: nat, j: nat)
    requires OutcomesInAttemptOrder(actions, send, sent)
    requires j < |actions| && actions[j].SendCommand?
    ensures actions[j].outcome == send(sent + CommandCount(actions[..j]))
  {
    if j > 0 {
      var next := if actions[0].SendCommand? then sent + 1 else sent;
      OutcomeAt(actions[1..], send, next, j - 1);
      assert actions[..j] == [actions[0]] + actions[1..][..j - 1];
      CommandCountAppend([actions[0]], actions[1..][..j - 1]);
    }
  }

  /** Events from a loop over a suffix are events from the whole list. */
  lemma EventsFromAppend(a: seq<Action>, b: seq<Action>, d: Direction, ids: seq<Id>, p: Position, c: Cache)
    requires ids != []
    requires EventsFrom(a, d, ids, p, c)
    requires EventsFrom(b, d, ids[1..], p, c)
    ensures EventsFrom(a + b, d, ids, p, c)
  {
  }

  // ---------------------------------------------------------------------
  // One loop.

  /** The ids a loop reaches, one step at a time. */
  lemma ReachedCons(d: Direction, ids: seq<Id>, c: Cache, build: Build)
    requires ids != []
    requires !(d == Enter && build == AsWritten && ids[0] !in c.geofences)
    ensures Reached(d, ids, c, build) == [ids[0]] + Reached(d, ids[1..], c, build)
  {
  }

  lemma AnnouncedCons(d: Direction, id: Id, rest: seq<Id>, p: Position, c: Cache)
    ensures Announced(d, [id] + rest, p, c)
         == (if id in c.geofences && GatedIn(c.geofences[id], c, p.fixTime)
             then [Event(EventTypeOf(d), p, id)] else [])
            + Announced(d, rest, p, c)
  {
  }

  /**
   * A loop ends normally, except the entry loop as written, which throws at
   * the first id whose geofence is not cached.
   */
  lemma {:induction false} ProcessEnd(d: Direction, ids: seq<Id>, p: Position, c: Cache,
                                      send: nat -> SendOutcome, sent: nat, build: Build)
    ensures var k := FirstUncached(ids, c);
      Process(d, ids, p, c, send, sent, build).end
        == if d == Enter && build == AsWritten && k < |ids| then ThrewNullPointer(ids[k]) else Returned
  {
    if ids != [] {
      match Transition(d, ids[0], p, c, build)
      case Throw =>
      case Skip =>
        ProcessEnd(d, ids[1..], p, c, send, sent, build);
      case Emit(stop) =>
        ProcessEnd(d, ids[1..], p, c, send, if stop then sent + 1 else sent, build);
    }
  }

  /**
   * The events of a loop are exactly one per cached, gated-in id among those
   * it reaches, in list order, whatever the sender does.
   */
  lemma {:induction false} ProcessEvents(d: Direction, ids: seq<Id>, p: Position, c: Cache,
                                         send: nat -> SendOutcome, sent: nat, build: Build)
    ensures EventsOf(Process(d, ids, p, c, send, sent, build).actions) == Announced(d, Reached(d, ids, c, build), p, c)
  {
    if ids == [] {
      assert Reached(d, ids, c, build) == [];
    } else {
      var id := ids[0];
      match Transition(d, id, p, c, build)
      case Throw =>
        assert Reached(d, ids, c, build) == [];
      case Skip =>
        ReachedCons(d, ids, c, build);
        AnnouncedCons(d, id, Reached(d, ids[1..], c, build), p, c);
        ProcessEvents(d, ids[1..], p, c, send, sent, build);
      case Emit(stop) =>
        var event := Event(EventTypeOf(d), p, id);
        var n := if stop then sent + 1 else sent;
        var rest := Process(d, ids[1..], p, c, send, n, build);
        var block := Emission(d, id, p, stop, send, sent);
        EventsOfAppend(block, rest.actions);
        assert EventsOf(block) == [event];
        ReachedCons(d, ids, c, build);
        AnnouncedCons(d, id, Reached(d, ids[1..], c, build), p, c);
        ProcessEvents(d, ids[1..], p, c, send, n, build);
    }
  }

  /** Within a loop, each command immediately precedes the event of a geofence that asks for it. */
  lemma {:induction false} ProcessPaired(d: Direction, ids: seq<Id>, p: Position, c: Cache,
                                         send: nat -> SendOutcome, sent: nat, build: Build)
    ensures CommandsPairedWithEvents(Process(d, ids, p, c, send, sent, build).actions, p, c)
  {
    if ids != [] {
      var id := ids[0];
      match Transition(d, id, p, c, build)
      case Throw =>
      case Skip =>
        ProcessPaired(d, ids[1..], p, c, send, sent, build);
      case Emit(stop) =>
        var event := Event(EventTypeOf(d), p, id);
        var n := if stop then sent + 1 else sent;
        var rest := Process(d, ids[1..], p, c, send, n, build);
        var block := Emission(d, id, p, stop, send, sent);
        assert StopRequested(event, c) == stop;
        assert CommandsPairedWithEvents(block, p, c);
        ProcessPaired(d, ids[1..], p, c, send, n, build);
        PairedAppend(block, rest.actions, p, c);
    }
  }

  /** Within a loop, the k-th command carries the sender's outcome for attempt `sent + k`. */
  lemma {:induction false} ProcessOutcomes(d: Direction, ids: seq<Id>, p: Position, c: Cache,
                                           send: nat -> SendOutcome, sent: nat, build: Build)
    ensures OutcomesInAttemptOrder(Process(d, ids, p, c, send, sent, build).actions, send, sent)
  {
    if ids != [] {
      var id := ids[0];
      match Transition(d, id, p, c, build)
      case Throw =>
      case Skip =>
        ProcessOutcomes(d, ids[1..], p, c, send, sent, build);
      case Emit(stop) =>
        var event := Event(EventTypeOf(d), p, id);
        var n := if stop then sent + 1 else sent;
        var rest := Process(d, ids[1..], p, c, send, n, build);
        var block := Emission(d, id, p, stop, send, sent);
        assert block[..0] == [];
        assert OutcomesInAttemptOrder(block, send, sent);
        assert CommandCount(block) == n - sent;
        ProcessOutcomes(d, ids[1..], p, c, send, n, build);
        OutcomesAppend(block, rest.actions, send, sent);
    }
  }

  /** Every event of a loop is of its type, for the position, for a cached, gated-in id of its list. */
  lemma {:induction false} ProcessEventsFrom(d: Direction, ids: seq<Id>, p: Position, c: Cache,
                                             send: nat -> SendOutcome, sent: nat, build: Build)
    ensures EventsFrom(Process(d, ids, p, c, send, sent, build).actions, d, ids, p, c)
  {
    if ids != [] {
      var id := ids[0];
      match Transition(d, id, p, c, build)
      case Throw =>
      case Skip =>
        ProcessEventsFrom(d, ids[1..], p, c, send, sent, build);
        EventsFromAppend([], Process(d, ids[1..], p, c, send, sent, build).actions, d, ids, p, c);
        assert [] + Process(d, ids[1..], p, c, send, sent, build).actions
            == Process(d, ids[1..], p, c, send, sent, build).actions;
      case Emit(stop) =>
        var event := Event(EventTypeOf(d), p, id);
        var n := if stop then sent + 1 else sent;
        var rest := Process(d, ids[1..], p, c, send, n, build);
        var block := Emission(d, id, p, stop, send, sent);
        assert id in ids;
        assert EventsFrom(block, d, ids, p, c);
        ProcessEventsFrom(d, ids[1..], p, c, send, n, build);
        EventsFromAppend(block, rest.actions, d, ids, p, c);
    }
  }

  /** What a loop attempts and emits, and how it ends, does not depend on the sender's outcomes. */
  lemma {:induction false} ProcessIgnoresOutcomes(d: Direction, ids: seq<Id>, p: Position, c: Cache,
                                                  send1: nat -> SendOutcome, sent1: nat,
                                                  send2: nat -> SendOutcome, sent2: nat, build: Build)
    ensures var r1 := Process(d, ids, p, c, send1, sent1, build);
            var r2 := Process(d, ids, p, c, send2, sent2, build);
            Effects(r1.actions) == Effects(r2.actions) && r1.end == r2.end
  {
    if ids != [] {
      var id := ids[0];
      match Transition(d, id, p, c, build)
      case Throw =>
      case Skip =>
        ProcessIgnoresOutcomes(d, ids[1..], p, c, send1, sent1, send2, sent2, build);
      case Emit(stop) =>
        var n1 := if stop then sent1 + 1 else sent1;
        var n2 := if stop then sent2 + 1 else sent2;
        var rest1 := Process(d, ids[1..], p, c, send1, n1, build);
        var rest2 := Process(d, ids[1..], p, c, send2, n2, build);
        var block1 := Emission(d, id, p, stop, send1, sent1);
        var block2 := Emission(d, id, p, stop, send2, sent2);
        assert Effects(block1) == Effects(block2);
        EffectsAppend(block1, rest1.actions);
        EffectsAppend(block2, rest2.actions);
        ProcessIgnoresOutcomes(d, ids[1..], p, c, send1, n1, send2, n2, build);
    }
  }

  /** Where no id of the entry loop is missing from the cache, the null check changes nothing. */
  lemma {:induction false} ProcessNullCheckAgrees(d: Direction, ids: seq<Id>, p: Position, c: Cache,
                                                  send: nat -> SendOutcome, sent: nat)
    requires d == Enter ==> forall x :: x in ids ==> x in c.geofences
    ensures Process(d, ids, p, c, send, sent, AsWritten) == Process(d, ids, p, c, send, sent, NullChecked)
  {
    if ids != [] {
      var first := ids[0];
      assert first in ids;
      assert Transition(d, first, p, c, AsWritten) == Transition(d, first, p, c, NullChecked);
      ProcessNullCheckAgrees(d, ids[1..], p, c, send, sent);
      ProcessNullCheckAgrees(d, ids[1..], p, c, send, sent + 1);
    }
  }
}
