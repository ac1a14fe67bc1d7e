/**
 * The membership diff between the last and the current position: list
 * filtering with the semantics of `ArrayList.removeAll`, so order and
 * duplicates of the kept elements survive.
 */
module Membership {
  import opened Wrappers
  import opened GeofenceModel

  /** `xs` with every element that occurs in `ys` removed (`xs.removeAll(ys)`). */
  function Without(xs: seq<Id>, ys: seq<Id>): (r: seq<Id>)
    ensures |r| <= |xs|
    ensures forall x :: x in r <==> x in xs && x !in ys
  {
    if xs == [] then []
    else
      var rest := Without(xs[1..], ys);
      if xs[0] in ys then rest else [xs[0]] + rest
  }

  /** Each kept element keeps its multiplicity, so duplicates survive the filter. */
  lemma {:induction false} WithoutCount(xs: seq<Id>, ys: seq<Id>, x: Id)
    ensures multiset(Without(xs, ys))[x] == if x in ys then 0 else multiset(xs)[x]
  {
    if xs != [] {
      assert xs == [xs[0]] + xs[1..];
      WithoutCount(xs[1..], ys, x);
    }
  }

  /** Filtering distributes over concatenation: the kept elements stay in list order. */
  lemma {:induction false} WithoutAppend(a: seq<Id>, b: seq<Id>, ys: seq<Id>)
    ensures Without(a + b, ys) == Without(a, ys) + Without(b, ys)
  {
    if a == [] {
      assert a + b == b;
    } else {
      assert (a + b)[0] == a[0] && (a + b)[1..] == a[1..] + b;
      WithoutAppend(a[1..], b, ys);
    }
  }

  /** Nothing is removed from a list none of whose elements is in `ys`. */
  lemma {:induction false} WithoutDisjoint(xs: seq<Id>, ys: seq<Id>)
    requires forall x :: x in xs ==> x !in ys
    ensures Without(xs, ys) == xs
  {
    if xs != [] {
      var first := xs[0];
      assert first in xs;
      WithoutDisjoint(xs[1..], ys);
      assert Without(xs, ys) == [xs[0]] + Without(xs[1..], ys);
      assert xs == [xs[0]] + xs[1..];
    }
  }

  /** The exited and the entered geofence ids of one position. */
  datatype Diff = Diff(exited: seq<Id>, entered: seq<Id>)

  /**
   * The diff of `analyzePosition`: when the current list is null nothing is
   * entered and the last list is kept whole; otherwise each side is the one
   * list filtered by the other.
   */
  function MembershipDiff(last: seq<Id>, current: Option<seq<Id>>): (r: Diff)
    ensures current.None? ==> r == Diff(last, [])
    ensures forall x :: x in r.exited <==> x in last && !(current.Some? && x in current.value)
    ensures forall x :: x in r.entered <==> current.Some? && x in current.value && x !in last
    ensures forall x :: !(x in r.exited && x in r.entered)
  {
    match current
    case None => Diff(last, [])
    case Some(cur) => Diff(Without(last, cur), Without(cur, last))
  }

  /** No current list counts as an empty one: everything old is exited. */
  lemma NoCurrentListIsEmptyList(last: seq<Id>)
    ensures MembershipDiff(last, None) == MembershipDiff(last, Some([]))
  {
    WithoutDisjoint(last, []);
  }

  /**
   * With a current list, every id of either list is exactly one of exited,
   * entered, or kept (in both lists).
   */
  lemma DiffPartitionsUnion(last: seq<Id>, cur: seq<Id>, x: Id)
    requires x in last || x in cur
    ensures var d := MembershipDiff(last, Some(cur));
      if x in last && x in cur then x !in d.exited && x !in d.entered
      else if x in last then x in d.exited && x !in d.entered
      else x in d.entered && x !in d.exited
  {
  }

  /** Everything is removed from a list all of whose elements are in `ys`. */
  lemma {:induction false} WithoutSubsumed(xs: seq<Id>, ys: seq<Id>)
    requires forall x :: x in xs ==> x in ys
    ensures Without(xs, ys) == []
  {
    if xs != [] {
      var first := xs[0];
      assert first in xs;
      WithoutSubsumed(xs[1..], ys);
    }
  }

  /** Two lists with the same members produce an empty diff. */
  lemma SameMembersNoDiff(last: seq<Id>, cur: seq<Id>)
    requires forall x :: x in last <==> x in cur
    ensures MembershipDiff(last, Some(cur)) == Diff([], [])
  {
    WithoutSubsumed(last, cur);
    WithoutSubsumed(cur, last);
  }

  /**
   * `ArrayList.removeAll`: keeps, in order, the elements of `list` that do
   * not occur in `remove`.
   */
  method RemoveAll(list: seq<Id>, remove: seq<Id>) returns (kept: seq<Id>)
    ensures kept == Without(list, remove)
  {
    kept := [];
    var i := 0;
    while i < |list|
      invariant 0 <= i <= |list|
      invariant kept + Without(list[i..], remove) == Without(list, remove)
    {
      assert list[i..][0] == list[i] && list[i..][1..] == list[i + 1..];
      if list[i] !in remove {
        kept := kept + [list[i]];
      }
      i := i + 1;
    }
  }
}
