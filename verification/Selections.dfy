/** What a filter keeps: the elements that pass, each as often as it occurs and in the order of the whole. */
module Selections {

  /** `at` lists, ascending, the positions of the elements that pass; `kept` holds the elements there. */
  ghost predicate Picks<T(!new)>(from: seq<T>, kept: seq<T>, at: seq<nat>, passes: T -> bool) {
    && |at| == |kept|
    && (forall i, j :: 0 <= i < j < |at| ==> at[i] < at[j])
    && (forall i :: 0 <= i < |at| ==> at[i] < |from| && kept[i] == from[at[i]])
    && (forall k :: 0 <= k < |from| ==> (passes(from[k]) <==> k in at))
  }

  ghost predicate Selects<T(!new)>(from: seq<T>, kept: seq<T>, passes: T -> bool) {
    exists at :: Picks(from, kept, at, passes)
  }

  lemma SelectsNothing<T(!new)>(passes: T -> bool)
    ensures Selects([], [], passes)
  {
    assert Picks([], [], [], passes);
  }

  lemma PositionInside<T(!new)>(from: seq<T>, kept: seq<T>, at: seq<nat>, passes: T -> bool, k: nat)
    requires Picks(from, kept, at, passes)
    ensures k in at <==> k < |from| && passes(from[k])
  {
  }

  lemma PicksTaken<T(!new)>(from: seq<T>, kept: seq<T>, at: seq<nat>, passes: T -> bool, last: T)
    requires Picks(from, kept, at, passes) && passes(last)
    ensures Picks(from + [last], kept + [last], at + [|from|], passes)
  {
    var n: nat := |from|;
    var more := at + [n];
    forall k: nat | k <= n ensures passes((from + [last])[k]) <==> k in more {
      PositionInside(from, kept, at, passes, k);
      assert k in more <==> k in at || k == n by { assert more[|at|] == n; }
    }
  }

  lemma PicksSkipped<T(!new)>(from: seq<T>, kept: seq<T>, at: seq<nat>, passes: T -> bool, last: T)
    requires Picks(from, kept, at, passes) && !passes(last)
    ensures Picks(from + [last], kept, at, passes)
  {
    forall k: nat | k <= |from| ensures passes((from + [last])[k]) <==> k in at {
      PositionInside(from, kept, at, passes, k);
    }
  }

  lemma SelectsSnoc<T(!new)>(from: seq<T>, kept: seq<T>, passes: T -> bool, last: T)
    requires Selects(from, kept, passes)
    ensures Selects(from + [last], if passes(last) then kept + [last] else kept, passes)
  {
    hide Picks;
    var at :| Picks(from, kept, at, passes);
    if passes(last) {
      PicksTaken(from, kept, at, passes, last);
    } else {
      PicksSkipped(from, kept, at, passes, last);
    }
  }

  lemma SelectedExactly<T(!new)>(from: seq<T>, kept: seq<T>, passes: T -> bool, x: T)
    requires Selects(from, kept, passes)
    ensures x in kept <==> x in from && passes(x)
  {
    var at :| Picks(from, kept, at, passes);
    if i :| 0 <= i < |kept| && kept[i] == x {
      assert at[i] in at && from[at[i]] == x;
    }
    if x in from && passes(x) {
      var k :| 0 <= k < |from| && from[k] == x;
      var i :| 0 <= i < |at| && at[i] == k;
      assert kept[i] == x;
    }
  }

  lemma {:induction false} PositionsUnique(a: seq<nat>, b: seq<nat>)
    requires forall i, j :: 0 <= i < j < |a| ==> a[i] < a[j]
    requires forall i, j :: 0 <= i < j < |b| ==> b[i] < b[j]
    requires forall k :: k in a <==> k in b
    ensures a == b
  {
    assert b != [] ==> b[0] in a;
    if a == [] {
    } else {
      assert a[0] in b && a[0] == b[0];
      forall k ensures k in a[1..] <==> k in b[1..] {
        assert k in a <==> k == a[0] || k in a[1..];
        assert k in b <==> k == b[0] || k in b[1..];
      }
      PositionsUnique(a[1..], b[1..]);
      assert a == [a[0]] + a[1..] && b == [b[0]] + b[1..];
    }
  }

  /** The description leaves one selection. */
  lemma SelectionIsDetermined<T(!new)>(from: seq<T>, a: seq<T>, b: seq<T>, passes: T -> bool)
    requires Selects(from, a, passes) && Selects(from, b, passes)
    ensures a == b
  {
    var p :| Picks(from, a, p, passes);
    var q :| Picks(from, b, q, passes);
    forall k ensures k in p <==> k in q {
      PositionInside(from, a, p, passes, k);
      PositionInside(from, b, q, passes, k);
    }
    PositionsUnique(p, q);
  }
}
