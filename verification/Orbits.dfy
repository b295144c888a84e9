/**
 Following a step from a point, again and again, and when that comes to an end: what decides
 whether a reading that goes from cursor to cursor ever returns.
 */
module Orbits {
  import opened Prelude

  /** Where k steps from x lead, if the step goes on that long. */
  function After<X>(step: X -> Option<X>, x: X, k: nat): Option<X> {
    if k == 0 then Some(x)
    else
      match After(step, x, k - 1)
      case None => None
      case Some(y) => step(y)
  }

  ghost predicate Meets<X>(step: X -> Option<X>, x: X, i: nat, j: nat) {
    After(step, x, i).Some? && After(step, x, i) == After(step, x, j)
  }

  ghost predicate Recurs<X(!new)>(step: X -> Option<X>, x: X) {
    exists i: nat, j: nat :: i < j && Meets(step, x, i, j)
  }

  /** Every step from a point of the set stays in it. */
  ghost predicate Closed<X(!new)>(step: X -> Option<X>, points: set<X>) {
    forall x :: x in points && step(x).Some? ==> step(x).value in points
  }

  lemma {:induction false} AfterSum<X>(step: X -> Option<X>, x: X, i: nat, k: nat)
    requires After(step, x, i).Some?
    ensures After(step, x, i + k) == After(step, After(step, x, i).value, k)
  {
    if k > 0 {
      AfterSum(step, x, i, k - 1);
    }
  }

  lemma {:induction false} SomeBefore<X>(step: X -> Option<X>, x: X, i: nat, k: nat)
    requires i <= k && After(step, x, k).Some?
    ensures After(step, x, i).Some?
  {
    if i < k {
      SomeBefore(step, x, i, k - 1);
    }
  }

  lemma {:induction false} StaysIn<X(!new)>(step: X -> Option<X>, points: set<X>, x: X, k: nat)
    requires Closed(step, points) && x in points && After(step, x, k).Some?
    ensures After(step, x, k).value in points
  {
    if k > 0 {
      StaysIn(step, points, x, k - 1);
    }
  }

  /** More entries than there are points to choose from: two of them are the same. */
  lemma {:induction false} Pigeonhole<X>(s: seq<X>, points: set<X>) returns (i: nat, j: nat)
    requires |s| > |points| && forall k :: 0 <= k < |s| ==> s[k] in points
    ensures i < j < |s| && s[i] == s[j]
  {
    j := |s| - 1;
    if k :| 0 <= k < j && s[k] == s[j] {
      i := k;
    } else {
      i, j := Pigeonhole(s[..j], points - {s[j]});
    }
  }

  /** Once around, and it goes on for ever. */
  lemma {:induction false} RecurringGoesOn<X>(step: X -> Option<X>, x: X, i: nat, j: nat, k: nat)
    requires i < j && Meets(step, x, i, j)
    ensures After(step, x, k).Some?
  {
    if k <= j {
      SomeBefore(step, x, k, j);
    } else {
      AfterSum(step, x, i, k - j);
      AfterSum(step, x, j, k - j);
      RecurringGoesOn(step, x, i, j, i + (k - j));
    }
  }

  ghost predicate Ends<X>(step: X -> Option<X>, x: X) {
    exists k: nat :: After(step, x, k).None?
  }

  /**
   A way through finitely many points comes to an end exactly when it never meets a point twice,
   and then within as many steps as there are points.
   */
  lemma EndsExactly<X(!new)>(step: X -> Option<X>, points: set<X>, x: X)
    requires Closed(step, points) && x in points
    ensures Ends(step, x) <==> !Recurs(step, x)
    ensures Ends(step, x) ==> After(step, x, |points|).None?
  {
    if Recurs(step, x) {
      var i: nat, j: nat :| i < j && Meets(step, x, i, j);
      forall k: nat
        ensures After(step, x, k).Some?
      {
        RecurringGoesOn(step, x, i, j, k);
      }
    } else if After(step, x, |points|).Some? {
      forall k: nat | k <= |points|
        ensures After(step, x, k).Some? && After(step, x, k).value in points
      {
        SomeBefore(step, x, k, |points|);
        StaysIn(step, points, x, k);
      }
      var i, j := Pigeonhole(seq(|points| + 1, k requires 0 <= k <= |points| => After(step, x, k).value), points);
      assert Meets(step, x, i, j);
    }
  }

  // A guard that looks one step back.

  /** guarded stops where the step would stay in place, except at the exempt point. */
  ghost predicate IsGuarded<X(!new)>(step: X -> Option<X>, guarded: X -> Option<X>, exempt: Option<X>) {
    forall x :: guarded(x) == if step(x) == Some(x) && Some(x) != exempt then None else step(x)
  }

  ghost predicate Slips<X>(step: X -> Option<X>, x: X, i: nat, exempt: Option<X>) {
    After(step, x, i + 1) != After(step, x, i) || After(step, x, i) == exempt
  }

  /** A point is met again which is not one that the guard stops at. */
  ghost predicate Circles<X(!new)>(step: X -> Option<X>, x: X, exempt: Option<X>) {
    exists i: nat, j: nat :: i < j && Meets(step, x, i, j) && Slips(step, x, i, exempt)
  }

  /** As long as the guard has not stopped, it made no difference. */
  lemma {:induction false} GuardedSoFar<X(!new)>(step: X -> Option<X>, guarded: X -> Option<X>, exempt: Option<X>,
                                                 x: X, k: nat)
    requires IsGuarded(step, guarded, exempt) && After(guarded, x, k).Some?
    ensures After(step, x, k) == After(guarded, x, k)
  {
    if k > 0 {
      GuardedSoFar(step, guarded, exempt, x, k - 1);
    }
  }

  lemma {:induction false} StaysPut<X>(step: X -> Option<X>, x: X, i: nat, k: nat)
    requires i <= k && After(step, x, i).Some? && After(step, x, i + 1) == After(step, x, i)
    ensures After(step, x, k) == After(step, x, i)
  {
    if i < k {
      StaysPut(step, x, i, k - 1);
    }
  }

  /** A way that comes to rest meets twice only the point where it rests. */
  lemma RestsThere<X>(step: X -> Option<X>, x: X, m: nat, i: nat, j: nat)
    requires m < j && i < j && Meets(step, x, i, j)
    requires After(step, x, m).Some? && After(step, x, m + 1) == After(step, x, m)
    ensures After(step, x, i) == After(step, x, m) && After(step, x, i + 1) == After(step, x, i)
  {
    StaysPut(step, x, m, j);
    if m <= i {
      StaysPut(step, x, m, i);
      StaysPut(step, x, m, i + 1);
    }
  }

  /** Up to the second time at a point that slips past it, the guard does not stop. */
  lemma {:induction false} NotStopped<X(!new)>(step: X -> Option<X>, guarded: X -> Option<X>, exempt: Option<X>,
                                               x: X, i: nat, j: nat, k: nat)
    requires IsGuarded(step, guarded, exempt) && i < j && Meets(step, x, i, j) && Slips(step, x, i, exempt)
    requires k <= j
    ensures After(guarded, x, k) == After(step, x, k) && After(step, x, k).Some?
  {
    SomeBefore(step, x, k, j);
    if k > 0 {
      NotStopped(step, guarded, exempt, x, i, j, k - 1);
      var y := After(step, x, k - 1).value;
      if step(y) == Some(y) && Some(y) != exempt {
        RestsThere(step, x, k - 1, i, j);
        assert false;
      }
    }
  }

  /** What the guard misses: exactly the circles of two points or more, and the exempt point. */
  lemma GuardMisses<X(!new)>(step: X -> Option<X>, guarded: X -> Option<X>, exempt: Option<X>, x: X)
    requires IsGuarded(step, guarded, exempt)
    ensures Recurs(guarded, x) <==> Circles(step, x, exempt)
  {
    if Recurs(guarded, x) {
      var i: nat, j: nat :| i < j && Meets(guarded, x, i, j);
      SomeBefore(guarded, x, i + 1, j);
      GuardedSoFar(step, guarded, exempt, x, i);
      GuardedSoFar(step, guarded, exempt, x, i + 1);
      GuardedSoFar(step, guarded, exempt, x, j);
      assert Meets(step, x, i, j) && Slips(step, x, i, exempt);
    }
    if Circles(step, x, exempt) {
      var i: nat, j: nat :| i < j && Meets(step, x, i, j) && Slips(step, x, i, exempt);
      NotStopped(step, guarded, exempt, x, i, j, i);
      NotStopped(step, guarded, exempt, x, i, j, j);
      assert Meets(guarded, x, i, j);
    }
  }
}
