/** Concatenations, and parts of a sequence at a position. */
module Sequences {

  lemma Regroup<T>(a: seq<T>, b: seq<T>, c: seq<T>)
    ensures a + b + c == a + (b + c)
  {
  }

  // ---- selecting ----

  function Filter<T>(s: seq<T>, keep: T -> bool): seq<T> {
    if s == [] then []
    else
      var before, last := Filter(s[..|s| - 1], keep), s[|s| - 1];
      if keep(last) then before + [last] else before
  }

  /** Position k is the only one that is kept. */
  predicate Only<T>(s: seq<T>, keep: T -> bool, k: int) {
    0 <= k < |s| && keep(s[k]) && forall j :: 0 <= j < |s| && keep(s[j]) ==> j == k
  }

  lemma {:induction false} FilterNone<T>(s: seq<T>, keep: T -> bool)
    ensures Filter(s, keep) == [] <==> forall j :: 0 <= j < |s| ==> !keep(s[j])
  {
    if s != [] {
      var front := s[..|s| - 1];
      FilterNone(front, keep);
      assert forall j :: 0 <= j < |front| ==> front[j] == s[j];
    }
  }

  lemma {:induction false} FilterOne<T>(s: seq<T>, keep: T -> bool, x: T)
    ensures Filter(s, keep) == [x] <==> exists k :: Only(s, keep, k) && s[k] == x
  {
    if s != [] {
      var n, front := |s| - 1, s[..|s| - 1];
      assert forall j :: 0 <= j < n ==> front[j] == s[j];
      if keep(s[n]) {
        FilterNone(front, keep);
        if Filter(s, keep) == [x] {
          assert |Filter(front, keep)| == 0 && Filter(s, keep)[0] == s[n];
          assert Only(s, keep, n) && s[n] == x;
        }
        if k :| Only(s, keep, k) && s[k] == x {
          assert k == n;
          assert forall j :: 0 <= j < n ==> !keep(front[j]);
          assert Filter(s, keep) == [] + [x];
        }
      } else {
        FilterOne(front, keep, x);
        if k :| Only(front, keep, k) && front[k] == x { assert Only(s, keep, k); }
        if k :| Only(s, keep, k) && s[k] == x { assert Only(front, keep, k); }
      }
    }
  }

  lemma Single<T>(s: seq<T>)
    requires |s| == 1
    ensures s == [s[0]]
  {
  }

  // ---- placing ----

  /** The part stands in s from a position on. */
  predicate At<T(==)>(s: seq<T>, at: nat, part: seq<T>) { at + |part| <= |s| && s[at..at + |part|] == part }

  lemma AtInFront<T>(s: seq<T>, at: nat, part: seq<T>, rest: seq<T>)
    requires At(s, at, part)
    ensures At(s + rest, at, part)
  {
    assert (s + rest)[at..at + |part|] == s[at..at + |part|];
  }

  lemma AtBehind<T>(s: seq<T>, at: nat, part: seq<T>, front: seq<T>)
    requires At(s, at, part)
    ensures At(front + s, |front| + at, part)
  {
    assert (front + s)[|front| + at..|front| + at + |part|] == s[at..at + |part|];
  }
}
