/** Handles stand for the `shared_ptr` values the pool stores. A `std::set` of them is a set
    with a total order, and `begin()` of such a set is its least element. Nothing ties the
    order of two handles to the order in which their objects were made. */
module Handles {
  type Handle = nat

  datatype Option<+T> = None | Some(value: T)

  lemma {:induction false} FindLeast(s: set<Handle>) returns (h: Handle)
    requires s != {}
    ensures h in s && forall x | x in s :: h <= x
  {
    h :| h in s;
    var rest := s - {h};
    assert forall x | x in s :: x == h || x in rest;
    if rest != {} {
      var r := FindLeast(rest);
      h := if h < r then h else r;
    }
  }

  lemma LeastExists(s: set<Handle>)
    requires s != {}
    ensures exists h :: h in s && forall x | x in s :: h <= x
  {
    var h := FindLeast(s);
  }

  /** `begin()` of a non-empty ordered set. */
  function Least(s: set<Handle>): (h: Handle)
    requires s != {}
    ensures h in s && forall x | x in s :: h <= x
  {
    LeastExists(s);
    var h :| h in s && forall x | x in s :: h <= x;
    h
  }

  lemma {:induction false} BoundExists(s: set<Handle>) returns (h: Handle)
    ensures forall x | x in s :: x < h
  {
    if s == {} {
      h := 0;
    } else {
      var x :| x in s;
      var b := BoundExists(s - {x});
      h := if x < b then b else x + 1;
      forall y | y in s ensures y < h {
        assert y == x || y in s - {x};
      }
    }
  }

  lemma FreshExists(s: set<Handle>)
    ensures exists h: Handle :: h !in s
  {
    var h := BoundExists(s);
    assert h !in s;
  }

  /** Some handle outside a finite set: the factory can always answer. */
  ghost function Fresh(s: set<Handle>): (h: Handle)
    ensures h !in s
  {
    FreshExists(s);
    var h: Handle :| h !in s;
    h
  }

  lemma {:induction false} SubsetSize<T>(a: set<T>, b: set<T>)
    requires a <= b
    ensures |a| <= |b|
    ensures |a| == |b| ==> a == b
  {
    assert |b| == |a| + |b - a|;
  }

  /** `w` is closed downwards inside `s`. */
  ghost predicate DownClosed(w: set<Handle>, s: set<Handle>) {
    forall x, y | x in s && y in s && x < y && y in w :: x in w
  }

  /** The `p` smallest members of `s`. */
  function Smallest(s: set<Handle>, p: nat): (w: set<Handle>)
    requires p <= |s|
    ensures w <= s && |w| == p && DownClosed(w, s)
    decreases p
  {
    if p == 0 then {}
    else
      var h := Least(s);
      {h} + Smallest(s - {h}, p - 1)
  }

  /** A downward-closed part of `s` is fixed by its size. */
  lemma DownClosedIsSmallest(w: set<Handle>, s: set<Handle>)
    requires w <= s && DownClosed(w, s)
    ensures |w| <= |s|
    ensures w == Smallest(s, |w|)
  {
    SubsetSize(w, s);
    var v := Smallest(s, |w|);
    // Of two downward-closed parts, one contains the other.
    if v <= w {
      SubsetSize(v, w);
    } else {
      SubsetSize(w, v);
    }
  }
}
