/** Value types shared by the models. */
module Base {

  datatype Option<+T> = None | Some(value: T)

  /** `Math.trunc`. */
  function Trunc(r: real): int {
    if r >= 0.0 then r.Floor else -((-r).Floor)
  }

  /** Truncation goes towards zero. */
  lemma TruncTowardsZero(r: real)
    ensures r >= 0.0 ==> 0 <= Trunc(r) && Trunc(r) as real <= r < Trunc(r) as real + 1.0
    ensures r <= 0.0 ==> Trunc(r) <= 0 && Trunc(r) as real - 1.0 < r <= Trunc(r) as real
  {
  }

  ghost predicate Distinct<T>(s: seq<T>) {
    forall i, j | 0 <= i < j < |s| :: s[i] != s[j]
  }

  function Elements<T>(s: seq<T>): set<T> {
    set x | x in s
  }

  /** Appending a new element keeps a sequence duplicate-free. */
  lemma DistinctSnoc<T>(s: seq<T>, x: T)
    requires Distinct(s) && x !in s
    ensures Distinct(s + [x])
    ensures Elements(s + [x]) == Elements(s) + {x}
  {
  }

  lemma {:induction false} MinimumExists(s: set<int>)
    requires s != {}
    ensures exists m :: m in s && forall x | x in s :: m <= x
  {
    if forall x :: x !in s {
      assert false;
    }
    var x :| x in s;
    if s != {x} {
      assert s - {x} != {};
      MinimumExists(s - {x});
      var m :| m in s - {x} && forall y | y in s - {x} :: m <= y;
      var least := if m < x then m else x;
      assert least in s && forall y | y in s :: least <= y by {
        assert forall y | y in s :: y == x || y in s - {x};
      }
    } else {
      assert x in s && forall y | y in s :: x <= y;
    }
  }

  function Minimum(s: set<int>): (m: int)
    requires s != {}
    ensures m in s && forall x | x in s :: m <= x
  {
    MinimumExists(s);
    var m :| m in s && forall x | x in s :: m <= x;
    m
  }

  /** `Array.from(s).toSorted((a, b) => a - b)`. */
  function Sorted(s: set<int>): (r: seq<int>)
    ensures Elements(r) == s
    ensures forall i, j | 0 <= i < j < |r| :: r[i] < r[j]
    decreases |s|
  {
    if s == {} then []
    else
      var m := Minimum(s);
      var rest := Sorted(s - {m});
      assert forall x :: x in rest <==> x in Elements(rest);
      assert forall x :: x in [m] + rest <==> x == m || x in rest;
      [m] + rest
  }
}
