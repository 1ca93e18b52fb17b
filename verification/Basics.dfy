/** Value types and finite-set facts shared by the models. */
module Basics {

  /** SQL NULL, a missing dictionary key or a Python None. */
  datatype Option<+T> = None | Some(value: T) {
    function GetOr(default: T): T {
      if Some? then value else default
    }
  }

  /** An operation that either returns a value or raises before changing anything. */
  datatype Result<+T, +E> = Ok(value: T) | Err(reason: E)

  /** `math.ceil`: the least integer that is not below `x`. */
  function Ceil(x: real): (n: int)
    ensures n as real - 1.0 < x <= n as real
  {
    -((-x).Floor)
  }

  /** `le` orders the elements of `s` in a line. */
  ghost predicate TotalOn<T>(s: set<T>, le: (T, T) -> bool) {
    && (forall x, y :: x in s && y in s ==> le(x, y) || le(y, x))
    && (forall x, y :: x in s && y in s && le(x, y) && le(y, x) ==> x == y)
    && (forall x, y, z :: x in s && y in s && z in s && le(x, y) && le(y, z) ==> le(x, z))
  }

  lemma Below<T>(s: set<T>, le: (T, T) -> bool, x: T, y: T, z: T)
    requires TotalOn(s, le) && x in s && y in s && z in s && le(x, y) && le(y, z)
    ensures le(x, z)
  {
  }

  lemma {:induction false} LeastExists<T>(all: set<T>, s: set<T>, le: (T, T) -> bool)
    requires s != {} && s <= all && TotalOn(all, le)
    ensures exists x :: x in s && forall y :: y in s ==> le(x, y)
    decreases s
  {
    var x :| x in s;
    var rest := s - {x};
    var least := x;
    if rest != {} {
      LeastExists(all, rest, le);
      var m :| m in rest && forall y :: y in rest ==> le(m, y);
      least := if le(x, m) then x else m;
      forall y | y in rest
        ensures le(least, y)
      {
        Below(all, le, least, m, y);
      }
    }
    forall y | y in s
      ensures le(least, y)
    {
      assert y == x || y in rest;
    }
  }

  /** The first row of an ordered query: `ORDER BY ... LIMIT 1`. */
  function First<T(==)>(s: set<T>, le: (T, T) -> bool): (r: Option<T>)
    requires TotalOn(s, le)
    ensures r.None? <==> s == {}
    ensures r.Some? ==> r.value in s && forall y :: y in s ==> le(r.value, y)
  {
    if s == {} then None
    else
      LeastExists(s, s, le);
      var x :| x in s && forall y :: y in s ==> le(x, y);
      Some(x)
  }

  lemma SubsetSize<T>(a: set<T>, b: set<T>)
    requires a <= b
    ensures |a| <= |b|
  {
    assert b == a + (b - a);
  }
}
