/** Values shared by every module: optional values, results, clock readings, and minima of finite sets. */
module Basics {
  datatype Option<+T> = None | Some(value: T)

  datatype Result<+T, +E> = Ok(value: T) | Err(error: E)

  /** A clock reading: nanoseconds since Go's zero `time.Time`. */
  type Time = int

  const ZERO_TIME: Time := 0
  const MINUTE: Time := 60_000_000_000
  const HOUR: Time := 60 * MINUTE

  lemma SomeMember<T>(s: set<T>) returns (x: T)
    requires s != {}
    ensures x in s
  {
    x :| x in s;
  }

  predicate IsMinimum(m: int, s: set<int>) {
    m in s && forall k :: k in s ==> m <= k
  }

  lemma {:induction false} MinimumExists(s: set<int>) returns (m: int)
    requires s != {}
    ensures IsMinimum(m, s)
    decreases |s|
  {
    m := SomeMember(s);
    var rest := s - {m};
    if rest != {} {
      var least := MinimumExists(rest);
      assert forall k :: k in s ==> k == m || k in rest;
      m := if m <= least then m else least;
    } else {
      assert s == {m};
    }
  }

  /** The smallest member: `MIN(id)`, or the first row in primary-key order. */
  function Minimum(s: set<int>): (m: int)
    requires s != {}
    ensures IsMinimum(m, s)
  {
    assert exists m :: IsMinimum(m, s) by {
      var m := MinimumExists(s);
    }
    var m :| IsMinimum(m, s);
    m
  }

  lemma {:induction false} SubsetSize<T>(small: set<T>, big: set<T>)
    requires small <= big
    ensures |small| <= |big|
    decreases |small|
  {
    if small != {} {
      var x :| x in small;
      SubsetSize(small - {x}, big - {x});
    }
  }

  lemma SubsetOfSameSize<T>(small: set<T>, big: set<T>)
    requires small <= big && |small| == |big|
    ensures small == big
  {
    if x :| x in big && x !in small {
      SubsetSize(small, big - {x});
    }
  }
}
