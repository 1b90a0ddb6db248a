/** Ascending enumeration of a finite set of integers, the `sorted(...)`
    the table reader applies to row and column indices. */
module Sorting {
  /** The smallest element of a non-empty set of row or column indices. */
  function Min(s: set<int>): (m: int)
    requires s != {}
    ensures m in s && forall x | x in s :: m <= x
  {
    MinExists(s);
    var m :| m in s && forall x | x in s :: m <= x;
    m
  }

  /** Some element of a non-empty set. */
  lemma Pick<T>(s: set<T>) returns (y: T)
    requires s != {}
    ensures y in s
  {
    y :| y in s;
  }

  /** A set that loses every element when y is removed holds only y. */
  lemma OnlyElement<T>(s: set<T>, y: T)
    requires s - {y} == {}
    ensures forall x | x in s :: x == y
  {
    forall x | x in s
      ensures x == y
    {
      assert x in s - {y} <==> x != y;
    }
  }

  lemma MinExists(s: set<int>)
    requires s != {}
    ensures exists m :: m in s && forall x | x in s :: m <= x
  {
    var m := Least(s);
  }

  /** The least element, found by removing an arbitrary one and comparing
      it with the least of the rest. */
  lemma {:induction false} Least(s: set<int>) returns (m: int)
    requires s != {}
    ensures m in s && forall x | x in s :: m <= x
    decreases |s|
  {
    var y := Pick(s);
    var rest := s - {y};
    if rest == {} {
      OnlyElement(s, y);
      m := y;
    } else {
      var n := Least(rest);
      m := if y < n then y else n;
      forall x | x in s
        ensures m <= x
      {
        if x != y {
          assert x in rest;
        }
      }
    }
  }

  /** sorted(keys): the indices in ascending order. */
  function SortedKeys(s: set<int>): (ks: seq<int>)
    ensures |ks| == |s|
    ensures forall x :: x in ks <==> x in s
    decreases |s|
  {
    if s == {} then []
    else
      var m := Min(s);
      [m] + SortedKeys(s - {m})
  }

  /** Each index appears once, in strictly ascending order. */
  lemma {:induction false} SortedKeysAscending(s: set<int>)
    ensures forall i, j | 0 <= i < j < |SortedKeys(s)| :: SortedKeys(s)[i] < SortedKeys(s)[j]
    decreases |s|
  {
    if s != {} {
      var m := Min(s);
      var ks, rest := SortedKeys(s), SortedKeys(s - {m});
      SortedKeysAscending(s - {m});
      assert ks == [m] + rest;
      forall i, j | 0 <= i < j < |ks|
        ensures ks[i] < ks[j]
      {
        assert ks[j] == rest[j - 1];
        if i == 0 {
          assert rest[j - 1] in s - {m};
        } else {
          assert ks[i] == rest[i - 1];
        }
      }
    }
  }
}
