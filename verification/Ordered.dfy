// Least and greatest elements of a finite set of integers, and its elements in order:
// what an ordered map's first key, last key and iteration order are.
module Ordered {

  lemma Any<T>(s: set<T>) returns (x: T)
    requires s != {}
    ensures x in s
  {
    x :| x in s;
  }

  lemma HasSmallest(s: set<int>) returns (m: int)
    requires s != {}
    ensures m in s && forall x <- s :: m <= x
  {
    var y := Any(s);
    var rest := s - {y};
    assert forall x <- s :: x == y || x in rest;
    m := y;
    if rest != {} {
      var least := HasSmallest(rest);
      m := if y < least then y else least;
    }
  }

  lemma HasLargest(s: set<int>) returns (m: int)
    requires s != {}
    ensures m in s && forall x <- s :: x <= m
  {
    var y := Any(s);
    var rest := s - {y};
    assert forall x <- s :: x == y || x in rest;
    m := y;
    if rest != {} {
      var largest := HasLargest(rest);
      m := if y < largest then largest else y;
    }
  }

  function Smallest(s: set<int>): (m: int)
    requires s != {}
    ensures m in s && forall x <- s :: m <= x
  {
    assert exists m :: m in s && forall x <- s :: m <= x by {
      var m := HasSmallest(s);
    }
    var m :| m in s && forall x <- s :: m <= x;
    m
  }

  function Largest(s: set<int>): (m: int)
    requires s != {}
    ensures m in s && forall x <- s :: x <= m
  {
    assert exists m :: m in s && forall x <- s :: x <= m by {
      var m := HasLargest(s);
    }
    var m :| m in s && forall x <- s :: x <= m;
    m
  }

  function Ascending(s: set<int>): (xs: seq<int>)
    ensures forall x :: x in xs <==> x in s
  {
    if s == {} then [] else var m := Smallest(s); [m] + Ascending(s - {m})
  }
}
