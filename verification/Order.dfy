/** Python's `sorted` on a set of integers. */
module Order {

  predicate IsSmallest(m: int, s: set<int>) { m in s && forall y | y in s :: m <= y }

  lemma Inhabited(s: set<int>)
    ensures s == {} || exists x :: x in s
  {
    if forall x :: x !in s {
      assert s == {};
    }
  }

  lemma {:induction false} FindSmallest(s: set<int>) returns (m: int)
    requires s != {}
    ensures IsSmallest(m, s)
  {
    Inhabited(s);
    m :| m in s;
    var rest := s - {m};
    assert forall y | y in s :: y == m || y in rest;
    if rest != {} {
      var k := FindSmallest(rest);
      m := if m < k then m else k;
    }
  }

  function Smallest(s: set<int>): (m: int)
    requires s != {}
    ensures IsSmallest(m, s)
  {
    assert exists m :: IsSmallest(m, s) by {
      var m := FindSmallest(s);
    }
    var m :| IsSmallest(m, s);
    m
  }

  predicate Ascending(a: seq<int>) {
    forall i, j | 0 <= i < j < |a| :: a[i] < a[j]
  }

  lemma AscendingCons(m: int, rest: seq<int>)
    requires Ascending(rest) && forall x | x in rest :: m < x
    ensures Ascending([m] + rest)
  {
    forall i, j | 0 <= i < j < |[m] + rest|
      ensures ([m] + rest)[i] < ([m] + rest)[j]
    {
      assert rest[j - 1] in rest;
    }
  }

  function Sorted(s: set<int>): (a: seq<int>)
    ensures forall x :: x in a <==> x in s
    ensures Ascending(a)
    ensures |a| == |s|
  {
    if s == {} then []
    else
      var m := Smallest(s);
      var rest := Sorted(s - {m});
      AscendingCons(m, rest);
      [m] + rest
  }
}
