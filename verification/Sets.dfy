/** Facts about finite sets. */
module Sets {

  lemma Inhabited(s: set<int>)
    ensures s == {} || exists x :: x in s
  {
    if forall x :: x !in s { assert s == {}; }
  }

  lemma Smaller<T>(a: set<T>, b: set<T>)
    requires a <= b
    ensures |a| <= |b|
  {
    assert b == a + (b - a);
  }

  lemma Above(s: set<int>) returns (m: int)
    ensures m > 0 && forall x :: x in s ==> x < m
  {
    Inhabited(s);
    if s == {} {
      m := 1;
    } else {
      var x :| x in s;
      m := Above(s - {x});
      m := if x < m then m else x + 1;
      assert forall y :: y in s ==> y == x || y in s - {x};
    }
  }
}
