/** Maps keyed by numbers are walked in ascending order of their keys. */
module KeyOrder {

  lemma {:induction false} SomeLeast(s: set<nat>) returns (m: nat)
    requires s != {}
    ensures m in s && forall x :: x in s ==> m <= x
  {
    m :| m in s;
    if s == {m} {
      assert forall x :: x in s ==> x == m;
    } else {
      var k := SomeLeast(s - {m});
      assert forall x :: x in s ==> x == m || x in s - {m};
      if k < m { m := k; }
    }
  }

  function Least(s: set<nat>): (m: nat)
    requires s != {}
    ensures m in s && forall x :: x in s ==> m <= x
  {
    assert exists m :: m in s && forall x :: x in s ==> m <= x by { var m := SomeLeast(s); }
    var m :| m in s && forall x :: x in s ==> m <= x;
    m
  }

  function Ascending(s: set<nat>): seq<nat> {
    if s == {} then [] else [Least(s)] + Ascending(s - {Least(s)})
  }

  /** Every key once, in order. */
  lemma {:induction false} AscendingIs(s: set<nat>)
    ensures forall x :: x in Ascending(s) <==> x in s
    ensures forall i, j :: 0 <= i < j < |Ascending(s)| ==> Ascending(s)[i] < Ascending(s)[j]
  {
    if s == {} {
    } else {
      var m := Least(s);
      var rest := Ascending(s - {m});
      AscendingIs(s - {m});
      forall i | 0 <= i < |rest| ensures m < rest[i] {
        assert rest[i] in s - {m};
      }
    }
  }
}
