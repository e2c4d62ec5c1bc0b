/** Walking a finite set of integers in increasing order. */
module Orders {

  /** The elements of a set in increasing order, as std::set iterates them. */
  ghost function Ascending(a: set<int>): (r: seq<int>)
    ensures forall x :: x in r <==> x in a
    ensures forall j, k | 0 <= j < k < |r| :: r[j] < r[k]
  {
    if a == {} then []
    else
      var m := Least(a);
      var rest := Ascending(a - {m});
      [m] + rest
  }

  ghost function Least(a: set<int>): (m: int)
    requires a != {}
    ensures m in a && forall x | x in a :: m <= x
  {
    LeastExists(a);
    var m :| m in a && forall x | x in a :: m <= x;
    m
  }

  lemma {:induction false} LeastExists(a: set<int>)
    requires a != {}
    ensures exists m :: m in a && forall x | x in a :: m <= x
    decreases |a|
  {
    var x := Element(a);
    var rest := a - {x};
    if rest == {} {
      assert a == {x};
    } else {
      LeastExists(rest);
      var m :| m in rest && forall y | y in rest :: m <= y;
      var l := if x < m then x else m;
      assert forall y | y in a :: y in rest || y == x;
      assert l in a && forall y | y in a :: l <= y;
    }
  }

  lemma Element<T>(a: set<T>) returns (x: T)
    requires a != {}
    ensures x in a
  {
    x :| x in a;
  }

  lemma {:induction false} AscendingSize(a: set<int>)
    ensures |Ascending(a)| == |a|
    decreases |a|
  {
    if a != {} { AscendingSize(a - {Least(a)}); }
  }

  lemma AscendingNone()
    ensures Ascending({}) == []
  {
  }

  lemma AscendingHead(a: set<int>, m: int)
    requires m in a && forall x | x in a :: m <= x
    ensures Ascending(a) == [m] + Ascending(a - {m})
  {
  }
}
