// Sequences without repetitions.
module Sequences {
  predicate Distinct<T(==)>(c: seq<T>) { forall i, j :: 0 <= i < j < |c| ==> c[i] != c[j] }

  ghost function Elements<T>(c: seq<T>): set<T> { set i | 0 <= i < |c| :: c[i] }

  lemma ElementsMore<T>(c: seq<T>, x: T)
    ensures Elements(c + [x]) == Elements(c) + {x}
  {
    var more := c + [x];
    forall y | y in Elements(c)
      ensures y in Elements(more)
    {
      var i :| 0 <= i < |c| && c[i] == y;
      assert more[i] == y;
    }
    assert more[|c|] == x;
    forall y | y in Elements(more)
      ensures y in Elements(c) + {x}
    {
      var i :| 0 <= i < |more| && more[i] == y;
      if i < |c| { assert c[i] == y; }
    }
  }

  lemma {:induction false} DistinctCount<T>(c: seq<T>)
    requires Distinct(c)
    ensures |Elements(c)| == |c|
  {
    if c != [] {
      var init, last := c[..|c| - 1], c[|c| - 1];
      DistinctCount(init);
      ElementsMore(init, last);
      assert c == init + [last];
      assert last !in Elements(init);
    }
  }
}
