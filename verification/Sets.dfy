/** Facts about finite sets. */
module Sets {
  lemma {:induction false} SubsetSize<T>(a: set<T>, b: set<T>)
    requires a <= b
    ensures |a| <= |b| && (a != b ==> |a| < |b|)
  {
    if a == {} {
      assert b != {} ==> |b| > 0;
    } else {
      var x :| x in a;
      SubsetSize(a - {x}, b - {x});
    }
  }

  lemma MinusSize<T>(a: set<T>, gone: set<T>)
    ensures |a - gone| == |a| <==> a !! gone
  {
    assert a == (a - gone) + a * gone;
    assert |a| == |a - gone| + |a * gone|;
  }
}
