/** Sequences whose elements differ. */
module Sequences {

  predicate Distinct<T(==)>(s: seq<T>) {
    forall i, j :: 0 <= i < j < |s| ==> s[i] != s[j]
  }

  /** Turning a sequence into a set loses nothing exactly when its elements differ. */
  lemma {:induction false} SetSize<T>(s: seq<T>)
    ensures |set x | x in s| <= |s|
    ensures |set x | x in s| == |s| <==> Distinct(s)
  {
    if s != [] {
      var init, last := s[..|s| - 1], s[|s| - 1];
      SetSize(init);
      assert s == init + [last];
      assert (set x | x in s) == (set x | x in init) + {last};
      if last in init {
        var i :| 0 <= i < |init| && init[i] == last;
        assert s[i] == s[|s| - 1];
      }
      if Distinct(s) {
        assert Distinct(init);
      }
    }
  }
}
