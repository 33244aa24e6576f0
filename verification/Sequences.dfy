/** Counting the elements of a sequence. */
module Sequences {

  function ElementsOf<T(==)>(s: seq<T>): set<T> {
    set x | x in s
  }

  predicate Distinct<T(==)>(s: seq<T>) {
    forall i, j :: 0 <= i < j < |s| ==> s[i] != s[j]
  }

  /** A sequence has as many elements as positions just when none repeats. */
  lemma {:induction false} CardinalityOfElements<T>(s: seq<T>)
    ensures |ElementsOf(s)| <= |s|
    ensures |ElementsOf(s)| == |s| <==> Distinct(s)
  {
    if s != [] {
      var n := |s| - 1;
      var front := s[..n];
      CardinalityOfElements(front);
      assert ElementsOf(s) == ElementsOf(front) + {s[n]};
      if s[n] in front {
        assert ElementsOf(s) == ElementsOf(front);
        var i :| 0 <= i < n && front[i] == s[n];
        assert s[i] == s[n];
      } else {
        assert |ElementsOf(s)| == |ElementsOf(front)| + 1;
        if Distinct(front) {
          forall i, j | 0 <= i < j < |s| ensures s[i] != s[j] {
            assert s[i] in front;
            assert j < n ==> s[j] == front[j];
          }
        }
      }
    }
  }
}
