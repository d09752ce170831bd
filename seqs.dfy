/** Sequence helpers shared by the modules: the order-preserving filter that models the
    `RemoveAll`, `Where` and "keep what passes" loops of the tools. */
module Seqs {

  /** The elements that `keep` accepts, in their original order. */
  function Filter<T>(s: seq<T>, keep: T -> bool): (r: seq<T>)
    ensures |r| <= |s|
  {
    if s == [] then [] else Filter(s[..|s| - 1], keep) + (if keep(s[|s| - 1]) then [s[|s| - 1]] else [])
  }

  lemma {:induction false} FilterMembers<T>(s: seq<T>, keep: T -> bool)
    ensures forall x :: x in Filter(s, keep) <==> x in s && keep(x)
  {
    if s != [] {
      FilterMembers(s[..|s| - 1], keep);
      assert s == s[..|s| - 1] + [s[|s| - 1]];
    }
  }

  lemma {:induction false} FilterAppend<T>(a: seq<T>, b: seq<T>, keep: T -> bool)
    ensures Filter(a + b, keep) == Filter(a, keep) + Filter(b, keep)
    decreases |b|
  {
    if b == [] {
      assert a + b == a;
    } else {
      var b' := b[..|b| - 1];
      assert (a + b)[..|a + b| - 1] == a + b';
      FilterAppend(a, b', keep);
    }
  }

  /** Filtering what has already been filtered changes nothing. */
  lemma {:induction false} FilterTwice<T>(s: seq<T>, keep: T -> bool)
    ensures Filter(Filter(s, keep), keep) == Filter(s, keep)
  {
    if s != [] {
      var p := s[..|s| - 1];
      var x := s[|s| - 1];
      FilterTwice(p, keep);
      var k := Filter(p, keep);
      if keep(x) {
        assert (k + [x])[..|k + [x]| - 1] == k;
        assert Filter(k + [x], keep) == Filter(k, keep) + [x];
      } else {
        assert Filter(s, keep) == k + [] == k;
      }
    }
  }
}
