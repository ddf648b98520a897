/** Order-preserving filtering of finite sequences: the model of a query-set
    `.filter(...)` and of a list comprehension with an `if` clause. */
module Sequences {

  /** `a` can be obtained from `b` by deleting elements, without reordering. */
  ghost predicate SubsequenceOf<T>(a: seq<T>, b: seq<T>)
    decreases |b|
  {
    if |a| == 0 then true
    else if |b| == 0 then false
    else (a[|a| - 1] == b[|b| - 1] && SubsequenceOf(a[..|a| - 1], b[..|b| - 1]))
         || SubsequenceOf(a, b[..|b| - 1])
  }

  /** The elements of `s` that satisfy `keep`, in their original order. */
  function Filter<T(==,!new)>(s: seq<T>, keep: T -> bool): (r: seq<T>)
    ensures forall x :: x in r <==> x in s && keep(x)
    ensures forall x :: multiset(r)[x] == if keep(x) then multiset(s)[x] else 0
    ensures SubsequenceOf(r, s)
    decreases |s|
  {
    if |s| == 0 then []
    else
      var init, last := s[..|s| - 1], s[|s| - 1];
      assert s == init + [last];
      var rest := Filter(init, keep);
      if keep(last) then
        assert (rest + [last])[..|rest|] == rest;
        rest + [last]
      else
        rest
  }

  /** Every sequence is a subsequence of itself. */
  lemma {:induction false} SubsequenceOfSelf<T>(s: seq<T>)
    ensures SubsequenceOf(s, s)
    decreases |s|
  {
    if |s| > 0 {
      SubsequenceOfSelf(s[..|s| - 1]);
    }
  }
}
