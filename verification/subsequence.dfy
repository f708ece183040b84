/** Order-preserving selection, shared by the server's delete and the
    client's filters. */
module Subsequence {

  /** `a` can be obtained from `b` by deleting elements, keeping the order. */
  predicate IsSubseq<T(==)>(a: seq<T>, b: seq<T>)
    decreases |b|
  {
    |a| == 0 ||
    (|b| > 0 &&
     (IsSubseq(a, b[1..]) || (a[0] == b[0] && IsSubseq(a[1..], b[1..]))))
  }

  lemma {:induction false} SubseqOfItself<T>(s: seq<T>)
    ensures IsSubseq(s, s)
  {
    if |s| > 0 {
      SubseqOfItself(s[1..]);
    }
  }
}
