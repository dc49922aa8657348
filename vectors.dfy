/** The growth behaviour of a standard vector. */
module Vectors {

  /** `v.resize(n)` on a vector holding `s`: the first min(|s|, n) elements are kept,
      and any new element is a default-constructed `fill`. */
  function Resize<T>(s: seq<T>, n: nat, fill: T): (r: seq<T>)
    ensures |r| == n
    ensures forall i :: 0 <= i < |s| && i < n ==> r[i] == s[i]
    ensures forall i :: |s| <= i < n ==> r[i] == fill
  {
    if n <= |s| then s[..n] else s + seq(n - |s|, _ => fill)
  }

  /** Growing a vector keeps every existing element as a prefix. */
  lemma ResizeGrowKeepsPrefix<T>(s: seq<T>, n: nat, fill: T)
    requires |s| <= n
    ensures Resize(s, n, fill)[..|s|] == s
  {
  }
}
