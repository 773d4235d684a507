/**
 * Small helpers over sequences shared by the CSR container model: the
 * maximum of two naturals, the last element / all-but-last of a sequence,
 * and std::vector's resize.
 */
module Util {

  function Max(a: nat, b: nat): (m: nat)
    ensures a <= m && b <= m && (m == a || m == b)
  {
    if a < b then b else a
  }

  /** All elements but the last. */
  function Init<T>(s: seq<T>): (r: seq<T>)
    requires s != []
  {
    s[..|s| - 1]
  }

  function Last<T>(s: seq<T>): (x: T)
    requires s != []
  {
    s[|s| - 1]
  }

  /**
   * `v.resize(n, fill)` on a std::vector: keeps the first min(n, |s|)
   * elements and pads with `fill` up to length n.
   */
  function Resized<T>(s: seq<T>, n: nat, fill: T): (r: seq<T>)
    ensures |r| == n
    ensures forall k :: 0 <= k < n && k < |s| ==> r[k] == s[k]
    ensures forall k :: |s| <= k < n ==> r[k] == fill
  {
    if n <= |s| then s[..n] else s + seq(n - |s|, _ => fill)
  }
}
