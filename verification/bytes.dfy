/** Bytes, little-endian words, and a flat byte memory. */
module Bytes {
  import opened Bits

  type byte = x: nat | x < 256

  /** The value of a little-endian byte string. */
  function Le(s: seq<byte>): nat {
    if s == [] then 0 else s[0] + 256 * Le(s[1..])
  }

  /** The low `n` bytes of `w`, least significant first. */
  function ToLe(w: nat, n: nat): (s: seq<byte>)
    ensures |s| == n
    decreases n
  {
    if n == 0 then [] else [w % 256] + ToLe(w / 256, n - 1)
  }

  function Pow256(n: nat): (p: nat)
    ensures p >= 1
  {
    if n == 0 then 1 else 256 * Pow256(n - 1)
  }

  lemma {:induction false} LeRoundTrip(w: nat, n: nat)
    ensures Le(ToLe(w, n)) == w % Pow256(n)
    ensures w < Pow256(n) ==> Le(ToLe(w, n)) == w
    decreases n
  {
    if n > 0 {
      LeRoundTrip(w / 256, n - 1);
      assert ToLe(w, n)[1..] == ToLe(w / 256, n - 1);
      ModSplit(w, 256, Pow256(n - 1));
    }
    ModSmall(w, Pow256(n));
  }

  lemma ModSmall(w: nat, d: nat)
    requires d > 0
    ensures w < d ==> w % d == w
  {
  }

  lemma {:induction false} LeBound(s: seq<byte>)
    ensures Le(s) < Pow256(|s|)
  {
    if s != [] {
      LeBound(s[1..]);
    }
  }

  lemma {:induction false} LeAllZero(s: seq<byte>)
    requires forall k :: 0 <= k < |s| ==> s[k] == 0
    ensures Le(s) == 0
  {
    if s != [] {
      LeAllZero(s[1..]);
    }
  }

  function Zeros(n: nat): (s: seq<byte>)
    ensures |s| == n
    ensures forall k :: 0 <= k < n ==> s[k] == 0
  {
    seq(n, _ => 0)
  }

  /** `after` is `before` with the bytes of `s` stored from address `at` on. */
  ghost predicate Stored(before: seq<byte>, at: nat, s: seq<byte>, after: seq<byte>) {
    && |after| == |before|
    && at + |s| <= |before|
    && forall k {:trigger after[k]} :: 0 <= k < |before| ==>
      after[k] == if at <= k < at + |s| then s[k - at] else before[k]
  }
}
