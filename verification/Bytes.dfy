/** Little-endian byte strings of integers, and their in-place reversal. */
module Bytes {
  import opened Arith
  import opened Pcm

  function Pow256(w: nat): (p: nat)
    ensures 0 < p
  {
    if w == 0 then 1 else 256 * Pow256(w - 1)
  }

  /** The low w bytes of n, least significant first. */
  function ToLe(n: nat, w: nat): (b: seq<Byte>)
    ensures |b| == w
    decreases w
  {
    if w == 0 then [] else [n % 256] + ToLe(n / 256, w - 1)
  }

  function FromLe(b: seq<Byte>): nat {
    if |b| == 0 then 0 else b[0] + 256 * FromLe(b[1..])
  }

  lemma ModStep(n: nat, p: nat)
    requires 0 < p
    ensures n % (256 * p) == 256 * (n / 256 % p) + n % 256
  {
    var q, r := n / 256 / p, n / 256 % p;
    assert n / 256 == q * p + r;
    assert n == 256 * (q * p) + 256 * r + n % 256;
    assert q * (256 * p) == 256 * (q * p);
    DivModUnique(n, 256 * p, q, 256 * r + n % 256);
  }

  lemma {:induction false} FromToLe(n: nat, w: nat)
    ensures FromLe(ToLe(n, w)) == n % Pow256(w)
    decreases w
  {
    if w > 0 {
      FromToLe(n / 256, w - 1);
      assert ToLe(n, w)[1..] == ToLe(n / 256, w - 1);
      ModStep(n, Pow256(w - 1));
    }
  }

  lemma {:induction false} ToFromLe(b: seq<Byte>)
    ensures FromLe(b) < Pow256(|b|) && ToLe(FromLe(b), |b|) == b
  {
    if |b| > 0 {
      ToFromLe(b[1..]);
      DivModUnique(FromLe(b), 256, FromLe(b[1..]), b[0]);
      assert b == [b[0]] + b[1..];
    }
  }

  lemma {:induction false} ToLePrefix(n: nat, w: nat, wide: nat)
    requires w <= wide
    ensures ToLe(n, wide)[..w] == ToLe(n, w)
    decreases w
  {
    if w > 0 {
      ToLePrefix(n / 256, w - 1, wide - 1);
      assert ToLe(n, wide)[..w] == [n % 256] + ToLe(n / 256, wide - 1)[..w - 1];
    }
  }

  function Reverse<T>(s: seq<T>): (r: seq<T>)
    ensures |r| == |s|
    ensures forall i | 0 <= i < |s| :: r[i] == s[|s| - 1 - i]
  {
    seq(|s|, i requires 0 <= i < |s| => s[|s| - 1 - i])
  }

  lemma ReverseTwice<T>(s: seq<T>)
    ensures Reverse(Reverse(s)) == s
  {
  }
}
