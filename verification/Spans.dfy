/** Equally long things in a row. */
module Spans {
  /** Where the n-th of equally long things starts. */
  function Start(n: nat, len: nat): nat {
    if n == 0 then 0 else Start(n - 1, len) + len
  }

  lemma {:induction false} StartIsProduct(n: nat, len: nat)
    ensures Start(n, len) == n * len
  {
    if n > 0 {
      StartIsProduct(n - 1, len);
      assert n * len == (n - 1) * len + len;
    }
  }

  lemma {:induction false} StartGrows(i: nat, n: nat, len: nat)
    requires i <= n
    ensures Start(i, len) <= Start(n, len)
    ensures i < n ==> Start(i, len) + len <= Start(n, len)
  {
    if i < n { StartGrows(i, n - 1, len); }
  }

  lemma {:induction false} StartSum(m: nat, n: nat, len: nat)
    ensures Start(m + n, len) == Start(m, len) + Start(n, len)
  {
    if n > 0 { StartSum(m, n - 1, len); }
  }

  lemma Grows(a: int, b: int, w: nat)
    requires a <= b
    ensures a * w <= b * w
  {
  }

  lemma SmallMultiple(d: int, w: nat)
    requires 0 - w < d * w < w
    ensures d == 0
  {
    if d >= 1 { Grows(1, d, w); }
    if d <= -1 { Grows(d, -1, w); }
  }

  /** Dividing by the length gives back which thing it is, and where in it. */
  lemma Quotient(i: nat, j: nat, w: nat)
    requires j < w
    ensures (i * w + j) / w == i && (i * w + j) % w == j
  {
    var p := i * w + j;
    var d := i - p / w;
    assert p == p / w * w + p % w;
    assert d * w == i * w - p / w * w;
    SmallMultiple(d, w);
  }

  /** A slice of a slice. */
  lemma SliceOfSlice<T>(s: seq<T>, d: nat, len: nat, a: nat, b: nat)
    requires d + len <= |s| && a <= b <= len
    ensures s[d..d + len][a..b] == s[d + a..d + b]
  {
    var x, y := s[d..d + len][a..b], s[d + a..d + b];
    assert |x| == |y|;
    forall k | 0 <= k < b - a
      ensures x[k] == y[k]
    {
      assert x[k] == s[d..d + len][a + k];
    }
  }
}
