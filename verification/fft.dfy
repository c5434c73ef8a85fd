/** The in-place radix-2 Cooley–Tukey transform (`fft` in
    src/lib/audioProcessor.ts), on sequences copied in and out. */
module Fft {
  import opened Numeric

  /** Reverses the low `b` bits of `x`. */
  function Rev(x: nat, b: nat): (r: nat)
    ensures r < Pow2(b)
  {
    if b == 0 then 0
    else if x % 2 == 0 then Rev(x / 2, b - 1)
    else Pow2(b - 1) + Rev(x / 2, b - 1)
  }

  /** The source's carry loop `k = n >> 1; while (k <= j) { j -= k; k >>= 1 } j += k`
      started with k = 2^e. Its precondition (j is below 2^(e+1) and not all
      ones) is what keeps k from reaching 0. */
  function Advance(j: nat, e: nat): nat
    requires j < 2 * Pow2(e) && j != 2 * Pow2(e) - 1
    decreases e
  {
    if Pow2(e) <= j then Advance(j - Pow2(e), e - 1) else j + Pow2(e)
  }

  lemma {:induction false} RevZero(b: nat)
    ensures Rev(0, b) == 0
  {
    if b > 0 {
      RevZero(b - 1);
    }
  }

  /** The carry loop turns the bit reversal of `x` into that of `x + 1`, and
      its precondition holds for every `x` the outer loop visits. */
  lemma {:induction false} AdvanceRev(x: nat, b: nat)
    requires b >= 1 && x < Pow2(b) - 1
    ensures Rev(x, b) < 2 * Pow2(b - 1) && Rev(x, b) != 2 * Pow2(b - 1) - 1
    ensures Advance(Rev(x, b), b - 1) == Rev(x + 1, b)
    decreases b, 1
  {
    if x % 2 == 0 {
      AdvanceRevEven(x, b);
    } else {
      AdvanceRevOdd(x, b);
    }
  }

  /** An even `x` has a reversal below 2^(b−1); the carry loop stops at once
      and adds the top bit. */
  lemma AdvanceRevEven(x: nat, b: nat)
    requires b >= 1 && x < Pow2(b) - 1 && x % 2 == 0
    ensures Rev(x, b) < Pow2(b - 1)
    ensures Advance(Rev(x, b), b - 1) == Rev(x + 1, b)
  {
    HalfSuccessor(x);
    assert Rev(x + 1, b) == Pow2(b - 1) + Rev(x / 2, b - 1);
  }

  /** An odd `x` has its top reversed bit set; the carry loop clears it and
      continues one bit lower. */
  lemma {:induction false} AdvanceRevOdd(x: nat, b: nat)
    requires b >= 1 && x < Pow2(b) - 1 && x % 2 == 1
    ensures Rev(x, b) < 2 * Pow2(b - 1) && Rev(x, b) != 2 * Pow2(b - 1) - 1
    ensures Advance(Rev(x, b), b - 1) == Rev(x + 1, b)
    decreases b, 0
  {
    assert Pow2(b) == 2 * Pow2(b - 1);
    assert b >= 2;
    AdvanceRev(x / 2, b - 1);
    HalfSuccessor(x);
  }

  lemma HalfSuccessor(x: nat)
    ensures x % 2 == 0 ==> (x + 1) % 2 == 1 && (x + 1) / 2 == x / 2
    ensures x % 2 == 1 ==> (x + 1) % 2 == 0 && (x + 1) / 2 == x / 2 + 1
  {
  }

  /** The number of bits of a power of two: log2 n. */
  function Bits(n: nat): nat
    decreases n
  {
    if n <= 1 then 0 else 1 + Bits(n / 2)
  }

  lemma {:induction false} BitsOfPow2(b: nat)
    ensures Bits(Pow2(b)) == b
    decreases b
  {
    if b > 0 {
      assert Pow2(b) / 2 == Pow2(b - 1);
      BitsOfPow2(b - 1);
    }
  }

  /** Division by `d` is determined by any quotient and remainder pair. */
  lemma DivUnique(x: nat, d: nat, q: nat, r: nat)
    requires d >= 1 && x == d * q + r && r < d
    ensures x / d == q && x % d == r
  {
    var q', r' := x / d, x % d;
    if q' < q {
      MultiplyMonotone(q' + 1, q, d);
      assert false;
    } else if q < q' {
      MultiplyMonotone(q + 1, q', d);
      assert false;
    }
  }

  /** Splitting off the low bit commutes with splitting off the top bit. */
  lemma HalfOfSplit(x: nat, h: nat)
    requires h >= 1
    ensures (x % (2 * h)) % 2 == x % 2
    ensures (x % (2 * h)) / 2 == (x / 2) % h
    ensures (x / 2) / h == x / (2 * h)
  {
    var a, r := x / (2 * h), x % (2 * h);
    assert x == (2 * h) * a + r;
    DivUnique(r, 2, r / 2, r % 2);
    assert x == 2 * (h * a + r / 2) + r % 2;
    DivUnique(x, 2, h * a + r / 2, r % 2);
    assert r / 2 < h;
    DivUnique(x / 2, h, a, r / 2);
  }

  /** The reversal read from the top bit instead of the bottom one. */
  lemma {:induction false} RevTop(x: nat, b: nat)
    requires b >= 1 && x < Pow2(b)
    ensures Rev(x, b) == 2 * Rev(x % Pow2(b - 1), b - 1) + x / Pow2(b - 1)
    decreases b
  {
    var p := Pow2(b - 1);
    if b == 1 {
      assert x < 2 && p == 1;
    } else {
      var h := Pow2(b - 2);
      assert p == 2 * h;
      HalfOfSplit(x, h);
      DivUnique(x, 2, x / 2, x % 2);
      assert x / 2 < p by {
        assert x < 2 * p;
      }
      RevTop(x / 2, b - 1);
    }
  }

  /** Bit reversal is an involution on b-bit indices. */
  lemma {:induction false} RevInvolution(x: nat, b: nat)
    requires x < Pow2(b)
    ensures Rev(Rev(x, b), b) == x
    decreases b
  {
    if b > 0 {
      var p := Pow2(b - 1);
      var y := Rev(x, b);
      var low := Rev(x / 2, b - 1);
      assert y == (x % 2) * p + low;
      DivUnique(y, p, x % 2, low);
      RevTop(y, b);
      assert x / 2 < p;
      RevInvolution(x / 2, b - 1);
    }
  }

  /** The all-ones index is its own reversal. */
  lemma {:induction false} RevAllOnes(b: nat)
    ensures Rev(Pow2(b) - 1, b) == Pow2(b) - 1
    decreases b
  {
    if b > 0 {
      assert (Pow2(b) - 1) / 2 == Pow2(b - 1) - 1;
      RevAllOnes(b - 1);
    }
  }

  /** After the pass has visited indices below `i`: an index that is below
      `i`, or whose reversal is, holds the input at its reversal, and every
      other index still holds its own input. */
  ghost predicate Placed<T>(s: seq<T>, s0: seq<T>, i: nat, b: nat)
    requires |s| == |s0| == Pow2(b)
  {
    forall k :: 0 <= k < |s| ==> s[k] == (if k < i || Rev(k, b) < i then s0[Rev(k, b)] else s0[k])
  }

  /** One turn of the pass keeps `Placed`: swapping i with its reversal j
      when i < j places both, and otherwise i is already in place. */
  lemma PlacedStep<T>(s: seq<T>, s0: seq<T>, i: nat, b: nat)
    requires |s| == |s0| == Pow2(b) && i < |s| && Placed(s, s0, i, b)
    ensures var j := Rev(i, b);
      Placed(if i < j then Swap(s, i, j) else s, s0, i + 1, b)
  {
    var j := Rev(i, b);
    var t := if i < j then Swap(s, i, j) else s;
    RevInvolution(i, b);
    forall k | 0 <= k < |s|
      ensures t[k] == (if k < i + 1 || Rev(k, b) < i + 1 then s0[Rev(k, b)] else s0[k])
    {
      RevInvolution(k, b);
      if Rev(k, b) == i {
        assert k == j;
      }
    }
  }

  function Swap<T>(s: seq<T>, i: nat, j: nat): (r: seq<T>)
    requires i < |s| && j < |s|
    ensures |r| == |s| && r[i] == s[j] && r[j] == s[i]
    ensures forall k :: 0 <= k < |s| && k != i && k != j ==> r[k] == s[k]
    ensures multiset(r) == multiset(s)
  {
    var r := s[i := s[j]][j := s[i]];
    if i == j then
      assert r == s;
      r
    else
      SwapMultiset(s, i, j);
      r
  }

  lemma SwapMultiset<T>(s: seq<T>, i: nat, j: nat)
    requires i < |s| && j < |s| && i != j
    ensures multiset(s[i := s[j]][j := s[i]]) == multiset(s)
  {
    var t := s[i := s[j]];
    assert multiset(t) == multiset(s) - multiset{s[i]} + multiset{s[j]};
    assert t[j] == s[j];
    assert multiset(t[j := s[i]]) == multiset(t) - multiset{s[j]} + multiset{s[i]};
  }

  /** The (re, im) pairs of a complex buffer held as two arrays. */
  function Zip(re: seq<real>, im: seq<real>): (z: seq<(real, real)>)
    requires |re| == |im|
    ensures |z| == |re|
    ensures forall k :: 0 <= k < |z| ==> z[k].0 == re[k] && z[k].1 == im[k]
  {
    seq(|re|, k requires 0 <= k < |re| => (re[k], im[k]))
  }

  lemma ZipSwap(re: seq<real>, im: seq<real>, i: nat, j: nat)
    requires |re| == |im| && i < |re| && j < |re|
    ensures Zip(Swap(re, i, j), Swap(im, i, j)) == Swap(Zip(re, im), i, j)
  {
  }

  /** The bit-reversal phase: walks `i` over 0..n−2 with `j` the bit reversal
      of `i`, swapping the pair only when i < j. For a power-of-two length
      every swap stays in bounds, the carry loop terminates, and entry k of
      the result is entry Rev(k) of the input. */
  method BitReversePermutation(re0: seq<real>, im0: seq<real>) returns (re: seq<real>, im: seq<real>)
    requires |re0| == |im0| && IsPow2(|re0|)
    ensures |re| == |re0| && |im| == |im0|
    ensures multiset(Zip(re, im)) == multiset(Zip(re0, im0))
    ensures forall k :: 0 <= k < |re| ==> Rev(k, Bits(|re0|)) < |re0|
    ensures forall k :: 0 <= k < |re| ==>
      re[k] == re0[Rev(k, Bits(|re0|))] && im[k] == im0[Rev(k, Bits(|re0|))]
  {
    var n := |re0|;
    ghost var e: nat :| Pow2(e) == n;
    BitsOfPow2(e);
    ghost var b: nat := Bits(n);
    re, im := re0, im0;
    var j: nat := 0;
    var i := 0;
    RevZero(b);
    while i < n - 1
      invariant 0 <= i <= n - 1
      invariant j == Rev(i, b)
      invariant |re| == n && |im| == n
      invariant multiset(Zip(re, im)) == multiset(Zip(re0, im0))
      invariant Placed(re, re0, i, b) && Placed(im, im0, i, b)
    {
      PlacedStep(re, re0, i, b);
      PlacedStep(im, im0, i, b);
      if i < j {
        ZipSwap(re, im, i, j);
        re := Swap(re, i, j);
        im := Swap(im, i, j);
      }
      j := NextReversed(j, n, b, i);
      i := i + 1;
    }
    AllReversed(re, re0, b);
    AllReversed(im, im0, b);
  }

  /** Once the pass has visited every index but the last, every index holds
      the input at its reversal: the last index is its own reversal, and
      no other index reverses to it. */
  lemma AllReversed<T>(s: seq<T>, s0: seq<T>, b: nat)
    requires |s| == |s0| == Pow2(b) && Placed(s, s0, |s| - 1, b)
    ensures forall k :: 0 <= k < |s| ==> s[k] == s0[Rev(k, b)]
  {
    var n := |s|;
    RevAllOnes(b);
    forall k | 0 <= k < n
      ensures s[k] == s0[Rev(k, b)]
    {
      if k != n - 1 && Rev(k, b) == n - 1 {
        RevInvolution(k, b);
        assert false;
      }
    }
  }

  /** The carry loop of the bit-reversal phase: from the bit reversal of `i`
      it computes that of `i + 1`. */
  method NextReversed(j0: nat, n: nat, ghost b: nat, ghost i: nat) returns (j: nat)
    requires n == Pow2(b) && i < n - 1
    requires j0 == Rev(i, b)
    ensures j == Rev(i + 1, b)
  {
    assert b >= 1;
    AdvanceRev(i, b);
    j := j0;
    var k := n / 2;
    ghost var e: nat := b - 1;
    while k <= j
      invariant k == Pow2(e)
      invariant j < 2 * k && j != 2 * k - 1
      invariant Advance(j, e) == Rev(i + 1, b)
      decreases k
    {
      assert e >= 1;
      assert Pow2(e) == 2 * Pow2(e - 1);
      j := j - k;
      k := k / 2;
      e := e - 1;
    }
    j := j + k;
  }

  /** If block `q` of width `len` starts below `p · len`, the whole block fits. */
  lemma NextBlockFits(q: nat, p: nat, len: nat)
    requires q * len < p * len
    ensures (q + 1) * len <= p * len
  {
    if q >= p {
      MultiplyMonotone(p, q, len);
    }
    MultiplyMonotone(q + 1, p, len);
  }

  /** The butterfly phase: for len = 2, 4, …, n and every block start `i`, it
      combines entries i + k and i + k + len/2 with the twiddle factor
      (cos(2πk/len), −sin(2πk/len)). For a power-of-two length every index
      stays below n, and an all-zero buffer stays all zero. */
  method Butterflies(t: Transcendentals, re0: seq<real>, im0: seq<real>) returns (re: seq<real>, im: seq<real>)
    requires |re0| == |im0| && IsPow2(|re0|)
    ensures |re| == |re0| && |im| == |im0|
    ensures AllZero(re0) && AllZero(im0) ==> AllZero(re) && AllZero(im)
  {
    var n := |re0|;
    ghost var b: nat :| Pow2(b) == n;
    re, im := re0, im0;
    var len := 2;
    ghost var e: nat := 1;
    while len <= n
      invariant len == Pow2(e) && e >= 1
      invariant |re| == n && |im| == n
      invariant AllZero(re0) && AllZero(im0) ==> AllZero(re) && AllZero(im)
      decreases n - len
    {
      assert e <= b by {
        if e > b {
          Pow2Monotone(b + 1, e);
        }
      }
      Pow2Add(e, b - e);
      var blocks := Pow2(b - e);
      assert n == blocks * len;
      var halfLen := len / 2;
      var angle := (2.0 * t.pi) / len as real;
      var i := 0;
      ghost var q: nat := 0;
      while i < n
        invariant i == q * len && i <= n
        invariant |re| == n && |im| == n
        invariant AllZero(re0) && AllZero(im0) ==> AllZero(re) && AllZero(im)
        decreases n - i
      {
        NextBlockFits(q, blocks, len);
        assert i + len == (q + 1) * len;
        re, im := CombineBlock(t, re, im, i, halfLen, angle);
        i := i + len;
        q := q + 1;
      }
      len := len * 2;
      e := e + 1;
    }
  }

  /** The butterflies of one block starting at `i`: entries i + k and
      i + k + halfLen, for k below halfLen, are combined with the twiddle
      factor (cos(angle·k), −sin(angle·k)). Every index stays inside the
      buffer, and an all-zero buffer stays all zero. */
  method CombineBlock(t: Transcendentals, re0: seq<real>, im0: seq<real>, i: nat, halfLen: nat, angle: real)
    returns (re: seq<real>, im: seq<real>)
    requires |re0| == |im0| && i + 2 * halfLen <= |re0|
    ensures |re| == |re0| && |im| == |im0|
    ensures AllZero(re0) && AllZero(im0) ==> AllZero(re) && AllZero(im)
  {
    re, im := re0, im0;
    var k := 0;
    while k < halfLen
      invariant 0 <= k <= halfLen
      invariant |re| == |re0| && |im| == |re0|
      invariant AllZero(re0) && AllZero(im0) ==> AllZero(re) && AllZero(im)
    {
      var thetaReal := t.cos(angle * k as real);
      var thetaImag := -t.sin(angle * k as real);
      var evenIdx := i + k;
      var oddIdx := i + k + halfLen;
      var tReal := re[oddIdx] * thetaReal - im[oddIdx] * thetaImag;
      var tImag := re[oddIdx] * thetaImag + im[oddIdx] * thetaReal;
      re := re[oddIdx := re[evenIdx] - tReal];
      im := im[oddIdx := im[evenIdx] - tImag];
      re := re[evenIdx := re[evenIdx] + tReal];
      im := im[evenIdx := im[evenIdx] + tImag];
      k := k + 1;
    }
  }

  /** `fft(real, imag)`: a no-op for n <= 1, otherwise bit reversal followed by
      the butterflies. The length must be a power of two. */
  method Transform(t: Transcendentals, re0: seq<real>, im0: seq<real>) returns (re: seq<real>, im: seq<real>)
    requires |re0| == |im0|
    requires |re0| <= 1 || IsPow2(|re0|)
    ensures |re| == |re0| && |im| == |im0|
    ensures |re0| <= 1 ==> re == re0 && im == im0
    ensures AllZero(re0) && AllZero(im0) ==> AllZero(re) && AllZero(im)
  {
    if |re0| <= 1 {
      return re0, im0;
    }
    re, im := BitReversePermutation(re0, im0);
    if AllZero(re0) && AllZero(im0) {
      PermutationKeepsZero(re0, im0, re, im);
    }
    re, im := Butterflies(t, re, im);
  }

  /** A permutation of an all-zero buffer is all zero. */
  lemma PermutationKeepsZero(re0: seq<real>, im0: seq<real>, re: seq<real>, im: seq<real>)
    requires |re0| == |im0| && |re| == |im|
    requires multiset(Zip(re, im)) == multiset(Zip(re0, im0))
    requires AllZero(re0) && AllZero(im0)
    ensures AllZero(re) && AllZero(im)
  {
    var z0, z := Zip(re0, im0), Zip(re, im);
    forall k | 0 <= k < |re|
      ensures re[k] == 0.0 && im[k] == 0.0
    {
      assert z[k] in multiset(z);
      assert z[k] in multiset(z0);
      var m :| 0 <= m < |z0| && z0[m] == z[k];
    }
  }
}
