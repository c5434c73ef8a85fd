/** Framing, windowing, power spectrum and mel projection
    (`applyHannWindow`, `computePowerSpectrum`, `extractMelSpectrogram` in
    src/lib/audioProcessor.ts). */
module Spectrogram {
  import opened Numeric
  import opened AudioConfig
  import opened MelFilterbank
  import opened Fft

  /** The Hann coefficient 0.5 · (1 − cos(2πi / (n − 1))) of sample `i`. */
  function HannCoefficient(t: Transcendentals, i: nat, n: nat): (c: real)
    requires n >= 2
    ensures CosBounded(t) ==> 0.0 <= c <= 1.0
  {
    0.5 * (1.0 - t.cos((2.0 * t.pi * i as real) / (n - 1) as real))
  }

  /** `applyHannWindow(signal)`. A one-sample frame would divide by n − 1 = 0,
      so it is excluded; the pipeline only windows frames of N_FFT samples. */
  function HannWindow(t: Transcendentals, signal: seq<real>): (w: seq<real>)
    requires |signal| != 1
    ensures |w| == |signal|
    ensures AllZero(signal) ==> AllZero(w)
  {
    var n := |signal|;
    seq(n, i requires 0 <= i < n => signal[i] * HannCoefficient(t, i, n))
  }

  /** The window only attenuates: no sample grows in magnitude. */
  lemma HannWindowShrinks(t: Transcendentals, signal: seq<real>)
    requires |signal| != 1 && CosBounded(t)
    ensures forall i :: 0 <= i < |signal| ==> Abs(HannWindow(t, signal)[i]) <= Abs(signal[i])
  {
    var n := |signal|;
    forall i | 0 <= i < n
      ensures Abs(HannWindow(t, signal)[i]) <= Abs(signal[i])
    {
      assert HannWindow(t, signal)[i] == signal[i] * HannCoefficient(t, i, n);
      ScaleShrinks(signal[i], HannCoefficient(t, i, n));
    }
  }

  lemma ScaleShrinks(x: real, c: real)
    requires 0.0 <= c <= 1.0
    ensures Abs(x * c) <= Abs(x)
  {
    if x >= 0.0 {
      MulNonNegative(x, c);
      MulNonNegative(x, 1.0 - c);
    } else {
      MulNonNegative(-x, c);
      MulNonNegative(-x, 1.0 - c);
    }
  }

  /** Number of frames: floor((L − nFft) / hop) + 1, and none when that is not
      positive (the source's loop then never runs). */
  function FrameCount(len: nat, nFft: nat, hop: nat): (n: nat)
    requires hop > 0
    ensures len >= nFft ==> n >= 1 && (n - 1) * hop + nFft <= len < n * hop + nFft
  {
    var f := (len - nFft) / hop + 1;
    if f < 0 then 0 else f
  }

  /** A signal shorter than one window yields no frame. */
  lemma FrameCountShort(len: nat, nFft: nat, hop: nat)
    requires hop > 0 && len < nFft
    ensures FrameCount(len, nFft, hop) == 0
  {
  }

  /** For a signal of at least one window, frame `f` lies wholly inside the
      signal exactly when f < FrameCount: every counted frame is inside, and
      the first uncounted one would overrun. */
  lemma FrameInsideIff(len: nat, nFft: nat, hop: nat, f: nat)
    requires hop > 0 && len >= nFft
    ensures f * hop + nFft <= len <==> f < FrameCount(len, nFft, hop)
  {
    var q := (len - nFft) / hop;
    assert q * hop <= len - nFft < (q + 1) * hop;
    if f <= q {
      MultiplyMonotone(f, q, hop);
    } else {
      MultiplyMonotone(q + 1, f, hop);
    }
  }

  /** The samples of the frame starting at `start`: the signal's slice,
      zero-padded to `nFft` samples past the end. */
  function Frame(signal: seq<real>, start: nat, nFft: nat): (r: seq<real>)
    ensures |r| == nFft
    ensures start + nFft <= |signal| ==> r == signal[start..start + nFft]
    ensures AllZero(signal) ==> AllZero(r)
  {
    seq(nFft, i requires 0 <= i < nFft => if start + i < |signal| then signal[start + i] else 0.0)
  }

  /** The power re² + im² of one bin: never negative, and zero exactly when
      both parts are. */
  function BinPower(x: real, y: real): (r: real)
    ensures r >= 0.0
    ensures x == 0.0 && y == 0.0 ==> r == 0.0
    ensures x != 0.0 || y != 0.0 ==> r > 0.0
  {
    SquareSign(x);
    SquareSign(y);
    Square(x) + Square(y)
  }

  /** `computePowerSpectrum(real, imag)`: the power of the first
      floor(n/2) + 1 bins. */
  function PowerSpectrum(re: seq<real>, im: seq<real>): (p: seq<real>)
    requires |re| == |im| >= 1
    ensures |p| == |re| / 2 + 1
    ensures forall k :: 0 <= k < |p| ==> p[k] >= 0.0
    ensures forall k :: 0 <= k < |p| ==> (re[k] == 0.0 && im[k] == 0.0 ==> p[k] == 0.0)
    ensures forall k :: 0 <= k < |p| ==> (re[k] != 0.0 || im[k] != 0.0 ==> p[k] > 0.0)
  {
    seq(|re| / 2 + 1, k requires 0 <= k < |re| / 2 + 1 => BinPower(re[k], im[k]))
  }

  /** Σ_{k < |p|} p[k] · w[k], summed left to right as the source does. */
  function Dot(p: seq<real>, w: seq<real>): real
    requires |p| <= |w|
    decreases |p|
  {
    if |p| == 0 then 0.0 else Dot(p[..|p| - 1], w) + p[|p| - 1] * w[|p| - 1]
  }

  lemma {:induction false} DotNonNegative(p: seq<real>, w: seq<real>)
    requires |p| <= |w|
    requires forall k :: 0 <= k < |p| ==> p[k] >= 0.0
    requires forall k :: 0 <= k < |w| ==> w[k] >= 0.0
    ensures Dot(p, w) >= 0.0
    decreases |p|
  {
    if |p| > 0 {
      DotNonNegative(p[..|p| - 1], w);
      MulNonNegative(p[|p| - 1], w[|p| - 1]);
    }
  }

  lemma {:induction false} DotZero(p: seq<real>, w: seq<real>)
    requires |p| <= |w|
    requires AllZero(p)
    ensures Dot(p, w) == 0.0
    decreases |p|
  {
    if |p| > 0 {
      DotZero(p[..|p| - 1], w);
    }
  }

  /** The mel projection of one power spectrum: one Σ power·weight per filter.
      Non-negative power and weights give non-negative energies, and a zero
      spectrum gives zero energies. */
  function MelProject(power: seq<real>, bank: seq<seq<real>>): (e: seq<real>)
    requires forall m :: 0 <= m < |bank| ==> |power| <= |bank[m]|
    ensures |e| == |bank|
    ensures (forall k :: 0 <= k < |power| ==> power[k] >= 0.0) && WeightsInUnitRange(bank) ==>
      forall m :: 0 <= m < |e| ==> e[m] >= 0.0
    ensures AllZero(power) ==> AllZero(e)
  {
    var e := seq(|bank|, m requires 0 <= m < |bank| => Dot(power, bank[m]));
    assert (forall k :: 0 <= k < |power| ==> power[k] >= 0.0) && WeightsInUnitRange(bank) ==>
      forall m :: 0 <= m < |e| ==> e[m] >= 0.0 by {
      if (forall k :: 0 <= k < |power| ==> power[k] >= 0.0) && WeightsInUnitRange(bank) {
        forall m | 0 <= m < |e|
          ensures e[m] >= 0.0
        {
          DotNonNegative(power, bank[m]);
        }
      }
    }
    ZeroProjection(power, bank);
    e
  }

  lemma ZeroProjection(power: seq<real>, bank: seq<seq<real>>)
    requires forall m :: 0 <= m < |bank| ==> |power| <= |bank[m]|
    ensures AllZero(power) ==> forall m :: 0 <= m < |bank| ==> Dot(power, bank[m]) == 0.0
  {
    if AllZero(power) {
      forall m | 0 <= m < |bank|
        ensures Dot(power, bank[m]) == 0.0
      {
        DotZero(power, bank[m]);
      }
    }
  }

  ghost predicate NonNegativeRows(spec: seq<seq<real>>) {
    forall f, m :: 0 <= f < |spec| && 0 <= m < |spec[f]| ==> spec[f][m] >= 0.0
  }

  ghost predicate AllZeroRows(spec: seq<seq<real>>) {
    forall f :: 0 <= f < |spec| ==> AllZero(spec[f])
  }

  /** `extractMelSpectrogram(signal, sampleRate, nMels, nFft, hopLength)`:
      FrameCount(L, nFft, hop) rows of `nMels` non-negative energies, and
      silence in gives all-zero energies out. */
  method ExtractMelSpectrogram(t: Transcendentals, signal: seq<real>, sampleRate: nat, nMels: nat, nFft: nat, hop: nat)
    returns (spec: seq<seq<real>>)
    requires sampleRate > 0 && hop > 0
    requires nFft >= 2 && IsPow2(nFft)
    requires Nondegenerate(BinPoints(t, nMels, nFft, sampleRate, MelFMin, MelFMax))
    ensures |spec| == FrameCount(|signal|, nFft, hop)
    ensures forall f :: 0 <= f < |spec| ==> |spec[f]| == nMels
    ensures NonNegativeRows(spec)
    ensures AllZero(signal) ==> AllZeroRows(spec)
  {
    var bank := CreateMelFilterbank(t, nMels, nFft, sampleRate, MelFMin, MelFMax);
    var numFrames := (|signal| - nFft) / hop + 1;
    spec := [];
    var frame := 0;
    while frame < numFrames
      invariant 0 <= frame == |spec|
      invariant frame <= (if numFrames < 0 then 0 else numFrames)
      invariant forall f :: 0 <= f < |spec| ==> |spec[f]| == nMels
      invariant NonNegativeRows(spec)
      invariant AllZero(signal) ==> AllZeroRows(spec)
    {
      var start := frame * hop;
      var padded := Frame(signal, start, nFft);
      var windowed := HannWindow(t, padded);
      var re, im := Transform(t, windowed, seq(nFft, _ => 0.0));
      var power := PowerSpectrum(re, im);
      var melFrame := MelProject(power, bank);
      if AllZero(signal) {
        assert AllZero(re) && AllZero(im);
        assert AllZero(power);
      }
      spec := spec + [melFrame];
      frame := frame + 1;
    }
  }
}
