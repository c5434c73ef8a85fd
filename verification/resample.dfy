/** Linear-interpolation resampling (`resampleAudio` in src/lib/audioProcessor.ts).

    Sample rates are positive integers, so the ratio `orig / target` and every
    source position `i · ratio` are exact rationals: floating-point rounding of
    the ratio is not modelled. */
module Resample {
  import opened Numeric

  /** Output length when the rates differ: floor(len / (orig / target)). */
  function ResampledLength(len: nat, orig: nat, target: nat): nat
    requires orig > 0 && target > 0
  {
    (len * target) / orig
  }

  /** floor(i · orig / target), the source index left of output sample `i`. */
  function SourceFloor(i: nat, orig: nat, target: nat): nat
    requires target > 0
  {
    (i * orig) / target
  }

  /** The fractional part of `i · orig / target`. */
  function Fraction(i: nat, orig: nat, target: nat): (f: real)
    requires target > 0
    ensures 0.0 <= f < 1.0
  {
    ((i * orig) % target) as real / target as real
  }

  /** Every output index reads a source sample that exists. */
  lemma SourceFloorInBounds(len: nat, orig: nat, target: nat, i: nat)
    requires orig > 0 && target > 0
    requires i < ResampledLength(len, orig, target)
    ensures SourceFloor(i, orig, target) < len
  {
    var q := (len * target) / orig;
    assert q * orig <= len * target;
    assert (i + 1) * orig <= q * orig by {
      assert i + 1 <= q;
    }
    assert i * orig < len * target;
    var f := (i * orig) / target;
    assert f * target <= i * orig;
    assert f < len by {
      if f >= len {
        MultiplyMonotone(len, f, target);
      }
    }
  }

  /** Output sample `i`: a[lo]·(1 − frac) + a[hi]·frac with `hi` clamped to the
      last sample. It lies between the two samples it mixes. */
  function Interpolate(a: seq<real>, orig: nat, target: nat, i: nat): (r: real)
    requires orig > 0 && target > 0
    requires i < ResampledLength(|a|, orig, target)
    ensures SourceFloor(i, orig, target) < |a|
    ensures var lo := SourceFloor(i, orig, target);
            var hi := Min(lo + 1, |a| - 1);
            (a[lo] <= r <= a[hi]) || (a[hi] <= r <= a[lo])
  {
    SourceFloorInBounds(|a|, orig, target, i);
    var lo := SourceFloor(i, orig, target);
    var hi := Min(lo + 1, |a| - 1);
    var frac := Fraction(i, orig, target);
    ConvexCombination(a[lo], a[hi], frac);
    a[lo] * (1.0 - frac) + a[hi] * frac
  }

  ghost predicate InUnitRange(s: seq<real>) {
    forall i :: 0 <= i < |s| ==> -1.0 <= s[i] <= 1.0
  }

  /** `resampleAudio(audioData, originalSampleRate, targetSampleRate)`. */
  method ResampleAudio(audio: seq<real>, orig: nat, target: nat) returns (r: seq<real>)
    requires orig > 0 && target > 0
    ensures orig == target ==> r == audio
    ensures orig != target ==> |r| == ResampledLength(|audio|, orig, target)
    ensures orig != target ==>
      forall i :: 0 <= i < |r| ==> r[i] == Interpolate(audio, orig, target, i)
    ensures |audio| == 0 ==> |r| == 0
    ensures InUnitRange(audio) ==> InUnitRange(r)
  {
    if orig == target {
      return audio;
    }
    var newLength := (|audio| * target) / orig;
    var out := new real[newLength];
    var i := 0;
    while i < newLength
      invariant 0 <= i <= newLength
      invariant forall j :: 0 <= j < i ==> out[j] == Interpolate(audio, orig, target, j)
      invariant InUnitRange(audio) ==> forall j :: 0 <= j < i ==> -1.0 <= out[j] <= 1.0
    {
      var srcIdxFloor := (i * orig) / target;
      SourceFloorInBounds(|audio|, orig, target, i);
      var srcIdxCeil := Min(srcIdxFloor + 1, |audio| - 1);
      var frac := ((i * orig) % target) as real / target as real;
      out[i] := audio[srcIdxFloor] * (1.0 - frac) + audio[srcIdxCeil] * frac;
      assert out[i] == Interpolate(audio, orig, target, i);
      i := i + 1;
    }
    r := out[..];
    if |audio| == 0 {
      assert newLength == 0;
    }
  }
}
