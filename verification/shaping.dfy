/** Shaping a log-mel spectrogram into the classifier's input
    (`padOrTruncateTimeFrames`, `melSpectrogramToTensor`,
    `getExpectedTimeFrames` in src/lib/audioProcessor.ts). A spectrogram is a
    sequence of time frames, each a sequence of mel values. */
module Shaping {
  import opened Numeric
  import opened AudioConfig
  import opened Spectrogram

  /** The padding value of a missing time frame (−80 dB). */
  const PadValue: real := -80.0

  /** `melSpectrogram[0]?.length || N_MELS`: the width of the first frame, or
      N_MELS when there is no frame or the first one is empty. */
  function NumMels(spec: seq<seq<real>>): (n: nat)
    ensures n > 0
    ensures |spec| > 0 && |spec[0]| > 0 ==> n == |spec[0]|
    ensures |spec| == 0 || |spec[0]| == 0 ==> n == NMels
  {
    if |spec| == 0 || |spec[0]| == 0 then NMels else |spec[0]|
  }

  /** `padOrTruncateTimeFrames(melSpectrogram, targetFrames)`: exactly
      `target` frames; the first ones are the input's, and any added frame is
      NumMels entries of −80. */
  function PadOrTruncateTimeFrames(spec: seq<seq<real>>, target: nat): (r: seq<seq<real>>)
    ensures |r| == target
    ensures forall f :: 0 <= f < Min(|spec|, target) ==> r[f] == spec[f]
    ensures forall f :: |spec| <= f < target ==> r[f] == seq(NumMels(spec), _ => PadValue)
  {
    if |spec| == target then spec
    else if |spec| > target then spec[..target]
    else spec + seq(target - |spec|, _ => seq(NumMels(spec), _ => PadValue))
  }

  /** Padding and then cutting back to the original length gives the
      original frames back. */
  lemma PadThenTruncate(spec: seq<seq<real>>, target: nat)
    requires |spec| <= target
    ensures PadOrTruncateTimeFrames(PadOrTruncateTimeFrames(spec, target), |spec|) == spec
  {
    var padded := PadOrTruncateTimeFrames(spec, target);
    assert padded[..|spec|] == spec;
  }

  /** Shaping a spectrogram that already has the target length changes
      nothing, so shaping twice is shaping once. */
  lemma PadOrTruncateIdempotent(spec: seq<seq<real>>, target: nat)
    ensures PadOrTruncateTimeFrames(PadOrTruncateTimeFrames(spec, target), target)
         == PadOrTruncateTimeFrames(spec, target)
  {
  }

  /** Every frame has at least NumMels entries, so every read of the
      transposition is in range. */
  ghost predicate WideEnough(spec: seq<seq<real>>) {
    forall f :: 0 <= f < |spec| ==> |spec[f]| >= NumMels(spec)
  }

  /** Every frame has exactly NumMels entries. */
  ghost predicate Rectangular(spec: seq<seq<real>>) {
    forall f :: 0 <= f < |spec| ==> |spec[f]| == NumMels(spec)
  }

  /** `melSpectrogramToTensor(melSpectrogram)`: the (time, mel) array
      transposed to (mel, time, 1). */
  function MelSpectrogramToTensor(spec: seq<seq<real>>): (r: seq<seq<seq<real>>>)
    requires WideEnough(spec)
    ensures |r| == NumMels(spec)
    ensures forall m :: 0 <= m < |r| ==> |r[m]| == |spec|
    ensures forall m, f :: 0 <= m < |r| && 0 <= f < |spec| ==> r[m][f] == [spec[f][m]]
  {
    seq(NumMels(spec), m requires 0 <= m < NumMels(spec) =>
      seq(|spec|, f requires 0 <= f < |spec| => [spec[f][m]]))
  }

  /** The inverse reading of a (mel, time, 1) tensor back into time frames. */
  function TensorToMelSpectrogram(tensor: seq<seq<seq<real>>>): (r: seq<seq<real>>)
    requires forall m :: 0 <= m < |tensor| ==> |tensor[m]| == |tensor[0]|
    requires forall m, f :: 0 <= m < |tensor| && 0 <= f < |tensor[m]| ==> |tensor[m][f]| == 1
    ensures |tensor| > 0 ==> |r| == |tensor[0]|
    ensures forall f :: 0 <= f < |r| ==> |r[f]| == |tensor|
  {
    var frames := if |tensor| == 0 then 0 else |tensor[0]|;
    seq(frames, f requires 0 <= f < frames => seq(|tensor|, m requires 0 <= m < |tensor| => tensor[m][f][0]))
  }

  /** Transposing into a tensor and reading it back is the identity on a
      rectangular spectrogram. */
  lemma TensorRoundTrip(spec: seq<seq<real>>)
    requires Rectangular(spec)
    ensures var tensor := MelSpectrogramToTensor(spec);
            TensorToMelSpectrogram(tensor) == spec
  {
    var tensor := MelSpectrogramToTensor(spec);
    var back := TensorToMelSpectrogram(tensor);
    assert |back| == |spec|;
    forall f | 0 <= f < |spec|
      ensures back[f] == spec[f]
    {
      assert |back[f]| == |spec[f]|;
    }
  }

  /** `getExpectedTimeFrames()`: the frame count of one segment. */
  function GetExpectedTimeFrames(): (n: nat)
    ensures n == FrameCount(SamplesPerSegment, NFft, HopLength)
  {
    (SamplesPerSegment - NFft) / HopLength + 1
  }

  /** A 3 s segment yields 126 frames, fewer than the model's 130, so the last
      four frames of every model input are padding. */
  lemma SegmentFrames()
    ensures GetExpectedTimeFrames() == 126
    ensures GetExpectedTimeFrames() < ExpectedTimeFrames
  {
  }
}
