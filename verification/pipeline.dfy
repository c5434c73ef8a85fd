/** The browser pipeline from decoded audio to model inputs
    (`processAudioFile`, `processSegmentForModel`, `prepareAudioForModel` in
    src/lib/audioProcessor.ts). Decoding the file is outside the model: the
    decoded channels and their sample rate are parameters. */
module Pipeline {
  import opened Numeric
  import opened AudioConfig
  import opened MelFilterbank
  import opened Resample
  import opened Spectrogram
  import opened Decibel
  import opened Shaping

  /** The `amin` floor of the dB conversion (1e-10). */
  const AMin: real := 0.0000000001

  /** The first channel alone, or the average of the first two. */
  function MixToMono(channels: seq<seq<real>>): (mono: seq<real>)
    requires |channels| >= 1
    requires forall c :: 0 <= c < |channels| ==> |channels[c]| == |channels[0]|
    ensures |mono| == |channels[0]|
    ensures |channels| == 1 ==> mono == channels[0]
    ensures |channels| >= 2 ==> forall i :: 0 <= i < |mono| ==>
      mono[i] == (channels[0][i] + channels[1][i]) / 2.0
    ensures |channels| >= 2 ==> forall i :: 0 <= i < |mono| ==>
      Minimum(channels[0][i], channels[1][i]) <= mono[i] <= MaxReal(channels[0][i], channels[1][i])
  {
    if |channels| == 1 then channels[0]
    else seq(|channels[0]|, i requires 0 <= i < |channels[0]| => (channels[0][i] + channels[1][i]) / 2.0)
  }

  function Minimum(a: real, b: real): real { if a <= b then a else b }

  /** The segmentation loop of `processAudioFile`: floor(L / S) consecutive
      segments of S samples; the trailing partial segment is dropped. The
      source's `segment.length === S` test always holds. */
  method SplitSegments(data: seq<real>, size: nat) returns (segments: seq<seq<real>>)
    requires size > 0
    ensures |segments| == |data| / size
    ensures forall i :: 0 <= i < |segments| ==> |segments[i]| == size
    ensures forall i :: 0 <= i < |segments| ==>
      i * size + size <= |data| && segments[i] == data[i * size..i * size + size]
    ensures Concat(segments) == data[..|segments| * size]
  {
    var numSegments := |data| / size;
    segments := [];
    var i := 0;
    while i < numSegments
      invariant 0 <= i <= numSegments
      invariant SplitSoFar(data, size, segments, i)
    {
      segments := NextSegment(data, size, segments, i);
      i := i + 1;
    }
  }

  /** The first `i` segments are in place and laid end to end they give the
      first i · size samples. */
  ghost predicate SplitSoFar(data: seq<real>, size: nat, segments: seq<seq<real>>, i: nat) {
    && |segments| == i
    && i * size <= |data|
    && (forall j :: 0 <= j < i ==> |segments[j]| == size)
    && (forall j :: 0 <= j < i ==>
          j * size + size <= |data| && segments[j] == data[j * size..j * size + size])
    && Concat(segments) == data[..i * size]
  }

  /** One turn of the segmentation loop. */
  method NextSegment(data: seq<real>, size: nat, segments: seq<seq<real>>, i: nat) returns (segments': seq<seq<real>>)
    requires size > 0 && i < |data| / size
    requires SplitSoFar(data, size, segments, i)
    ensures SplitSoFar(data, size, segments', i + 1)
  {
    SegmentFits(|data|, size, i);
    var start := i * size;
    var segment := data[start..start + size];
    segments' := segments;
    if |segment| == size {
      ConcatAppend(segments, segment);
      assert data[..start + size] == data[..start] + segment;
      segments' := segments + [segment];
      assert forall j :: 0 <= j < i ==> segments'[j] == segments[j];
    }
  }

  lemma SegmentFits(len: nat, size: nat, i: nat)
    requires size > 0 && i < len / size
    ensures i * size + size <= len
    ensures (i + 1) * size == i * size + size
  {
    MultiplyMonotone(i + 1, len / size, size);
  }

  /** The segments laid end to end. */
  function Concat(segments: seq<seq<real>>): seq<real> {
    if |segments| == 0 then [] else Concat(segments[..|segments| - 1]) + segments[|segments| - 1]
  }

  lemma ConcatAppend(segments: seq<seq<real>>, s: seq<real>)
    ensures Concat(segments + [s]) == Concat(segments) + s
  {
    assert (segments + [s])[..|segments|] == segments;
  }

  datatype DecodedAudio = DecodedAudio(segments: seq<seq<real>>, sampleRate: nat, duration: real)

  /** `processAudioFile(file)` after decoding: mix to mono, resample to
      22050 Hz, and split into 3 s segments. Sample k of segment i is sample
      i · 66150 + k of the mixed signal, interpolated at the new rate when
      the clip's rate differs; the duration is the resampled length in
      seconds. */
  method ProcessAudioFile(channels: seq<seq<real>>, rate: nat) returns (r: DecodedAudio)
    requires rate > 0 && |channels| >= 1
    requires forall c :: 0 <= c < |channels| ==> |channels[c]| == |channels[0]|
    ensures r.sampleRate == SampleRate
    ensures forall i :: 0 <= i < |r.segments| ==> |r.segments[i]| == SamplesPerSegment
    ensures rate == SampleRate ==> |r.segments| == |channels[0]| / SamplesPerSegment
    ensures rate == SampleRate ==> r.duration == |channels[0]| as real / SampleRate as real
    ensures rate != SampleRate ==>
      |r.segments| == ResampledLength(|channels[0]|, rate, SampleRate) / SamplesPerSegment
    ensures rate != SampleRate ==>
      r.duration == ResampledLength(|channels[0]|, rate, SampleRate) as real / SampleRate as real
    ensures forall i, k :: 0 <= i < |r.segments| && 0 <= k < SamplesPerSegment ==>
      r.segments[i][k] ==
        if rate == SampleRate then MixToMono(channels)[i * SamplesPerSegment + k]
        else Interpolate(MixToMono(channels), rate, SampleRate, i * SamplesPerSegment + k)
  {
    var mono := MixToMono(channels);
    var resampled := ResampleAudio(mono, rate, SampleRate);
    var segments := SplitSegments(resampled, SamplesPerSegment);
    r := DecodedAudio(segments, SampleRate, |resampled| as real / SampleRate as real);
  }

  /** Every entry of a model input is a single value in [−80, 0] dB. */
  ghost predicate ModelInputInRange(x: seq<seq<seq<real>>>) {
    forall m, f :: 0 <= m < |x| && 0 <= f < |x[m]| ==>
      |x[m][f]| == 1 && -TopDb <= x[m][f][0] <= 0.0
  }

  /** N_FFT = 2048 = 2^11, so the radix-2 FFT applies. */
  lemma FrameSizeIsPow2()
    ensures IsPow2(NFft)
  {
    assert Pow2(11) == NFft;
  }

  /** The default filterbank has no zero-width falling edge. */
  ghost predicate DefaultBankNondegenerate(t: Transcendentals) {
    Nondegenerate(BinPoints(t, NMels, NFft, SampleRate, MelFMin, MelFMax))
  }

  /** `processSegmentForModel(segment)`: a 128 × 130 × 1 input whose values lie
      in [−80, 0] dB; frames past the segment's own frame count are padding. */
  method ProcessSegmentForModel(t: Transcendentals, segment: seq<real>) returns (x: seq<seq<seq<real>>>)
    requires DefaultBankNondegenerate(t)
    ensures |x| == NMels
    ensures forall m :: 0 <= m < |x| ==> |x[m]| == ExpectedTimeFrames
    ensures forall m, f :: 0 <= m < |x| && 0 <= f < |x[m]| ==> |x[m][f]| == 1
    ensures forall m, f :: 0 <= m < |x| && 0 <= f < |x[m]| ==> x[m][f][0] >= -TopDb
    ensures Log10Axioms(t) ==> ModelInputInRange(x)
    ensures forall m, f :: 0 <= m < |x| && FrameCount(|segment|, NFft, HopLength) <= f < ExpectedTimeFrames ==>
      x[m][f] == [PadValue]
  {
    var logMelSpec := LogMelSpectrogram(t, segment);
    var paddedSpec := PadOrTruncateTimeFrames(logMelSpec, ExpectedTimeFrames);
    PaddedInRange(logMelSpec, paddedSpec, Log10Axioms(t));
    x := MelSpectrogramToTensor(paddedSpec);
  }

  /** The mel spectrogram of a segment in dB: one row of NMels values in
      [−80, 0] per frame. */
  method LogMelSpectrogram(t: Transcendentals, segment: seq<real>) returns (spec: seq<seq<real>>)
    requires DefaultBankNondegenerate(t)
    ensures |spec| == FrameCount(|segment|, NFft, HopLength)
    ensures forall f :: 0 <= f < |spec| ==> |spec[f]| == NMels
    ensures forall f, m :: 0 <= f < |spec| && 0 <= m < |spec[f]| ==> spec[f][m] >= -TopDb
    ensures Log10Axioms(t) ==> forall f, m :: 0 <= f < |spec| && 0 <= m < |spec[f]| ==> spec[f][m] <= 0.0
  {
    FrameSizeIsPow2();
    var melSpec := ExtractMelSpectrogram(t, segment, SampleRate, NMels, NFft, HopLength);
    spec := PowerToDb(t, melSpec, AMin, TopDb);
  }

  /** Padding a spectrogram of NMels-wide rows in [−80, 0] to 130 frames keeps
      every row NMels wide and every value in range. */
  lemma PaddedInRange(spec: seq<seq<real>>, padded: seq<seq<real>>, upper: bool)
    requires forall f :: 0 <= f < |spec| ==> |spec[f]| == NMels
    requires forall f, m :: 0 <= f < |spec| && 0 <= m < |spec[f]| ==> spec[f][m] >= -TopDb
    requires upper ==> forall f, m :: 0 <= f < |spec| && 0 <= m < |spec[f]| ==> spec[f][m] <= 0.0
    requires padded == PadOrTruncateTimeFrames(spec, ExpectedTimeFrames)
    ensures NumMels(padded) == NMels && WideEnough(padded)
    ensures forall f :: 0 <= f < |padded| ==> |padded[f]| == NMels
    ensures forall f, m :: 0 <= f < |padded| && 0 <= m < |padded[f]| ==> padded[f][m] >= -TopDb
    ensures upper ==> forall f, m :: 0 <= f < |padded| && 0 <= m < |padded[f]| ==> padded[f][m] <= 0.0
  {
    assert NumMels(spec) == NMels;
    forall f | 0 <= f < |padded|
      ensures |padded[f]| == NMels
      ensures forall m :: 0 <= m < |padded[f]| ==> -TopDb <= padded[f][m] && (upper ==> padded[f][m] <= 0.0)
    {
      if f < |spec| {
        assert padded[f] == spec[f];
      } else {
        assert padded[f] == seq(NMels, _ => PadValue);
      }
    }
  }

  /** A full 3 s segment fills 126 frames, so the last four time steps of
      every mel row are −80 dB padding. */
  lemma FullSegmentPadding(segmentLength: nat)
    requires segmentLength == SamplesPerSegment
    ensures FrameCount(segmentLength, NFft, HopLength) == 126
  {
  }

  datatype ProcessedAudio = ProcessedAudio(tensorData: seq<seq<seq<seq<real>>>>, numSegments: nat, duration: real)

  /** `prepareAudioForModel(file)` after decoding: one model input per
      segment. */
  method PrepareAudioForModel(t: Transcendentals, channels: seq<seq<real>>, rate: nat) returns (r: ProcessedAudio)
    requires rate > 0 && |channels| >= 1
    requires forall c :: 0 <= c < |channels| ==> |channels[c]| == |channels[0]|
    requires DefaultBankNondegenerate(t)
    ensures r.numSegments == |r.tensorData|
    ensures rate == SampleRate ==> r.numSegments == |channels[0]| / SamplesPerSegment
    ensures rate != SampleRate ==>
      r.numSegments == ResampledLength(|channels[0]|, rate, SampleRate) / SamplesPerSegment
    ensures r.duration ==
      (if rate == SampleRate then |channels[0]| else ResampledLength(|channels[0]|, rate, SampleRate)) as real
        / SampleRate as real
    ensures forall s :: 0 <= s < |r.tensorData| ==> |r.tensorData[s]| == NMels
    ensures forall s, m :: 0 <= s < |r.tensorData| && 0 <= m < NMels ==>
      |r.tensorData[s][m]| == ExpectedTimeFrames
    ensures Log10Axioms(t) ==> forall s :: 0 <= s < |r.tensorData| ==> ModelInputInRange(r.tensorData[s])
    ensures forall s, m, f :: 0 <= s < |r.tensorData| && 0 <= m < NMels && 126 <= f < ExpectedTimeFrames ==>
      r.tensorData[s][m][f] == [PadValue]
  {
    var decoded := ProcessAudioFile(channels, rate);
    var tensorData := [];
    var i := 0;
    while i < |decoded.segments|
      invariant 0 <= i <= |decoded.segments|
      invariant |tensorData| == i
      invariant forall s :: 0 <= s < i ==> |tensorData[s]| == NMels
      invariant forall s, m :: 0 <= s < i && 0 <= m < NMels ==> |tensorData[s][m]| == ExpectedTimeFrames
      invariant Log10Axioms(t) ==> forall s :: 0 <= s < i ==> ModelInputInRange(tensorData[s])
      invariant forall s, m, f :: 0 <= s < i && 0 <= m < NMels && 126 <= f < ExpectedTimeFrames ==>
        tensorData[s][m][f] == [PadValue]
    {
      var segment := decoded.segments[i];
      FullSegmentPadding(|segment|);
      var x := ProcessSegmentForModel(t, segment);
      tensorData := tensorData + [x];
      i := i + 1;
    }
    r := ProcessedAudio(tensorData, |decoded.segments|, decoded.duration);
  }
}
