/** The training-time configuration that the browser pipeline and the
    backend both hard-code: a 22050 Hz sample rate, 128 mel bands, a
    2048-sample FFT with hop 512, 3-second segments of 130 frames, an 80 dB
    floor, and a mel band from 0 Hz to 11025 Hz. */
module AudioConfig {
  const SampleRate: nat := 22050
  const NMels: nat := 128
  const NFft: nat := 2048
  const HopLength: nat := 512
  const SegmentDuration: nat := 3
  const SamplesPerSegment: nat := SampleRate * SegmentDuration
  const ExpectedTimeFrames: nat := 130
  /** The floor of the dB scale, used as padding value by the browser pipeline. */
  const TopDb: real := 80.0
  const MelFMin: real := 0.0
  /** MEL_F_MAX is half of the fixed SAMPLE_RATE, not of the rate passed in. */
  const MelFMax: real := 11025.0
}
