/** The backend's pure pre-processing (backend/main.py): segmentation of the
    decoded signal, `pad_or_truncate` on a (mel, time) array, and the
    channel axis added by `prepare_segment_for_model`. The mel spectrogram
    itself comes from librosa and is not modelled. */
module BackendFeatures {
  import opened Wrappers
  import opened Numeric
  import opened AudioConfig

  /** A 2-D numpy array: `rows` rows of exactly `cols` entries each. The column
      count is kept apart so that an array with no rows still has one. */
  datatype Matrix = Matrix(rows: seq<seq<real>>, cols: nat)

  ghost predicate ValidMatrix(m: Matrix) {
    forall r :: 0 <= r < |m.rows| ==> |m.rows[r]| == m.cols
  }

  /** numpy's `size == 0`: no rows or no columns. */
  predicate Empty(m: Matrix) { |m.rows| == 0 || m.cols == 0 }

  /** The running minimum of `row`, started from `acc`. */
  function RowMin(row: seq<real>, acc: real): (r: real)
    ensures r <= acc
    ensures forall i :: 0 <= i < |row| ==> r <= row[i]
    ensures r == acc || exists i :: 0 <= i < |row| && row[i] == r
    decreases |row|
  {
    if |row| == 0 then acc
    else
      var r := RowMin(row[1..], if row[0] < acc then row[0] else acc);
      assert forall i :: 1 <= i < |row| ==> row[i] == row[1..][i - 1];
      r
  }

  function RowsMin(rows: seq<seq<real>>, acc: real): (r: real)
    ensures r <= acc
    ensures forall f, i :: 0 <= f < |rows| && 0 <= i < |rows[f]| ==> r <= rows[f][i]
    ensures r == acc || exists f, i :: 0 <= f < |rows| && 0 <= i < |rows[f]| && rows[f][i] == r
    decreases |rows|
  {
    if |rows| == 0 then acc
    else
      var r := RowsMin(rows[1..], RowMin(rows[0], acc));
      assert forall f :: 1 <= f < |rows| ==> rows[f] == rows[1..][f - 1];
      r
  }

  /** `mel_spec.min()`: the smallest entry, or an error on an empty array
      (numpy has no identity for the minimum). */
  function GlobalMin(m: Matrix): (r: Result<real, string>)
    requires ValidMatrix(m)
    ensures r.Err? <==> Empty(m)
    ensures r.Ok? ==> forall f, i :: 0 <= f < |m.rows| && 0 <= i < m.cols ==> r.value <= m.rows[f][i]
    ensures r.Ok? ==> exists f, i :: 0 <= f < |m.rows| && 0 <= i < m.cols && m.rows[f][i] == r.value
  {
    if |m.rows| == 0 || m.cols == 0 then Err("zero-size array to reduction operation minimum")
    else
      assert |m.rows[0]| > 0;
      Ok(RowsMin(m.rows, m.rows[0][0]))
  }

  /** `pad_or_truncate(mel_spec, target_frames)`: the same rows with exactly
      `target` columns; the first columns are the input's and any added column
      holds the array's global minimum. Padding an empty array fails. */
  function PadOrTruncate(m: Matrix, target: nat): (r: Result<Matrix, string>)
    requires ValidMatrix(m)
    ensures r.Err? <==> m.cols < target && Empty(m)
    ensures r.Ok? ==> ValidMatrix(r.value) && r.value.cols == target && |r.value.rows| == |m.rows|
    ensures r.Ok? ==> forall f, i :: 0 <= f < |m.rows| && 0 <= i < Min(m.cols, target) ==>
      r.value.rows[f][i] == m.rows[f][i]
    ensures r.Ok? && m.cols < target ==> forall f, i :: 0 <= f < |m.rows| && m.cols <= i < target ==>
      r.value.rows[f][i] == GlobalMin(m).value
    ensures m.cols == target ==> r == Ok(m)
  {
    if m.cols == target then Ok(m)
    else if m.cols > target then
      Ok(Matrix(seq(|m.rows|, f requires 0 <= f < |m.rows| => m.rows[f][..target]), target))
    else
      var lowest :- GlobalMin(m);
      Ok(Matrix(seq(|m.rows|, f requires 0 <= f < |m.rows| => m.rows[f] + seq(target - m.cols, _ => lowest)), target))
  }

  /** Padding never introduces a new minimum: the padded array has the same
      global minimum as the input. */
  lemma PadKeepsMinimum(m: Matrix, target: nat)
    requires ValidMatrix(m) && !Empty(m)
    ensures PadOrTruncate(m, target).Ok?
    ensures m.cols <= target ==> GlobalMin(PadOrTruncate(m, target).value) == GlobalMin(m)
  {
    var r := PadOrTruncate(m, target);
    if m.cols <= target {
      var lo := GlobalMin(m).value;
      var p := r.value;
      var f, i :| 0 <= f < |m.rows| && 0 <= i < m.cols && m.rows[f][i] == lo;
      assert p.rows[f][i] == lo;
      forall g, j | 0 <= g < |p.rows| && 0 <= j < p.cols
        ensures lo <= p.rows[g][j]
      {
        if j < m.cols {
          assert p.rows[g][j] == m.rows[g][j];
        }
      }
      MinimumUnique(p, lo, f, i);
    }
  }

  /** An entry no larger than any other is the global minimum. */
  lemma MinimumUnique(m: Matrix, x: real, f: nat, i: nat)
    requires ValidMatrix(m)
    requires f < |m.rows| && i < m.cols && m.rows[f][i] == x
    requires forall g, j :: 0 <= g < |m.rows| && 0 <= j < m.cols ==> x <= m.rows[g][j]
    ensures GlobalMin(m) == Ok(x)
  {
  }

  /** Padding and cutting back to the original width gives the input back. */
  lemma PadThenTruncate(m: Matrix, target: nat)
    requires ValidMatrix(m) && m.cols <= target && PadOrTruncate(m, target).Ok?
    ensures PadOrTruncate(PadOrTruncate(m, target).value, m.cols) == Ok(m)
  {
    var padded := PadOrTruncate(m, target).value;
    if m.cols < target {
      var back := PadOrTruncate(padded, m.cols).value;
      assert |back.rows| == |m.rows|;
      forall f | 0 <= f < |m.rows|
        ensures back.rows[f] == m.rows[f]
      {
        assert back.rows[f] == padded.rows[f][..m.cols];
        assert |back.rows[f]| == |m.rows[f]|;
      }
      assert back.rows == m.rows;
    }
  }

  /** `prepare_segment_for_model` after the mel spectrogram: pad or truncate
      to 130 columns and add a trailing channel axis, with no transpose. The
      result has as many rows as the spectrogram; the kept columns are the
      spectrogram's own and every padding column holds its global minimum. */
  function PrepareSegment(mel: Matrix): (r: Result<seq<seq<seq<real>>>, string>)
    requires ValidMatrix(mel)
    ensures r.Err? <==> mel.cols < ExpectedTimeFrames && Empty(mel)
    ensures r.Ok? ==> |r.value| == |mel.rows|
    ensures r.Ok? ==> forall f :: 0 <= f < |r.value| ==> |r.value[f]| == ExpectedTimeFrames
    ensures r.Ok? ==> forall f, i :: 0 <= f < |mel.rows| && 0 <= i < Min(mel.cols, ExpectedTimeFrames) ==>
      r.value[f][i] == [mel.rows[f][i]]
    ensures r.Ok? && mel.cols < ExpectedTimeFrames ==>
      forall f, i :: 0 <= f < |mel.rows| && mel.cols <= i < ExpectedTimeFrames ==>
        r.value[f][i] == [GlobalMin(mel).value]
  {
    var padded :- PadOrTruncate(mel, ExpectedTimeFrames);
    Ok(AddChannelAxis(padded))
  }

  /** The first `cols` columns of a (mel, time, 1) array with the channel
      axis dropped again: `x[:, :cols, 0]`. */
  function DropChannelAxis(x: seq<seq<seq<real>>>, cols: nat): (m: Matrix)
    requires forall f :: 0 <= f < |x| ==> |x[f]| >= cols
    requires forall f, i :: 0 <= f < |x| && 0 <= i < cols ==> |x[f][i]| >= 1
    ensures ValidMatrix(m) && |m.rows| == |x| && m.cols == cols
  {
    Matrix(seq(|x|, f requires 0 <= f < |x| =>
      seq(cols, i requires 0 <= i < cols => x[f][i][0])), cols)
  }

  /** The prepared input still holds the whole spectrogram when it had at
      most 130 columns: dropping the channel axis and the padding gives the
      spectrogram back. */
  lemma PrepareSegmentRecovers(mel: Matrix)
    requires ValidMatrix(mel) && !Empty(mel) && mel.cols <= ExpectedTimeFrames
    ensures PrepareSegment(mel).Ok?
    ensures DropChannelAxis(PrepareSegment(mel).value, mel.cols) == mel
  {
    var x := PrepareSegment(mel).value;
    var back := DropChannelAxis(x, mel.cols);
    forall f | 0 <= f < |mel.rows|
      ensures back.rows[f] == mel.rows[f]
    {
      forall i | 0 <= i < mel.cols
        ensures back.rows[f][i] == mel.rows[f][i]
      {
        assert x[f][i] == [mel.rows[f][i]];
      }
    }
  }

  /** `mel_spec[:, :, np.newaxis]`. */
  function AddChannelAxis(m: Matrix): (r: seq<seq<seq<real>>>)
    requires ValidMatrix(m)
    ensures |r| == |m.rows|
    ensures forall f :: 0 <= f < |r| ==> |r[f]| == m.cols
    ensures forall f, i :: 0 <= f < |r| && 0 <= i < m.cols ==> r[f][i] == [m.rows[f][i]]
  {
    seq(|m.rows|, f requires 0 <= f < |m.rows| =>
      seq(m.cols, i requires 0 <= i < m.cols => [m.rows[f][i]]))
  }

  /** The number of segments `process_audio_file` reports: floor(L / S),
      raised to 1 for a signal of at least half a segment. */
  function SegmentCount(len: nat, size: nat): (n: nat)
    requires size > 0
    ensures n == 0 <==> len < size / 2
    ensures len >= size ==> n == len / size
    ensures size / 2 <= len < size ==> n == 1
  {
    var n := len / size;
    if n == 0 && len >= size / 2 then 1 else n
  }

  /** The segment starting at sample `start`: the slice [start, start + S)
      when it fits, otherwise the remaining samples followed by zeros. */
  function Segment(audio: seq<real>, start: nat, size: nat): (s: seq<real>)
    requires start <= |audio|
    ensures |s| == size
    ensures start + size <= |audio| ==> s == audio[start..start + size]
    ensures forall k :: 0 <= k < size ==>
      s[k] == (if start + k < |audio| then audio[start + k] else 0.0)
  {
    if start + size <= |audio| then audio[start..start + size]
    else audio[start..] + seq(size - (|audio| - start), _ => 0.0)
  }

  datatype Segmentation = Segmentation(segments: seq<seq<real>>, numSegments: nat)

  /** The segmentation of `process_audio_file`: max(1, n) segments of S
      samples, where n is SegmentCount; a full count takes the verbatim
      slices and drops the tail, and a short signal is zero-padded. */
  function SplitAudio(audio: seq<real>, size: nat): (r: Segmentation)
    requires size > 0
    ensures r.numSegments == SegmentCount(|audio|, size)
    ensures |r.segments| == if r.numSegments == 0 then 1 else r.numSegments
    ensures forall i :: 0 <= i < |r.segments| ==> |r.segments[i]| == size
    ensures forall i :: 0 <= i < |r.segments| ==> i * size <= |audio| && r.segments[i] == Segment(audio, i * size, size)
  {
    var n := SegmentCount(|audio|, size);
    var count := if n == 0 then 1 else n;
    AllSegmentsFit(|audio|, size);
    Segmentation(seq(count, i requires 0 <= i < count => Segment(audio, i * size, size)), n)
  }

  lemma AllSegmentsFit(len: nat, size: nat)
    requires size > 0
    ensures var n := SegmentCount(len, size);
      forall i: nat :: i < (if n == 0 then 1 else n) ==> i * size <= len
  {
    var n := SegmentCount(len, size);
    forall i: nat | i < (if n == 0 then 1 else n)
      ensures i * size <= len
    {
      SegmentFits(len, size, i);
    }
  }

  /** Every emitted segment starts inside the signal, and with a full count
      it also ends inside it. */
  lemma SegmentFits(len: nat, size: nat, i: nat)
    requires size > 0
    requires i < (if SegmentCount(len, size) == 0 then 1 else SegmentCount(len, size))
    ensures i * size <= len
    ensures len >= size ==> i * size + size <= len
  {
    if len >= size {
      MultiplyMonotone(i + 1, len / size, size);
      assert (i + 1) * size == i * size + size;
    }
  }

  /** With at least one full segment, every segment is the verbatim slice
      and the tail past the last full segment is dropped. */
  lemma SplitAudioSlices(audio: seq<real>, size: nat)
    requires size > 0 && |audio| >= size
    ensures var r := SplitAudio(audio, size);
      && |r.segments| == |audio| / size
      && forall i :: 0 <= i < |r.segments| ==>
           i * size + size <= |audio| && r.segments[i] == audio[i * size..i * size + size]
  {
    var r := SplitAudio(audio, size);
    var n := SegmentCount(|audio|, size);
    assert n == |audio| / size;
    assert n >= 1;
    forall i | 0 <= i < n
      ensures i * size + size <= |audio| && r.segments[i] == audio[i * size..i * size + size]
    {
      SegmentFits(|audio|, size, i);
      var s := Segment(audio, i * size, size);
      assert r.segments[i] == s;
    }
  }

  /** A signal of at least half but less than one segment becomes a single
      segment: its samples followed by zeros. */
  lemma SplitAudioPadsShort(audio: seq<real>, size: nat)
    requires size > 0 && size / 2 <= |audio| < size
    ensures var r := SplitAudio(audio, size);
      && r.numSegments == 1
      && r.segments == [audio + seq(size - |audio|, _ => 0.0)]
  {
  }

  /** A signal shorter than half a segment still yields one padded segment,
      but reports a count of zero. */
  lemma ShortAudioReportsZero(audio: seq<real>)
    requires |audio| < SamplesPerSegment / 2
    ensures SplitAudio(audio, SamplesPerSegment).numSegments == 0
    ensures |SplitAudio(audio, SamplesPerSegment).segments| == 1
  {
  }
}
