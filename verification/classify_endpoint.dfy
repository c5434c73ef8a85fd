/** The pure decisions of the `/classify` handler (backend/main.py): the
    upload-type acceptance rule and the composition of segmentation,
    per-segment preparation, averaging and ranking. Decoding, librosa's mel
    spectrogram and the Keras model are parameters. */
module ClassifyEndpoint {
  import opened Wrappers
  import opened AudioConfig
  import opened BackendFeatures
  import opened GenreRanking
  import opened Strings

  const AudioExtensions: seq<string> := [".wav", ".mp3", ".ogg", ".flac"]

  /** The upload check of `classify_audio`: a content type mentioning "audio"
      or "octet-stream", or else a non-empty file name ending, in any letter
      case, with one of the four audio extensions. A missing content type is
      the empty string. */
  function AcceptsUpload(contentType: Option<string>, filename: Option<string>): (ok: bool)
    ensures ok <==>
      || (contentType.Some? && exists i :: OccursAt(contentType.value, "audio", i))
      || (contentType.Some? && exists i :: OccursAt(contentType.value, "octet-stream", i))
      || (filename.Some? && filename.value != "" &&
          exists e :: 0 <= e < |AudioExtensions| && EndsWith(Lower(filename.value), AudioExtensions[e]))
  {
    var ct := if contentType.Some? then contentType.value else "";
    assert !exists i :: OccursAt("", "audio", i);
    assert !exists i :: OccursAt("", "octet-stream", i);
    if Contains(ct, "audio") || Contains(ct, "octet-stream") then true
    else if filename.None? || filename.value == "" then false
    else
      var lower := Lower(filename.value);
      assert (exists e :: 0 <= e < |AudioExtensions| && EndsWith(lower, AudioExtensions[e])) <==>
        EndsWith(lower, ".wav") || EndsWith(lower, ".mp3") || EndsWith(lower, ".ogg") || EndsWith(lower, ".flac")
      by {
        assert AudioExtensions[0] == ".wav" && AudioExtensions[1] == ".mp3";
        assert AudioExtensions[2] == ".ogg" && AudioExtensions[3] == ".flac";
      }
      EndsWith(lower, ".wav") || EndsWith(lower, ".mp3") || EndsWith(lower, ".ogg") || EndsWith(lower, ".flac")
  }

  /** An audio content type is accepted whatever the file name. */
  lemma AcceptsAudioType()
    ensures AcceptsUpload(Some("audio/mpeg"), None)
  {
    assert OccursAt("audio/mpeg", "audio", 0);
  }

  /** So is a generic binary stream. */
  lemma AcceptsOctetStream()
    ensures AcceptsUpload(Some("application/octet-stream"), Some("x"))
  {
    assert OccursAt("application/octet-stream", "octet-stream", 12);
  }

  /** Without a content type, the extension decides, in any letter case. */
  lemma AcceptsUpperCaseExtension()
    ensures AcceptsUpload(None, Some("Song.WAV"))
  {
    assert Lower("Song.WAV") == "song.wav";
  }

  /** A text file with an empty content type is refused, and so is an
      upload with neither a content type nor a name. */
  lemma RejectsOthers()
    ensures !AcceptsUpload(Some(""), Some("notes.txt"))
    ensures !AcceptsUpload(None, None)
  {
    assert Lower("notes.txt") == "notes.txt";
  }

  datatype HttpError = HttpError(status: nat, detail: string)

  datatype ClassificationResult = ClassificationResult(
    predictions: seq<GenrePrediction>,
    topGenre: string,
    topConfidence: real,
    duration: real,
    numSegments: nat,
    sampleRate: nat)

  /** The mel spectrogram of every segment, in order. */
  function Spectrograms(segments: seq<seq<real>>, melSpectrogram: seq<real> -> Matrix): (mels: seq<Matrix>)
    ensures |mels| == |segments|
    ensures forall i :: 0 <= i < |segments| ==> mels[i] == melSpectrogram(segments[i])
  {
    seq(|segments|, i requires 0 <= i < |segments| => melSpectrogram(segments[i]))
  }

  ghost predicate AllValid(mels: seq<Matrix>) {
    forall i :: 0 <= i < |mels| ==> ValidMatrix(mels[i])
  }

  /** Every spectrogram can be prepared. */
  ghost predicate AllPrepared(mels: seq<Matrix>)
    requires AllValid(mels)
  {
    forall i :: 0 <= i < |mels| ==> PrepareSegment(mels[i]).Ok?
  }

  /** `prepare_segment_for_model` on every segment's spectrogram, in order. */
  function Preparations(mels: seq<Matrix>): (rs: seq<Result<seq<seq<seq<real>>>, string>>)
    requires AllValid(mels)
    ensures |rs| == |mels|
    ensures forall i :: 0 <= i < |mels| ==> rs[i] == PrepareSegment(mels[i])
  {
    seq(|mels|, i requires 0 <= i < |mels| => PrepareSegment(mels[i]))
  }

  const InvalidType := "Invalid file type. Please upload an audio file (WAV, MP3, OGG, or FLAC)"
  const TooShort := "Audio file too short. Minimum duration is ~1.5 seconds."

  /** The classifier's output shape: one row of |Genres| scores per input. */
  ghost predicate PredictsGenres(predict: seq<seq<seq<seq<real>>>> -> seq<seq<real>>) {
    forall x :: |predict(x)| == |x| && Rectangular(predict(x), |Genres|)
  }

  /** Every spectrogram has the same number of mel bands. Prepared inputs
      all have 130 frames of one channel, so this is exactly when
      `np.stack` can build the batch. */
  ghost predicate SameBands(mels: seq<Matrix>) {
    forall i, k :: 0 <= i < |mels| && 0 <= k < |mels| ==> |mels[i].rows| == |mels[k].rows|
  }

  /** `np.stack(segment_inputs, axis=0)`: the batch, or numpy's error when
      the inputs differ in shape. */
  function Stack(inputs: seq<seq<seq<seq<real>>>>): (r: Result<seq<seq<seq<seq<real>>>>, string>)
    ensures r.Ok? <==> forall i, k :: 0 <= i < |inputs| && 0 <= k < |inputs| ==> |inputs[i]| == |inputs[k]|
    ensures r.Ok? ==> r.value == inputs
  {
    if forall i, k :: 0 <= i < |inputs| && 0 <= k < |inputs| ==> |inputs[i]| == |inputs[k]| then Ok(inputs)
    else Err("all input arrays must have the same shape")
  }

  datatype Outcome = Outcome(predictions: seq<GenrePrediction>, topGenre: string, topConfidence: real)

  /** The inference half of `classify_audio`: prepare every segment, stack
      the batch, run the model, average per genre, rank, and take the first
      entry as the top genre. A failure of either step is a 500. */
  function Infer(
    segments: seq<seq<real>>,
    melSpectrogram: seq<real> -> Matrix,
    predict: seq<seq<seq<seq<real>>>> -> seq<seq<real>>)
    : (r: Result<Outcome, HttpError>)
    requires |segments| >= 1
    requires forall a :: ValidMatrix(melSpectrogram(a))
    requires PredictsGenres(predict)
    ensures var mels := Spectrograms(segments, melSpectrogram);
      r.Err? <==> !AllPrepared(mels) || !SameBands(mels)
    ensures r.Err? ==> r.error.status == 500
    ensures r.Ok? ==>
      var inputs := AllOk(Preparations(Spectrograms(segments, melSpectrogram))).value;
      && r.value.predictions == RankPredictions(MeanPredictions(predict(inputs), |Genres|))
      && r.value.topGenre == r.value.predictions[0].genre
      && r.value.topConfidence == r.value.predictions[0].confidence
  {
    var mels := Spectrograms(segments, melSpectrogram);
    var prepared := AllOk(Preparations(mels));
    if prepared.Err? then Err(HttpError(500, "Classification failed: " + prepared.error))
    else
      var batch := Stack(prepared.value);
      assert batch.Ok? <==> SameBands(mels) by {
        forall i | 0 <= i < |mels|
          ensures |prepared.value[i]| == |mels[i].rows|
        {
          assert Preparations(mels)[i] == Ok(prepared.value[i]);
        }
      }
      if batch.Err? then Err(HttpError(500, "Classification failed: " + batch.error))
      else
        var preds := predict(batch.value);
        var ranked := RankPredictions(MeanPredictions(preds, |Genres|));
        Ok(Outcome(ranked, ranked[0].genre, ranked[0].confidence))
  }

  /** With librosa's fixed 128 bands and at least one frame per segment,
      inference always succeeds. */
  lemma InferSucceeds(
    segments: seq<seq<real>>,
    melSpectrogram: seq<real> -> Matrix,
    predict: seq<seq<seq<seq<real>>>> -> seq<seq<real>>)
    requires |segments| >= 1
    requires forall a :: ValidMatrix(melSpectrogram(a))
    requires forall a :: |melSpectrogram(a).rows| == NMels && melSpectrogram(a).cols >= 1
    requires PredictsGenres(predict)
    ensures Infer(segments, melSpectrogram, predict).Ok?
  {
    var mels := Spectrograms(segments, melSpectrogram);
    forall i | 0 <= i < |mels|
      ensures PrepareSegment(mels[i]).Ok?
    {
      assert mels[i] == melSpectrogram(segments[i]);
    }
  }

  /** An accepted clip of at least half a segment is classified whenever
      librosa yields its fixed 128 bands and at least one frame. */
  lemma ClassifySucceeds(
    contentType: Option<string>,
    filename: Option<string>,
    audio: seq<real>,
    melSpectrogram: seq<real> -> Matrix,
    predict: seq<seq<seq<seq<real>>>> -> seq<seq<real>>)
    requires forall a :: ValidMatrix(melSpectrogram(a))
    requires forall a :: |melSpectrogram(a).rows| == NMels && melSpectrogram(a).cols >= 1
    requires PredictsGenres(predict)
    requires AcceptsUpload(contentType, filename) && |audio| >= SamplesPerSegment / 2
    ensures Classify(contentType, filename, audio, melSpectrogram, predict).Ok?
  {
    InferSucceeds(SplitAudio(audio, SamplesPerSegment).segments, melSpectrogram, predict);
  }

  /** `classify_audio` on a decoded upload. Returns 400 for a rejected type
      or a signal shorter than half a segment, 500 when a segment cannot be
      prepared or the batch cannot be stacked, and otherwise the ranked mean
      predictions with the clip's duration in seconds. */
  function Classify(
    contentType: Option<string>,
    filename: Option<string>,
    audio: seq<real>,
    melSpectrogram: seq<real> -> Matrix,
    predict: seq<seq<seq<seq<real>>>> -> seq<seq<real>>)
    : (r: Result<ClassificationResult, HttpError>)
    requires forall a :: ValidMatrix(melSpectrogram(a))
    requires PredictsGenres(predict)
    ensures !AcceptsUpload(contentType, filename) ==> r == Err(HttpError(400, InvalidType))
    ensures AcceptsUpload(contentType, filename) && SegmentCount(|audio|, SamplesPerSegment) == 0 ==>
      r == Err(HttpError(400, TooShort))
    ensures r.Err? && r.error.status == 400 <==>
      !AcceptsUpload(contentType, filename) || SegmentCount(|audio|, SamplesPerSegment) == 0
    ensures r.Err? && r.error.status == 500 <==>
      && AcceptsUpload(contentType, filename)
      && SegmentCount(|audio|, SamplesPerSegment) > 0
      && Infer(SplitAudio(audio, SamplesPerSegment).segments, melSpectrogram, predict).Err?
    ensures r.Err? ==> r.error.status == 400 || r.error.status == 500
    ensures r.Ok? <==>
      && AcceptsUpload(contentType, filename)
      && SegmentCount(|audio|, SamplesPerSegment) > 0
      && Infer(SplitAudio(audio, SamplesPerSegment).segments, melSpectrogram, predict).Ok?
    ensures r.Ok? ==>
      var split := SplitAudio(audio, SamplesPerSegment);
      var outcome := Infer(split.segments, melSpectrogram, predict);
      && r.value.numSegments == split.numSegments >= 1
      && r.value.predictions == outcome.value.predictions
      && r.value.topGenre == outcome.value.topGenre
      && r.value.topConfidence == outcome.value.topConfidence
      && r.value.duration == |audio| as real / SampleRate as real
      && r.value.sampleRate == SampleRate
  {
    if !AcceptsUpload(contentType, filename) then Err(HttpError(400, InvalidType))
    else
      var split := SplitAudio(audio, SamplesPerSegment);
      var duration := |audio| as real / SampleRate as real;
      if split.numSegments == 0 then Err(HttpError(400, TooShort))
      else
        var outcome :- Infer(split.segments, melSpectrogram, predict);
        Ok(ClassificationResult(outcome.predictions, outcome.topGenre, outcome.topConfidence,
          duration, split.numSegments, SampleRate))
  }
}
