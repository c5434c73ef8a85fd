# Music genre classifier and mood-journey playlist — a Dafny model

This project models the computational core of a web app with two features.
The first classifies a music clip into one of the ten GTZAN genres with a
convolutional-recurrent network. The second builds a playlist that walks
from the listener's current mood to a target mood on the valence/arousal
plane.

The model covers five parts of the code:

- **Browser feature pipeline** (`src/lib/audioProcessor.ts`). Mixing to
  mono, linear resampling to 22050 Hz, cutting into 3-second segments,
  the Hann window, the radix-2 FFT (bit-reversal permutation and
  butterflies), the power spectrum, the triangular mel filterbank, the
  mel projection, the power-to-dB conversion with its 80 dB floor,
  padding or truncating to 130 frames, and the transpose into a
  (mel, time, 1) tensor.
- **Pure part of the Python backend** (`backend/main.py`). The
  upload-type check, segment counting with padding of a short clip,
  padding a spectrogram with its own minimum, the channel axis,
  averaging the per-segment predictions, the stable descending sort of
  the ten genres, the two 400 responses of `/classify`, and its 500
  responses from preparing and stacking the segments.
- **Mood engine** (`src/lib/moodEngine.ts`). The Euclidean mood
  distance, the linear mood path, nearest-centroid clustering, song
  scoring, the greedy playlist builder, the explanation sentence and the
  playlist metrics.
- **Model-JSON rewriters** (`clean_model_json.py`). These make a Keras 3
  export loadable by TensorFlow.js: replacing DTypePolicy objects,
  renaming the InputLayer batch shape, converting Keras 3 `inbound_nodes`
  to the Keras 2 nested-list form, and dropping `/lstm_cell/` from
  weight names.
- **Conversion script** (`convert_model.py`). Its copy of the dtype
  cleaner, applied to `modelTopology`.

How the model is set up:

- **Real arithmetic.** Numbers are exact reals.
- **Transcendental functions as parameters.** `Math.cos`, `Math.sin`,
  `Math.log10`, `Math.pow(10, _)`, `Math.sqrt` and π are fields of a
  `Transcendentals` record passed as a parameter. A contract that needs
  a fact about them assumes it as a named predicate: `Log10Axioms`,
  `Pow10Monotone`, `CosBounded` or `SqrtAxioms`.
- **External code as parameters.** Decoding, librosa's mel spectrogram,
  the Keras model and the song catalogue are parameters too.
- **JSON values.** A JSON value is a datatype. A dict is its list of
  fields in insertion order, and lookup takes the first field with the
  key.
- **Python errors.** A predicate named `…Safe` on a rewriter states
  exactly the inputs on which the Python code does not raise (for
  example `'args' in node` on a string node, or `.get` on a list).
- **In-place updates.** Python's in-place mutation of dicts is modelled
  as a function that returns the updated value.

Modules, one per file:

| module | contents |
|---|---|
| `Wrappers` | Option and Result |
| `Numeric` | transcendental parameters, `Math.round`, sums |
| `Strings` | substring search, ASCII lower case, decimal digits |
| `AudioConfig` | the shared constants |
| `Resample` | linear resampling |
| `MelFilterbank` | the mel filterbank |
| `Fft` | the FFT |
| `Spectrogram` | window, power spectrum, mel spectrogram |
| `Decibel` | power to dB |
| `Shaping` | frame padding and the tensor |
| `Pipeline` | the browser pipeline |
| `BackendFeatures` | the backend's segmentation and padding |
| `GenreRanking` | averaging and ranking |
| `ClassifyEndpoint` | the `/classify` handler |
| `MoodModel` | the mood entities and the distance |
| `MoodPath` | the mood path |
| `MoodClusters` | clustering |
| `MoodScoring` | song scoring |
| `MoodExplanation` | the explanation sentence |
| `MoodMetrics` | playlist metrics |
| `MoodPlaylist` | the playlist builder |
| `JsonValues` | JSON values |
| `DtypePolicy` | DTypePolicy cleaning |
| `InputLayer` | the InputLayer fix |
| `InboundNodes` | `inbound_nodes` conversion |
| `LstmNames` | LSTM weight names |
| `ConvertModel` | the conversion script |

## Model

| member | source | states |
|---|---|---|
| `Wrappers.AllOk` | backend/main.py:300-303 | Collecting per-segment results succeeds exactly when every one succeeds. The values then come in order. Otherwise the error is the first failure's. |
| `Numeric.JsRound` | src/lib/moodEngine.ts:306-308 | `Math.round` lands within half a unit of its argument, with halves rounding up. |
| `Strings.Contains` | backend/main.py:275 | The substring test is true exactly when the pattern occurs at some position. |
| `Strings.Lower` | backend/main.py:277 | Lower-casing keeps the length, maps A–Z to a–z and leaves every other character alone. |
| `Strings.NatToString` | src/lib/moodEngine.ts:152 | A natural number prints as at least one decimal digit, with a leading 0 exactly for zero. |
| `Strings.IntToString` | src/lib/moodEngine.ts:152 | A negative integer prints as a minus sign followed by digits, any other as digits only; the first character is 0 exactly for zero. |
| `Strings.ParseNatToString` | src/lib/moodEngine.ts:152 | The decimal rendering of a progress percentage parses back to the same number. |
| `Strings.ParseIntToString` | src/lib/moodEngine.ts:152 | A signed decimal rendering parses back to the same integer. |
| `Resample.Fraction` | src/lib/audioProcessor.ts:316-319 | The fractional part of the source position lies in [0, 1). |
| `Resample.SourceFloorInBounds` | src/lib/audioProcessor.ts:311-317 | For every output index below the new length, the floor of the source position is a valid input index. |
| `Resample.Interpolate` | src/lib/audioProcessor.ts:316-321 | Each resampled value lies between its two neighbouring input samples. The upper neighbour is clamped to the last sample. |
| `Resample.ResampleAudio` | src/lib/audioProcessor.ts:302-325 | Equal rates return the input unchanged. Otherwise the output has floor(len · target / orig) samples, each the interpolation at its source position. Empty input gives empty output. A signal in [−1, 1] stays in [−1, 1]. |
| `MelFilterbank.HzToMel` | src/lib/audioProcessor.ts:29-31 | Under the log10 axioms, 0 Hz is 0 mel and no non-negative frequency has a negative mel value. |
| `MelFilterbank.MelToHz` | src/lib/audioProcessor.ts:36-38 | With a monotone 10^x and 10^0 = 1, no non-negative mel value has a negative frequency. |
| `MelFilterbank.MelRoundTrip` | src/lib/audioProcessor.ts:29-38 | When 10^x inverts log10, melToHz(hzToMel(hz)) = hz for every non-negative hz. |
| `MelFilterbank.HzToMelMonotone` | src/lib/audioProcessor.ts:29-31 | With a monotone log10, the mel scale never decreases as frequency grows. |
| `MelFilterbank.MelToHzMonotone` | src/lib/audioProcessor.ts:36-38 | With a monotone 10^x, the inverse mel scale never decreases. |
| `MelFilterbank.MelPointMonotone` | src/lib/audioProcessor.ts:56-58 | The nMels + 2 mel points are non-decreasing from melMin to melMax. |
| `MelFilterbank.HzToBinMonotone` | src/lib/audioProcessor.ts:62 | The Hz-to-FFT-bin map floor((nFft + 1) · hz / sr) is monotone. |
| `MelFilterbank.BinPoints` | src/lib/audioProcessor.ts:50-62 | The filterbank uses exactly nMels + 2 bin points. |
| `MelFilterbank.BinPointsMonotone` | src/lib/audioProcessor.ts:51-62 | The bin points never decrease, so every triangle has left ≤ center ≤ right. |
| `MelFilterbank.TriangleWeight` | src/lib/audioProcessor.ts:73-83 | Every filter weight lies in [0, 1]. The weight is 1 at the center, 0 outside [left, right], and positive strictly inside. |
| `MelFilterbank.RatioBounds` | src/lib/audioProcessor.ts:75 | An edge ratio (k − left)/(center − left) lies in [0, 1]. It is positive past the left edge and 1 at the far edge. |
| `MelFilterbank.BuildFilter` | src/lib/audioProcessor.ts:68-83 | The two edge loops, which skip bins outside the array, produce exactly the triangle weight at every bin. |
| `MelFilterbank.AddFilter` | src/lib/audioProcessor.ts:67-86 | Each band iteration appends the triangle over bin points m − 1, m, m + 1 and keeps the earlier filters. |
| `MelFilterbank.CreateMelFilterbank` | src/lib/audioProcessor.ts:43-89 | The bank has nMels filters of floor(nFft/2) + 1 weights. Filter m is the triangle over bin points m, m + 1, m + 2, and every weight is in [0, 1]. |
| `MelFilterbank.BankInUnitRange` | src/lib/audioProcessor.ts:67-86 | A bank of triangle filters has all weights in [0, 1]. |
| `Fft.Rev` | src/lib/audioProcessor.ts:141-153 | The bit reversal of an index is again an index below 2^b. |
| `Fft.RevZero` | src/lib/audioProcessor.ts:141 | The reversal of index 0 is 0, matching the initial j = 0. |
| `Fft.AdvanceRev` | src/lib/audioProcessor.ts:147-152 | The carry loop `while (k <= j)` turns the reversal of i into the reversal of i + 1 and never runs off the end. |
| `Fft.AdvanceRevEven` | src/lib/audioProcessor.ts:147-152 | For an even i the carry loop does not iterate: adding n/2 gives the next reversal. |
| `Fft.AdvanceRevOdd` | src/lib/audioProcessor.ts:147-152 | For an odd i the carry loop clears the top bit and recurses on the lower half. |
| `Fft.NextReversed` | src/lib/audioProcessor.ts:147-152 | The carry loop computes Rev(i + 1) from Rev(i). |
| `Fft.Swap` | src/lib/audioProcessor.ts:143-146 | A swap exchanges two entries, leaves the rest alone and preserves the multiset. |
| `Fft.ZipSwap` | src/lib/audioProcessor.ts:144-145 | Swapping the real and imaginary arrays at the same pair swaps their (re, im) pairs. |
| `Fft.BitReversePermutation` | src/lib/audioProcessor.ts:140-153 | For a power-of-two length n = 2^b, entry k of the result is entry Rev(k, b) of the input, in both the real and the imaginary array, so the (re, im) multiset is unchanged. |
| `Fft.RevInvolution` | src/lib/audioProcessor.ts:140-153 | Reversing the bits of a b-bit index twice gives the index back, so each pair is swapped exactly once. |
| `Fft.RevAllOnes` | src/lib/audioProcessor.ts:141 | The last index n − 1 is its own reversal, which is why the pass may stop at n − 2. |
| `Fft.PlacedStep` | src/lib/audioProcessor.ts:142-147 | One turn of the pass, with its `i < j` guard, places index i and its reversal and disturbs no other index. |
| `Fft.AllReversed` | src/lib/audioProcessor.ts:141-153 | Once every index below n − 1 has been visited, every entry holds the input at its reversed index. |
| `Fft.CombineBlock` | src/lib/audioProcessor.ts:160-176 | One butterfly block keeps the array lengths and maps an all-zero input to all zeros. |
| `Fft.Butterflies` | src/lib/audioProcessor.ts:155-177 | The butterfly stages keep lengths and send an all-zero signal to all zeros. |
| `Fft.Transform` | src/lib/audioProcessor.ts:135-178 | The in-place FFT keeps both lengths, returns inputs of length ≤ 1 unchanged, and maps silence to silence. |
| `Fft.PermutationKeepsZero` | src/lib/audioProcessor.ts:140-153 | Any permutation of all-zero pairs is all zeros. |
| `Spectrogram.HannCoefficient` | src/lib/audioProcessor.ts:99 | With a bounded cosine, every Hann coefficient lies in [0, 1]. |
| `Spectrogram.HannWindow` | src/lib/audioProcessor.ts:94-104 | Windowing keeps the length and maps silence to silence. |
| `Spectrogram.HannWindowShrinks` | src/lib/audioProcessor.ts:98-101 | Windowing never increases a sample's magnitude. |
| `Spectrogram.FrameCount` | src/lib/audioProcessor.ts:205 | For a signal of at least one window there is at least one frame; the last frame ends inside the signal, and one more frame would not. |
| `Spectrogram.FrameCountShort` | src/lib/audioProcessor.ts:205-208 | A signal shorter than one FFT window yields no frames: the loop bound is not positive. |
| `Spectrogram.FrameInsideIff` | src/lib/audioProcessor.ts:205-213 | For a signal of at least one window, frame f lies wholly inside the signal exactly when f is below the frame count. |
| `Spectrogram.Frame` | src/lib/audioProcessor.ts:209-217 | A frame has nFft samples. It is the signal slice when that fits, zero-padded otherwise, and silent for a silent signal. |
| `Spectrogram.BinPower` | src/lib/audioProcessor.ts:188 | A bin's power re² + im² is non-negative and positive exactly when a part is non-zero. |
| `Spectrogram.PowerSpectrum` | src/lib/audioProcessor.ts:183-192 | The spectrum has floor(n/2) + 1 non-negative bins. A bin is zero exactly when both parts are. |
| `Spectrogram.DotNonNegative` | src/lib/audioProcessor.ts:234-238 | The mel sum of non-negative powers and weights is non-negative. |
| `Spectrogram.DotZero` | src/lib/audioProcessor.ts:234-238 | The mel sum of a zero spectrum is zero. |
| `Spectrogram.MelProject` | src/lib/audioProcessor.ts:232-239 | One energy per filter: non-negative for a non-negative spectrum and unit-range weights, and all zero for a zero spectrum. |
| `Spectrogram.ZeroProjection` | src/lib/audioProcessor.ts:232-239 | Every filter's energy is zero for a zero spectrum. |
| `Spectrogram.ExtractMelSpectrogram` | src/lib/audioProcessor.ts:197-245 | The spectrogram has floor((L − nFft)/hop) + 1 frames (none when that is not positive), each of nMels non-negative energies. A silent signal gives all-zero energies. |
| `Decibel.RowPeak` | src/lib/audioProcessor.ts:259-261 | The running maximum of a frame bounds every entry and is either the start value or some entry. |
| `Decibel.Peak` | src/lib/audioProcessor.ts:257-262 | The running maximum over all frames bounds every entry and is the start value or an entry. |
| `Decibel.MaxEntry` | src/lib/audioProcessor.ts:257-262 | `maxVal` is ≥ 0, bounds every entry, and is 0 or an actual entry. |
| `Decibel.Db` | src/lib/audioProcessor.ts:272-273 | After the top-dB floor, a dB value is never below −topDb. |
| `Decibel.DbMonotone` | src/lib/audioProcessor.ts:272-273 | Converting to dB preserves the order of powers. |
| `Decibel.DbAtMostZero` | src/lib/audioProcessor.ts:264-273 | Relative to a reference at least as large as the power, dB is ≤ 0, and 0 at the reference itself. |
| `Decibel.PowerToDb` | src/lib/audioProcessor.ts:250-297 | The output has the input's shape, and every value is in [−topDb, 0] given a monotone log10. The loudest entry maps to 0 dB when it reaches amin. |
| `Decibel.DbEntries` | src/lib/audioProcessor.ts:268-277 | Each entry is converted independently against the shared reference. |
| `Decibel.PowerToDbMonotone` | src/lib/audioProcessor.ts:250-297 | A louder entry never gets a lower dB value than a quieter one. |
| `Shaping.NumMels` | src/lib/audioProcessor.ts:447 | The mel count is the first frame's length, or 128 when there is no frame or the first is empty. |
| `Shaping.PadOrTruncateTimeFrames` | src/lib/audioProcessor.ts:442-469 | The result has exactly target frames. Frames below min(len, target) are kept, and added frames are NumMels entries of −80. |
| `Shaping.PadThenTruncate` | src/lib/audioProcessor.ts:442-469 | Padding to a longer length and truncating back gives the original spectrogram. |
| `Shaping.PadOrTruncateIdempotent` | src/lib/audioProcessor.ts:442-469 | A second pad-or-truncate to the same target changes nothing. |
| `Shaping.MelSpectrogramToTensor` | src/lib/audioProcessor.ts:394-413 | The tensor is the transpose: NumMels rows of one-element cells, with cell [m][f] = [spec[f][m]]. |
| `Shaping.TensorToMelSpectrogram` | src/lib/audioProcessor.ts:394-413 | The inverse transpose has one frame per time step and one value per mel row. |
| `Shaping.TensorRoundTrip` | src/lib/audioProcessor.ts:394-413 | For a spectrogram whose frames all have NumMels entries, transposing to the tensor and back gives the spectrogram again. |
| `Shaping.GetExpectedTimeFrames` | src/lib/audioProcessor.ts:418-420 | The expected frame count is the frame count of one 3-second segment. |
| `Shaping.SegmentFrames` | src/lib/audioProcessor.ts:14-20 | A 66150-sample segment gives 126 frames, fewer than the model's 130, so four frames are always padded. |
| `Pipeline.MixToMono` | src/lib/audioProcessor.ts:343-354 | A mono source is used as is. Otherwise each sample is the mean of the first two channels. |
| `Pipeline.SplitSegments` | src/lib/audioProcessor.ts:360-371 | The clip yields floor(L / size) full segments in order; concatenated, they are exactly the first count · size samples. |
| `Pipeline.NextSegment` | src/lib/audioProcessor.ts:363-370 | Each loop turn appends the next full slice and keeps the segments so far. |
| `Pipeline.ConcatAppend` | src/lib/audioProcessor.ts:363-370 | Appending a segment extends the concatenation by that segment. |
| `Pipeline.ProcessAudioFile` | src/lib/audioProcessor.ts:330-380 | The sample rate is reported as 22050. Every segment has 66150 samples, and sample k of segment i is sample i · 66150 + k of the mono mix: taken as it is at the native rate, otherwise linearly interpolated at the new rate. The segment count is the floor of the (resampled) length over 66150, and the duration is the (resampled) length / 22050. |
| `Pipeline.FrameSizeIsPow2` | src/lib/audioProcessor.ts:16 | N_FFT = 2048 is a power of two, so the FFT's bit reversal terminates. |
| `Pipeline.LogMelSpectrogram` | src/lib/audioProcessor.ts:427-430 | The log-mel spectrogram has one 128-value frame per FFT frame. Every value is ≥ −80 dB, and ≤ 0 given a monotone log10. |
| `Pipeline.PaddedInRange` | src/lib/audioProcessor.ts:433 | Padding to 130 frames keeps every value in [−80, 0] dB and every frame at 128 mels. |
| `Pipeline.ProcessSegmentForModel` | src/lib/audioProcessor.ts:425-437 | The model input has shape (128, 130, 1) with values in [−80, 0] dB. Every frame past the segment's own frame count is −80. |
| `Pipeline.FullSegmentPadding` | src/lib/audioProcessor.ts:418-420 | A full segment fills exactly 126 of the 130 frames. |
| `Pipeline.PrepareAudioForModel` | src/lib/audioProcessor.ts:480-495 | There is one tensor per segment, and the count is the number of full segments of the clip at 22050 Hz, that is of its resampled length when its rate differs. The duration is that length / 22050. Each tensor is 128 × 130 × 1 in [−80, 0] dB, with frames 126–129 at −80. |
| `BackendFeatures.RowMin` | backend/main.py:112 | The running minimum of a row bounds every entry and is the start value or an entry. |
| `BackendFeatures.RowsMin` | backend/main.py:112 | The running minimum over rows bounds every entry and is the start value or an entry. |
| `BackendFeatures.GlobalMin` | backend/main.py:112 | `mel_spec.min()` raises exactly on an empty array. Otherwise it is an entry no larger than any other. |
| `BackendFeatures.PadOrTruncate` | backend/main.py:102-113 | The result has target columns. Kept columns are unchanged and added columns hold the global minimum. Only padding an empty array raises. An exact fit returns the input. |
| `BackendFeatures.PadKeepsMinimum` | backend/main.py:110-113 | Padding with the minimum does not change the minimum. |
| `BackendFeatures.MinimumUnique` | backend/main.py:112 | An entry that bounds all the others is the minimum. |
| `BackendFeatures.PadThenTruncate` | backend/main.py:102-113 | Padding to a wider target and truncating back gives the original matrix. |
| `BackendFeatures.PrepareSegment` | backend/main.py:149-160 | A segment fails exactly when its spectrogram is empty and needs padding. Otherwise it becomes as many rows as the spectrogram has, each of 130 one-element cells: the kept columns hold the spectrogram's own values and every padding column holds the spectrogram's global minimum. |
| `BackendFeatures.PrepareSegmentRecovers` | backend/main.py:149-160 | For a non-empty spectrogram of at most 130 columns, dropping the channel axis and the padding columns from the prepared input gives the spectrogram back. |
| `BackendFeatures.AddChannelAxis` | backend/main.py:158 | The new axis wraps every entry in a one-element list and keeps the shape. |
| `BackendFeatures.SegmentCount` | backend/main.py:123-131 | There are no segments exactly when the clip is shorter than half a segment. A clip of at least one segment has floor(L / size) segments, and a half-to-full clip has 1. |
| `BackendFeatures.Segment` | backend/main.py:134-142 | A segment has size samples: the slice when it fits, else the tail followed by zeros. |
| `BackendFeatures.SplitAudio` | backend/main.py:116-146 | The count is SegmentCount. There are max(1, count) segments of size samples, the i-th starting at i · size. |
| `BackendFeatures.AllSegmentsFit` | backend/main.py:133-135 | Every segment start lies within the clip. |
| `BackendFeatures.SegmentFits` | backend/main.py:133-138 | For a clip of at least one segment, every segment is a full slice. |
| `BackendFeatures.SplitAudioSlices` | backend/main.py:133-138 | For a clip of at least one segment, each segment is exactly its slice of the clip. |
| `BackendFeatures.SplitAudioPadsShort` | backend/main.py:129-142 | A half-to-full clip gives one segment: the clip followed by zeros. |
| `BackendFeatures.ShortAudioReportsZero` | backend/main.py:127-133 | A clip under half a segment reports zero segments but still yields one padded segment. |
| `GenreRanking.GenresDistinct` | backend/main.py:31 | There are ten genre labels, pairwise distinct. |
| `GenreRanking.MeanPredictions` | backend/main.py:312 | The per-genre mean over segments is the column sum divided by the segment count. |
| `GenreRanking.MeanInUnitRange` | backend/main.py:312 | Means of probabilities in [0, 1] lie in [0, 1]. |
| `GenreRanking.SumInterchange` | backend/main.py:312 | Summing column totals equals summing row totals. |
| `GenreRanking.MeanSumsToOne` | backend/main.py:312 | If every segment's prediction sums to 1, so do the averaged predictions. |
| `GenreRanking.Insert` | backend/main.py:323 | Inserting a later genre keeps the order strictly sorted by (confidence descending, genre index ascending) and adds exactly that genre. |
| `GenreRanking.SortOrder` | backend/main.py:323 | The order is a permutation of the first n genres, strictly sorted by descending confidence with ties in original order. |
| `GenreRanking.HeadIsLeast` | backend/main.py:323 | The first element of a sorted order comes before every other element. |
| `GenreRanking.BeforeAsymmetric` | backend/main.py:323 | Two distinct genres are never each before the other. |
| `GenreRanking.HeadsEqual` | backend/main.py:323 | Two sorted orders of the same genres start with the same genre. |
| `GenreRanking.SortedUnique` | backend/main.py:323 | Two sorted orders of the same set of genres are equal, so the ranking does not depend on the sort algorithm. |
| `GenreRanking.RankPredictions` | backend/main.py:315-323 | The ranking lists each genre with its mean confidence, in the stable descending sort order. |
| `GenreRanking.RankingCoversGenres` | backend/main.py:315-323 | Every genre appears in the ranking with its own mean confidence. |
| `GenreRanking.RankingDistinct` | backend/main.py:315-323 | No genre appears twice in the ranking. |
| `GenreRanking.RankingOrdered` | backend/main.py:323 | Confidences never increase along the ranking, and equal confidences keep GTZAN order. |
| `ClassifyEndpoint.AcceptsUpload` | backend/main.py:273-278 | An upload is accepted exactly when the content type contains "audio" or "octet-stream", or the non-empty file name ends, ignoring case, in .wav, .mp3, .ogg or .flac. |
| `ClassifyEndpoint.AcceptsAudioType` | backend/main.py:275 | An example: the content type "audio/mpeg" with no file name is accepted. |
| `ClassifyEndpoint.AcceptsOctetStream` | backend/main.py:275 | An example: "application/octet-stream" is accepted whatever the file name. |
| `ClassifyEndpoint.AcceptsUpperCaseExtension` | backend/main.py:277 | An example: with no content type, "Song.WAV" is accepted because the extension check ignores case. |
| `ClassifyEndpoint.RejectsOthers` | backend/main.py:275-278 | An example: "notes.txt" with an empty content type is refused, and so is an upload with neither a content type nor a name. |
| `ClassifyEndpoint.Spectrograms` | backend/main.py:301-302 | There is one spectrogram per segment, in order. |
| `ClassifyEndpoint.Preparations` | backend/main.py:300-303 | There is one preparation result per spectrogram, in order. |
| `ClassifyEndpoint.Stack` | backend/main.py:306 | Stacking succeeds exactly when all inputs have the same number of rows, and then the batch is the inputs in order. |
| `ClassifyEndpoint.Infer` | backend/main.py:299-344 | Inference fails with 500 exactly when some segment cannot be prepared or the spectrograms differ in their number of mel bands, so that the batch cannot be stacked. Otherwise the predictions are the ranked means of the model's output, and the top genre and confidence are the first entry's. |
| `ClassifyEndpoint.InferSucceeds` | backend/main.py:299-306 | When every spectrogram has 128 bands and at least one frame, inference succeeds. |
| `ClassifyEndpoint.Classify` | backend/main.py:267-344 | A rejected type gives 400 "Invalid file type". An accepted clip under half a segment gives 400 "too short". These are the only 400s. A 500 comes exactly when the clip is accepted, long enough, and inference fails. No other status occurs. The call succeeds exactly when the clip is accepted, long enough, and inference succeeds. A success reports the inferred ranking, the duration in seconds (samples / 22050), the segment count (≥ 1) and 22050 Hz. |
| `ClassifyEndpoint.ClassifySucceeds` | backend/main.py:267-333 | An accepted clip of at least half a segment is classified whenever every spectrogram has 128 bands and at least one frame. |
| `MoodModel.Distance` | src/lib/moodEngine.ts:28-36 | The mood distance is non-negative and zero between equal points. |
| `MoodModel.DistanceSymmetric` | src/lib/moodEngine.ts:28-36 | The mood distance is symmetric. |
| `MoodModel.SongDistance` | src/lib/moodEngine.ts:107-112 | A song's distance to a target (valence against valence, energy against arousal) is non-negative. |
| `MoodModel.PlayedIds` | src/lib/moodEngine.ts:194 | The used-id set is exactly the ids of the songs placed so far. |
| `MoodModel.CatalogueIds` | src/lib/moodEngine.ts:203 | The catalogue id set is exactly the ids in the catalogue. |
| `MoodModel.CatalogueIdsCardinality` | src/lib/moodEngine.ts:203 | A catalogue of distinct ids has as many ids as songs. |
| `MoodModel.ExhaustedWhenFull` | src/lib/moodEngine.ts:220-221 | Once as many catalogue ids are used as there are songs, every song is used. |
| `MoodModel.FullWhenExhausted` | src/lib/moodEngine.ts:220-221 | If every song is used, at least as many ids are used as there are songs. |
| `MoodPath.InterpolateMoods` | src/lib/moodEngine.ts:39-55 | A path of steps + 1 points runs from the start mood to the end mood (empty for negative steps). Point i is the interpolation at i / steps. |
| `MoodPath.PathBetweenEnds` | src/lib/moodEngine.ts:46-51 | Every path point lies between the start and end moods on each axis. |
| `MoodPath.LerpBetween` | src/lib/moodEngine.ts:49-50 | The interpolation at t in [0, 1] lies between its endpoints. |
| `MoodPath.PathEvenlySpaced` | src/lib/moodEngine.ts:46-51 | Consecutive path points differ by the same step, (end − start) / steps, on each axis. |
| `MoodPath.LerpStep` | src/lib/moodEngine.ts:47-50 | Successive interpolations differ by (b − a) / steps. |
| `MoodClusters.Centroids` | src/lib/moodEngine.ts:60-64 | There are five centroids, one per mood, in table order. |
| `MoodClusters.FirstNearest` | src/lib/moodEngine.ts:71-85 | The centroid scan settles on a nearest centroid that is strictly nearer than every earlier one. |
| `MoodClusters.ClusterSongsByMood` | src/lib/moodEngine.ts:58-91 | The clusters are keyed by the centroid moods. Each holds, in input order, exactly the songs whose nearest centroid has its mood. |
| `MoodClusters.Distribute` | src/lib/moodEngine.ts:70-88 | Pushing each song onto its label's list gives, per key, the in-order filter of songs with that label. |
| `MoodClusters.EmptyClusters` | src/lib/moodEngine.ts:66-67 | The initial map has one empty list per centroid mood. |
| `MoodClusters.NearestIsKey` | src/lib/moodEngine.ts:87 | A song's nearest mood is always a key of the map, so its push is never lost. |
| `MoodClusters.LabelsPartition` | src/lib/moodEngine.ts:70-88 | Across the five moods, the filters together hold every song once. |
| `MoodClusters.InOwnLabel` | src/lib/moodEngine.ts:87 | Every song is in its own label's list. |
| `MoodClusters.InNoOtherLabel` | src/lib/moodEngine.ts:87 | A song is in no list but its own label's, even when it is listed more than once. |
| `MoodClusters.FilterOnlyLabel` | src/lib/moodEngine.ts:70-88 | Every song in a label's list is one of the input songs and has that label. |
| `MoodClusters.ClustersPartition` | src/lib/moodEngine.ts:58-91 | The cluster sizes add up to the number of songs. |
| `MoodClusters.MemberOfNearest` | src/lib/moodEngine.ts:70-88 | Every song belongs to the cluster of its nearest mood. |
| `MoodClusters.MemberOfNoOther` | src/lib/moodEngine.ts:70-88 | A song is in no cluster but its nearest mood's, even when it is listed more than once. |
| `MoodScoring.ScoreSong` | src/lib/moodEngine.ts:94-131 | A used song scores −∞ with no matches. Otherwise the matches are list membership and the score is 0.6 · (1 − distance) plus a bonus in [0, 0.065]. |
| `MoodScoring.ScoreWeights` | src/lib/moodEngine.ts:113-128 | The score of an unused song is 0.6 · (1 − distance) + 0.03 · genre + 0.03 · artist + 0.005 · liked. |
| `MoodScoring.CloserScoresHigher` | src/lib/moodEngine.ts:113-128 | Of two unused songs with the same preference matches, the closer one scores strictly higher. |
| `MoodScoring.Scores` | src/lib/moodEngine.ts:203-210 | There is one score per catalogue song, in catalogue order. |
| `MoodScoring.FirstBestUnique` | src/lib/moodEngine.ts:212-217 | The first best-scoring position is unique. |
| `MoodScoring.PickBest` | src/lib/moodEngine.ts:197-219 | Nothing is picked exactly when every song is used. Otherwise the pick is the first strictly best song, it is unused, and its matches are returned. |
| `MoodPlaylist.Entry` | src/lib/moodEngine.ts:220-241 | A playlist entry carries the chosen song, its score and matches, its explanation, and the target it was chosen for. |
| `MoodPlaylist.SelectionChoose` | src/lib/moodEngine.ts:220-241 | Adding the best unused song keeps the greedy-selection invariant one step further. |
| `MoodPlaylist.UsedExtended` | src/lib/moodEngine.ts:221 | Adding the chosen id keeps the used set equal to the placed songs' ids, with distinct ids, inside the catalogue. |
| `MoodPlaylist.SelectionSkip` | src/lib/moodEngine.ts:220 | When every song is used, a step adds nothing and keeps the invariant. |
| `MoodPlaylist.SelectFor` | src/lib/moodEngine.ts:197-243 | One path step adds a song exactly when an unused song remains, and that song is the first best. |
| `MoodPlaylist.ChooseSongs` | src/lib/moodEngine.ts:193-243 | At most one song per path point, all distinct. With distinct catalogue ids there are min(points, catalogue) songs, each the first best unused song for its point. |
| `MoodPlaylist.AllWellChosen` | src/lib/moodEngine.ts:197-243 | A complete pick record makes every entry well chosen. |
| `MoodPlaylist.GenerateMoodPlaylist` | src/lib/moodEngine.ts:181-253 | The path has playlistLength steps from the current to the target mood. The songs are distinct and each is the first best unused choice. With distinct ids there are min(length, catalogue) songs, and the metrics are those of the playlist. |
| `MoodPlaylist.PlayedIdsAppend` | src/lib/moodEngine.ts:221 | Adding a song adds exactly its id to the used set. |
| `MoodPlaylist.DistinctAppend` | src/lib/moodEngine.ts:220-241 | Adding an unused song keeps the playlist free of repeats. |
| `MoodPlaylist.ChosenExtended` | src/lib/moodEngine.ts:220-241 | Adding the best unused song extends the pick record by one. |
| `MoodPlaylist.ChosenKept` | src/lib/moodEngine.ts:233 | Appending a song leaves earlier choices valid. |
| `MoodPlaylist.ChosenNew` | src/lib/moodEngine.ts:220-241 | The appended song is recorded as the choice for the next path point. |
| `MoodExplanation.StepPosition` | src/lib/moodEngine.ts:146-153 | Step 0 opens the journey, the last step reaches the target, and any other step within the path reports a progress in [0, 100]. |
| `MoodExplanation.ProgressMonotone` | src/lib/moodEngine.ts:151 | A later middle step never reports less progress. |
| `MoodExplanation.MoodFit` | src/lib/moodEngine.ts:162-168 | The fit is perfect below 0.15, excellent in [0.15, 0.25), and bridging from 0.25. |
| `MoodExplanation.FitMonotone` | src/lib/moodEngine.ts:162-168 | A larger distance never gives a better fit. |
| `MoodExplanation.PreferenceMention` | src/lib/moodEngine.ts:171-175 | The artist is mentioned exactly on an artist match; otherwise the genre exactly on a genre match. |
| `MoodExplanation.GenerateExplanation` | src/lib/moodEngine.ts:134-178 | The explanation is a non-empty sentence. |
| `MoodExplanation.ExplanationClauses` | src/lib/moodEngine.ts:143-177 | The sentence opens "Starting…" exactly at step 0 and "Reaching…" exactly at the last step. It ends ", one of your favorites" exactly on an artist match, naming the artist; otherwise it names the preferred genre on a genre match. |
| `MoodExplanation.ExplanationOpening` | src/lib/moodEngine.ts:146-153 | The opening phrase identifies the first and the last step. |
| `MoodExplanation.ExplanationClosing` | src/lib/moodEngine.ts:162-177 | The closing phrase identifies an artist or genre match. |
| `MoodExplanation.OpeningClause` | src/lib/moodEngine.ts:146-153 | The three position phrases start differently, so the opening decides the position. |
| `MoodExplanation.ClosingClause` | src/lib/moodEngine.ts:171-177 | No fit phrase ends like the favourite-artist suffix, so the suffix appears exactly on an artist match. |
| `MoodMetrics.TransitionGap` | src/lib/moodEngine.ts:264-278 | Each transition error is non-negative. |
| `MoodMetrics.TransitionError` | src/lib/moodEngine.ts:262-279 | The total transition error is non-negative, and zero with at most one song. |
| `MoodMetrics.Smoothness` | src/lib/moodEngine.ts:280-283 | Smoothness is a whole number in [0, 100]. |
| `MoodMetrics.SmoothnessMonotone` | src/lib/moodEngine.ts:280-283 | Zero error gives 100, and more error never gives a higher score. |
| `MoodMetrics.CountGenreMatches` | src/lib/moodEngine.ts:286 | The genre-match count is at most the playlist length: all of it when every song matches, 0 when none does. |
| `MoodMetrics.CountArtistMatches` | src/lib/moodEngine.ts:287 | The artist-match count is at most the playlist length: all of it when every song matches, 0 when none does. |
| `MoodMetrics.RoundedPercent` | src/lib/moodEngine.ts:288-289 | A rounded percentage of a part of a whole lies in [0, 100]: 100 for the whole and 0 for none. |
| `MoodMetrics.PreferencePercentage` | src/lib/moodEngine.ts:285-289 | The match percentage is undefined (NaN) exactly for an empty playlist. Otherwise it is in [0, 100]: 100 when every song matches both, 0 when none matches either. |
| `MoodMetrics.DistanceSum` | src/lib/moodEngine.ts:292-302 | The summed song-to-target distance is non-negative. |
| `MoodMetrics.AverageDistance` | src/lib/moodEngine.ts:292-303 | The average distance is undefined exactly for an empty playlist and otherwise non-negative. |
| `MoodMetrics.CalculateMetrics` | src/lib/moodEngine.ts:256-310 | Smoothness is in [0, 100], and 100 for at most one song. The percentage and average are defined exactly for a non-empty playlist, in [0, 100] and ≥ 0 respectively. |
| `JsonValues.IndexOf` | clean_model_json.py:20 | Key lookup finds the first field with the key, and reports absence exactly when no field has it. |
| `JsonValues.Get` | clean_model_json.py:16 | `dict.get` succeeds exactly when the key is present. |
| `JsonValues.SetKey` | clean_model_json.py:22 | Assigning a key updates it in place or appends it, and leaves every other key's value alone. |
| `JsonValues.RemoveKey` | clean_model_json.py:42 | `pop` removes one field. |
| `JsonValues.RemoveKeyGet` | clean_model_json.py:42 | Popping a key leaves every other key's value alone. |
| `JsonValues.RemoveKeyGone` | clean_model_json.py:42 | In a dict with unique keys, the popped key is gone and the keys stay unique. |
| `JsonValues.AppendNewKey` | clean_model_json.py:42 | Adding a new key keeps the keys unique and makes the key map to its value. |
| `JsonValues.SetKeySame` | clean_model_json.py:22 | Re-assigning a key its own value changes nothing. |
| `JsonValues.Truthy` | clean_model_json.py:112 | Python truthiness: None is false, and a string, list or dict is truthy exactly when a `for` loop over it visits something. |
| `JsonValues.Elements` | clean_model_json.py:79 | Iteration is defined for lists, dicts (their keys) and strings (their characters), and yields as many elements as the value has. |
| `JsonValues.Membership` | clean_model_json.py:80 | `in` is defined exactly on dicts, lists and strings. |
| `JsonValues.AgreeOutsideReflexive` | clean_model_json.py:106-120 | Every value agrees with itself outside any key. |
| `DtypePolicy.SimplifyDtype` | clean_model_json.py:20-22 | The dtype shortcut keeps the keys, and replaces only a `dtype` dict that is a DTypePolicy, by "float32". |
| `DtypePolicy.CleanDtypePolicy` | clean_model_json.py:12-29 | A DTypePolicy dict becomes "float32"; any other dict keeps its keys in order, a list keeps its length, and a scalar is returned as it is. That every policy at any depth is replaced is `CleanReplacesPolicies`. |
| `DtypePolicy.CleanReplacesPolicies` | clean_model_json.py:12-29 | Cleaning replaces every DTypePolicy dict, at any depth, by "float32" and keeps everything else. |
| `DtypePolicy.ReplacedHasNoPolicy` | clean_model_json.py:12-29 | A value related by the replacement contains no DTypePolicy dict. |
| `DtypePolicy.CleanLeavesNoPolicy` | clean_model_json.py:12-29 | After cleaning, no DTypePolicy dict remains at any depth. |
| `DtypePolicy.CleanWithoutPolicies` | clean_model_json.py:12-29 | A value with no DTypePolicy dict is left unchanged. |
| `DtypePolicy.CleanIdempotent` | clean_model_json.py:12-29 | Cleaning twice is the same as cleaning once. |
| `DtypePolicy.LayerExample` | clean_model_json.py:16-25 | An example: a Dense layer's DTypePolicy dtype becomes "float32" and nothing else changes. |
| `InputLayer.MoveKey` | clean_model_json.py:42 | Moving a key's value to a new key keeps the field count and sizes. |
| `InputLayer.FixInputLayer` | clean_model_json.py:31-52 | Every dict keeps its keys in order, every list its length, and scalars are unchanged. Which configs change is stated by `FixOnlyTouchesConfigs` and `NoInputLayerUnchanged`. |
| `InputLayer.FixConfig` | clean_model_json.py:41-45 | The batch-shape rename leaves a non-dict config alone and keeps a dict's field count and size. |
| `InputLayer.ConfigRenames` | clean_model_json.py:41-45 | batch_shape (else batch_input_shape) becomes batchInputShape unless that key already exists. Every other key keeps its value. |
| `InputLayer.InputStep` | clean_model_json.py:38-45 | The per-dict step keeps the keys and changes only the `config` field of an InputLayer. |
| `InputLayer.NoInputLayerUnchanged` | clean_model_json.py:31-52 | A value without an InputLayer config is left unchanged. |
| `InputLayer.FixOnlyTouchesConfigs` | clean_model_json.py:31-52 | The fix changes nothing outside `config` fields. |
| `InputLayer.ExampleConfigRenamed` | clean_model_json.py:41-42 | An example: a concrete config with batch_shape is renamed. |
| `InputLayer.ExampleFixedUnchanged` | clean_model_json.py:41-45 | An example: the fixed layer is a fixed point of the rewrite. |
| `InputLayer.InputLayerExample` | clean_model_json.py:31-52 | An example: a concrete InputLayer with batch_shape becomes one with batchInputShape. |
| `InboundNodes.ExtractKerasHistory` | clean_model_json.py:54-62 | A history comes only from a `__keras_tensor__` dict. It is the truthy `keras_history` of its config. |
| `InboundNodes.ExtractNeedsTruthyHistory` | clean_model_json.py:56-62 | A keras tensor yields a history exactly when its config's keras_history is truthy. |
| `InboundNodes.TensorHistories` | clean_model_json.py:88-91 | The histories collected from a list of tensors are all truthy. |
| `InboundNodes.ArgHistories` | clean_model_json.py:86-96 | A scalar argument contributes no history. |
| `InboundNodes.ArgsHistories` | clean_model_json.py:85-96 | String arguments contribute nothing. |
| `InboundNodes.NodeEntry` | clean_model_json.py:80-102 | A Keras 2 list node is kept as is, a scalar node is dropped, and a Keras 3 node becomes a list of histories. |
| `InboundNodes.Collect` | clean_model_json.py:77-102 | Every converted entry is a list, with at most one entry per node. |
| `InboundNodes.CollectKeepsLists` | clean_model_json.py:100-102 | Nodes already in Keras 2 form are copied unchanged. |
| `InboundNodes.CollectDropsStrings` | clean_model_json.py:79-102 | String nodes are all dropped. |
| `InboundNodes.ConvertInboundNodes` | clean_model_json.py:64-104 | A falsy value and an unconvertible one come back unchanged. Otherwise the result is a non-empty list of lists. Truthiness is preserved and the value never grows. |
| `InboundNodes.CollectNonList` | clean_model_json.py:79-104 | Iterating a dict or string converts nothing, so it comes back unchanged. |
| `InboundNodes.Keras2Unchanged` | clean_model_json.py:64-104 | Inbound nodes already in Keras 2 form are left unchanged. |
| `InboundNodes.ConvertIdempotent` | clean_model_json.py:64-104 | Converting twice is the same as converting once. |
| `InboundNodes.FixInboundNodes` | clean_model_json.py:106-120 | Every dict keeps its keys in order, every list its length, and scalars are unchanged. Which values change is stated by `FixOnlyTouchesInbound` and `FixConvertsInbound`. |
| `InboundNodes.InboundStep` | clean_model_json.py:112-113 | The per-dict step keeps the keys and changes only `inbound_nodes`. |
| `InboundNodes.NoActiveInboundUnchanged` | clean_model_json.py:106-120 | A value with no truthy inbound_nodes is left unchanged. |
| `InboundNodes.FixOnlyTouchesInbound` | clean_model_json.py:106-120 | The fix changes nothing outside `inbound_nodes` fields. |
| `InboundNodes.FixConvertsInbound` | clean_model_json.py:106-116 | A dict's truthy inbound_nodes are replaced by their conversion, and the recursion then fixes the converted value too. |
| `InboundNodes.ConvertExample` | clean_model_json.py:64-104 | An example: a concrete Keras 3 node becomes [[["dense", 0, 0]]]. |
| `LstmNames.ReplaceAll` | clean_model_json.py:138 | Python `str.replace`: a string shorter than the pattern is unchanged, and an equal-length replacement keeps the length. |
| `LstmNames.RenameWeight` | clean_model_json.py:135-141 | A weight dict keeps its keys, its `name` becomes the name with every "/lstm_cell/" replaced by "/", and every other key reads the same; a non-dict entry is unchanged. |
| `LstmNames.ReplaceAbsent` | clean_model_json.py:138 | `replace` without an occurrence returns the string unchanged. |
| `LstmNames.ReplaceCopiesPrefix` | clean_model_json.py:138 | `replace` copies any prefix with no occurrence unchanged. |
| `LstmNames.ReplaceShortens` | clean_model_json.py:138 | Replacing by a shorter string never lengthens the name, and shortens it when the pattern occurs. |
| `LstmNames.RenameChangesIff` | clean_model_json.py:138-139 | A name changes exactly when it contains "/lstm_cell/". |
| `LstmNames.RenameExample` | clean_model_json.py:126-127 | An example: bidirectional/forward_lstm/lstm_cell/kernel becomes bidirectional/forward_lstm/kernel. |
| `LstmNames.RenameSinglePass` | clean_model_json.py:138 | The replace is one left-to-right pass: "/lstm_cell/lstm_cell/" becomes "/lstm_cell/". |
| `LstmNames.FixLstmWeightNames` | clean_model_json.py:122-143 | A falsy manifest is returned unchanged. |
| `LstmNames.RenameWeightAgrees` | clean_model_json.py:135-141 | Renaming a weight touches only its `name`. |
| `LstmNames.RenameGroupAgrees` | clean_model_json.py:132-141 | Renaming a group's weights touches only `name` fields. |
| `LstmNames.FixChangesOnlyNames` | clean_model_json.py:122-143 | The manifest fix changes nothing outside `name` fields. |
| `LstmNames.FixRenamesWeights` | clean_model_json.py:132-141 | Every weight name in every group becomes the name with "/lstm_cell/" replaced by "/". |
| `LstmNames.NoCellNamesUnchanged` | clean_model_json.py:122-143 | A manifest without "/lstm_cell/" in any name is left unchanged. |
| `ConvertModel.CleanModelJson` | convert_model.py:41-62 | The file keeps its keys. Only modelTopology changes, to its cleaned value, and a file without it is unchanged. |
| `ConvertModel.CleanModelJsonSettles` | convert_model.py:41-62 | The cleaned topology has no DTypePolicy dict, and cleaning the file again changes nothing. |

## Left out

- Reading files and decoding audio are not modelled. This covers `AudioContext` and `decodeAudioData`, `librosa.load`, `await file.read()` and the JSON file reads and writes. Decoded samples and parsed JSON are parameters instead.
- The Keras model is a parameter `predict`, and the backend's librosa mel spectrogram is a parameter `melSpectrogram`; neither is visible code. `load_model` and `extract_visualization_data` are not part of this model.
- Floating point is not modelled. Float32 rounding, NaN and ±Infinity are replaced by exact reals. The only infinity that matters, `-Infinity` for a used song's score, is a separate `NegInf` constructor.
- `Math.cos`, `Math.sin`, `Math.log10`, `Math.pow(10, _)` and `Math.sqrt` are uninterpreted parameters. Contracts assume only the facts they name (`Log10Axioms`, `Pow10Monotone`, `CosBounded`, `SqrtAxioms`), so the FFT's actual spectrum values are not stated, only lengths, permutation and silence-in/silence-out.
- `Resample.ResampleAudio`: the source position is the exact rational i · orig / target, where the source computes `i * (orig / target)` in floating point; the new length is floor(len · target / orig).
- `Decibel.PowerToDb`: the `refValue` parameter is ignored by the source and is not modelled. Nor is the `minDb` loop, whose result is never used.
- `computeFFT` is dead code and is not modelled.
- `Fft.Transform` requires a power-of-two length. For another length (six, say) the source's carry loop never terminates. The pipeline only uses 2048.
- `Spectrogram.HannWindow` requires a length other than 1. A one-sample window divides by n − 1 = 0, giving NaN, and the pipeline never windows one sample.
- `MelFilterbank.CreateMelFilterbank` requires that no band's center and right bin points coincide, where the source would compute 0/0. `Pipeline.DefaultBankNondegenerate` states this for the default filterbank, but whether it holds depends on the real log10 and pow10, which are parameters.
- `Shaping.MelSpectrogramToTensor` requires every frame to have at least NumMels entries, where the source would read `undefined`.
- `ClassifyEndpoint.Infer`: the 500s of `load_model()`, the second `librosa.load`, `extract_visualization_data` and `model.predict` itself are not modelled. Those calls are outside the model, and the same `except Exception` turns any of their failures into a 500.
- `GenreRanking.MeanPredictions` and `ClassifyEndpoint.Infer` require the model to return one row of ten scores per segment (`PredictsGenres`), and the spectrogram to be a rectangular matrix (`ValidMatrix`).
- `MoodPlaylist.GenerateMoodPlaylist` requires playlistLength ≠ 1, where the source's path divides 0 by 0. `MoodPath.InterpolateMoods` requires steps ≠ 0, and the explanation requires totalSteps ≠ 1 away from step 0, for the same reason.
- `MoodMetrics.AverageDistance`: the source's `Math.round(avg * 100) / 100` is modelled as JsRound(avg · 100) / 100 on exact reals.
- The empty-playlist NaN of the match percentage and the average distance is `None`.
- The UI parts of the mood engine and classifier are not modelled: emoji, labels, tempo, language, `processingTime`, visualisation data and React components. The song catalogue (`mockSongs`) and the mood table (`moodPoints`) are parameters. `clusterSongsByMood` ignores its `k` argument, as the source does.
- `Strings.Lower` folds ASCII letters only. The extension check only compares ASCII suffixes.
- The `main()` functions of `clean_model_json.py` and `convert_model.py` are not modelled, beyond the modelTopology rewrite: their file handling, prints and ordering of the rewriters. The rename print in `fix_lstm_weight_names` is left out too.
- Python's in-place mutation of the argument dict is modelled as a returned new value. The model states what the returned value is; it does not model aliasing of the caller's copy.
- Python's `list.sort` (Timsort) is modelled by insertion sort. `GenreRanking.SortedUnique` shows that any stable descending sort gives the same order.
- `genreClassifier.ts` (the browser-side TensorFlow.js call) and `convert_model_colab.py` are not part of this model.
