/** `calculateMetrics` (src/lib/moodEngine.ts): smoothness, preference-match
    percentage and average mood distance of a playlist. The two averages are
    0 / 0 — NaN — for an empty playlist; the model reports them as None. */
module MoodMetrics {
  import opened Wrappers
  import opened Numeric
  import opened MoodModel

  datatype Metrics = Metrics(
    smoothnessScore: int,
    preferenceMatchPercentage: Option<int>,
    avgMoodDistance: Option<real>)

  /** |expected change − actual change| between songs i − 1 and i: the path
      step against the step between the two songs' (valence, energy). */
  function TransitionGap(t: Transcendentals, playlist: seq<PlaylistSong>, path: seq<Point>, i: nat): (g: real)
    requires 1 <= i < |playlist| <= |path|
    ensures g >= 0.0
  {
    var expected := Distance(t, path[i - 1].valence, path[i - 1].arousal, path[i].valence, path[i].arousal);
    var prev, curr := playlist[i - 1].song, playlist[i].song;
    var actual := Distance(t, prev.valence, prev.energy, curr.valence, curr.energy);
    Abs(expected - actual)
  }

  /** The total transition error over the transitions into songs 1 .. n − 1. */
  function TransitionError(t: Transcendentals, playlist: seq<PlaylistSong>, path: seq<Point>, n: nat): (e: real)
    requires n <= |playlist| <= |path|
    ensures e >= 0.0
    ensures n <= 1 ==> e == 0.0
    decreases n
  {
    if n <= 1 then 0.0
    else TransitionError(t, playlist, path, n - 1) + TransitionGap(t, playlist, path, n - 1)
  }

  /** max(0, 100 − error · 100 · (len − 1)), rounded. */
  function Smoothness(error: real, len: nat): (s: int)
    requires error >= 0.0
    requires len >= 1 || error == 0.0
    ensures 0 <= s <= 100
  {
    var raw := 100.0 - error * 100.0 * (len - 1) as real;
    assert raw <= 100.0 by {
      if len >= 1 {
        MulNonNegative(error * 100.0, (len - 1) as real);
      }
    }
    JsRound(MaxReal(0.0, raw))
  }

  /** No transition error means full smoothness, and a larger error never
      gives a higher score. */
  lemma SmoothnessMonotone(e1: real, e2: real, len: nat)
    requires 0.0 <= e1 <= e2
    requires len >= 1
    ensures Smoothness(e2, len) <= Smoothness(e1, len)
    ensures Smoothness(0.0, len) == 100
  {
    var k := 100.0 * (len - 1) as real;
    assert e1 * 100.0 * (len - 1) as real == e1 * k;
    assert e2 * 100.0 * (len - 1) as real == e2 * k;
    MulNonNegative(e2 - e1, k);
    assert e1 * k <= e2 * k;
    FloorMonotone(MaxReal(0.0, 100.0 - e2 * k) + 0.5, MaxReal(0.0, 100.0 - e1 * k) + 0.5);
  }

  function CountGenreMatches(playlist: seq<PlaylistSong>): (c: nat)
    ensures c <= |playlist|
    ensures (forall i :: 0 <= i < |playlist| ==> playlist[i].genreMatch) ==> c == |playlist|
    ensures (forall i :: 0 <= i < |playlist| ==> !playlist[i].genreMatch) ==> c == 0
    decreases |playlist|
  {
    if |playlist| == 0 then 0
    else CountGenreMatches(playlist[..|playlist| - 1]) + (if playlist[|playlist| - 1].genreMatch then 1 else 0)
  }

  function CountArtistMatches(playlist: seq<PlaylistSong>): (c: nat)
    ensures c <= |playlist|
    ensures (forall i :: 0 <= i < |playlist| ==> playlist[i].artistMatch) ==> c == |playlist|
    ensures (forall i :: 0 <= i < |playlist| ==> !playlist[i].artistMatch) ==> c == 0
    decreases |playlist|
  {
    if |playlist| == 0 then 0
    else CountArtistMatches(playlist[..|playlist| - 1]) + (if playlist[|playlist| - 1].artistMatch then 1 else 0)
  }

  /** round(part / whole · 100). */
  function RoundedPercent(part: nat, whole: nat): (p: int)
    requires part <= whole && whole > 0
    ensures 0 <= p <= 100
    ensures part == whole ==> p == 100
    ensures part == 0 ==> p == 0
  {
    var ratio := part as real / whole as real;
    assert ratio <= 1.0 by {
      DivideMonotone(part as real, whole as real, whole as real);
      assert whole as real / whole as real == 1.0;
    }
    JsRound(ratio * 100.0)
  }

  /** (genre matches + artist matches) / (2 · len) · 100, rounded; None for
      an empty playlist. A percentage in [0, 100]: 100 when every song
      matches both a preferred genre and a favourite artist, 0 when none
      matches either. */
  function PreferencePercentage(playlist: seq<PlaylistSong>): (p: Option<int>)
    ensures p.None? <==> |playlist| == 0
    ensures p.Some? ==> 0 <= p.value <= 100
    ensures |playlist| > 0 && (forall i :: 0 <= i < |playlist| ==> playlist[i].genreMatch && playlist[i].artistMatch)
      ==> p == Some(100)
    ensures |playlist| > 0 && (forall i :: 0 <= i < |playlist| ==> !playlist[i].genreMatch && !playlist[i].artistMatch)
      ==> p == Some(0)
  {
    if |playlist| == 0 then None
    else Some(RoundedPercent(CountGenreMatches(playlist) + CountArtistMatches(playlist), |playlist| * 2))
  }

  /** Σ distance(song, its target) over the first n songs. */
  function DistanceSum(t: Transcendentals, playlist: seq<PlaylistSong>, n: nat): (s: real)
    requires n <= |playlist|
    ensures SqrtAxioms(t) ==> s >= 0.0
    decreases n
  {
    if n == 0 then 0.0
    else
      var song := playlist[n - 1];
      DistanceSum(t, playlist, n - 1) + SongDistance(t, song.song, Point(song.targetValence, song.targetArousal))
  }

  /** The mean distance of songs to their targets, rounded to two decimals;
      None for an empty playlist, never negative otherwise. */
  function AverageDistance(t: Transcendentals, playlist: seq<PlaylistSong>): (d: Option<real>)
    ensures d.None? <==> |playlist| == 0
    ensures SqrtAxioms(t) && d.Some? ==> d.value >= 0.0
  {
    if |playlist| == 0 then None
    else
      var avg := DistanceSum(t, playlist, |playlist|) / |playlist| as real;
      Some(JsRound(avg * 100.0) as real / 100.0)
  }

  /** `calculateMetrics(playlist, preferences, moodPath)`. The path must have
      a point for every song (the source reads moodPath[i] for i < len). */
  function CalculateMetrics(t: Transcendentals, playlist: seq<PlaylistSong>, path: seq<Point>): (m: Metrics)
    requires |playlist| <= |path|
    ensures 0 <= m.smoothnessScore <= 100
    ensures |playlist| <= 1 ==> m.smoothnessScore == 100
    ensures m.preferenceMatchPercentage.Some? ==> 0 <= m.preferenceMatchPercentage.value <= 100
    ensures m.preferenceMatchPercentage.None? <==> |playlist| == 0
    ensures m.avgMoodDistance.None? <==> |playlist| == 0
    ensures SqrtAxioms(t) && m.avgMoodDistance.Some? ==> m.avgMoodDistance.value >= 0.0
  {
    var error := TransitionError(t, playlist, path, |playlist|);
    Metrics(Smoothness(error, |playlist|), PreferencePercentage(playlist), AverageDistance(t, playlist))
  }
}
