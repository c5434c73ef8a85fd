/** `scoreSong` and the per-step best-song search of `generateMoodPlaylist`
    (src/lib/moodEngine.ts). */
module MoodScoring {
  import opened Wrappers
  import opened Numeric
  import opened MoodModel

  /** A score: −Infinity for an already used song, a finite value otherwise. */
  datatype Score = NegInf | Finite(value: real)

  /** JavaScript's `a > b` on scores. */
  predicate Greater(a: Score, b: Score) {
    a.Finite? && (b.NegInf? || a.value > b.value)
  }

  datatype Scored = Scored(score: Score, genreMatch: bool, artistMatch: bool)

  /** `scoreSong(song, targetValence, targetArousal, preferences, usedSongIds)`:
      −Infinity with no matches for a used song; otherwise
      0.6·(1 − distance) + 0.2·genre + 0.15·artist + 0.05·liked with the
      bonuses 0.15, 0.2 and 0.1. A fresh song therefore scores at least
      0.6·(1 − distance) and at most 0.065 more, and the two match flags are
      exactly membership in the preferred genres and favourite artists. */
  function ScoreSong(t: Transcendentals, song: Song, target: Point, prefs: Preferences, used: set<string>)
    : (r: Scored)
    ensures r.score.NegInf? <==> song.id in used
    ensures song.id in used ==> !r.genreMatch && !r.artistMatch
    ensures song.id !in used ==>
      && (r.genreMatch <==> song.genre in prefs.preferredGenres)
      && (r.artistMatch <==> song.artist in prefs.favoriteArtists)
    ensures song.id !in used ==>
      var base := 0.6 * (1.0 - SongDistance(t, song, target));
      base <= r.score.value <= base + 0.065
  {
    if song.id in used then Scored(NegInf, false, false)
    else
      var moodScore := 1.0 - SongDistance(t, song, target);
      var genreMatch := song.genre in prefs.preferredGenres;
      var genreScore := if genreMatch then 0.15 else 0.0;
      var artistMatch := song.artist in prefs.favoriteArtists;
      var artistScore := if artistMatch then 0.2 else 0.0;
      var likedScore := if song.id in prefs.likedSongIds then 0.1 else 0.0;
      Scored(Finite(moodScore * 0.6 + genreScore * 0.2 + artistScore * 0.15 + likedScore * 0.05), genreMatch, artistMatch)
  }

  /** The effective weights: a genre match is worth 0.03, an artist match
      0.03 and a liked song 0.005 on top of 0.6·(1 − distance). */
  lemma ScoreWeights(t: Transcendentals, song: Song, target: Point, prefs: Preferences, used: set<string>)
    requires song.id !in used
    ensures ScoreSong(t, song, target, prefs, used).score.value ==
      0.6 * (1.0 - SongDistance(t, song, target))
      + (if song.genre in prefs.preferredGenres then 0.03 else 0.0)
      + (if song.artist in prefs.favoriteArtists then 0.03 else 0.0)
      + (if song.id in prefs.likedSongIds then 0.005 else 0.0)
  {
  }

  /** Between two fresh songs with the same preference matches, the one
      closer to the target scores strictly higher. */
  lemma CloserScoresHigher(t: Transcendentals, s1: Song, s2: Song, target: Point, prefs: Preferences, used: set<string>)
    requires s1.id !in used && s2.id !in used
    requires (s1.genre in prefs.preferredGenres) == (s2.genre in prefs.preferredGenres)
    requires (s1.artist in prefs.favoriteArtists) == (s2.artist in prefs.favoriteArtists)
    requires (s1.id in prefs.likedSongIds) == (s2.id in prefs.likedSongIds)
    requires SongDistance(t, s1, target) < SongDistance(t, s2, target)
    ensures Greater(ScoreSong(t, s1, target, prefs, used).score, ScoreSong(t, s2, target, prefs, used).score)
  {
    ScoreWeights(t, s1, target, prefs, used);
    ScoreWeights(t, s2, target, prefs, used);
  }

  /** The scores of the whole catalogue for one target. */
  function Scores(t: Transcendentals, catalogue: seq<Song>, target: Point, prefs: Preferences, used: set<string>)
    : (s: seq<Score>)
    ensures |s| == |catalogue|
    ensures forall j :: 0 <= j < |s| ==> s[j] == ScoreSong(t, catalogue[j], target, prefs, used).score
  {
    seq(|catalogue|, j requires 0 <= j < |catalogue| => ScoreSong(t, catalogue[j], target, prefs, used).score)
  }

  /** Index `k` holds a finite score no other score exceeds, and every
      earlier score is strictly lower: the survivor of a left-to-right scan
      that replaces the best only on a strict `>`. */
  ghost predicate IsFirstBest(scores: seq<Score>, k: int) {
    && 0 <= k < |scores|
    && scores[k].Finite?
    && (forall j :: 0 <= j < |scores| ==> !Greater(scores[j], scores[k]))
    && (forall j :: 0 <= j < k ==> Greater(scores[k], scores[j]))
  }

  /** There is at most one first best. */
  lemma FirstBestUnique(scores: seq<Score>, k1: int, k2: int)
    requires IsFirstBest(scores, k1) && IsFirstBest(scores, k2)
    ensures k1 == k2
  {
  }

  /** The inner `mockSongs.forEach` of one step: scan the catalogue from
      −Infinity, keeping a song whenever its score is strictly greater.
      Nothing is picked exactly when every song is used; otherwise the pick
      is the first best, and it is unused. */
  method PickBest(t: Transcendentals, catalogue: seq<Song>, target: Point, prefs: Preferences, used: set<string>)
    returns (best: Option<nat>, scored: Scored)
    ensures best.None? <==> forall j :: 0 <= j < |catalogue| ==> catalogue[j].id in used
    ensures best.Some? ==>
      && IsFirstBest(Scores(t, catalogue, target, prefs, used), best.value)
      && catalogue[best.value].id !in used
      && scored == ScoreSong(t, catalogue[best.value], target, prefs, used)
  {
    ghost var scores := Scores(t, catalogue, target, prefs, used);
    best := None;
    var bestScore := NegInf;
    scored := Scored(NegInf, false, false);
    var j := 0;
    while j < |catalogue|
      invariant 0 <= j <= |catalogue|
      invariant best.None? ==> bestScore == NegInf && forall i :: 0 <= i < j ==> catalogue[i].id in used
      invariant best.Some? ==>
        && best.value < j
        && bestScore == scores[best.value]
        && scored == ScoreSong(t, catalogue[best.value], target, prefs, used)
        && bestScore.Finite?
        && (forall i :: 0 <= i < j ==> !Greater(scores[i], bestScore))
        && (forall i :: 0 <= i < best.value ==> Greater(bestScore, scores[i]))
    {
      var r := ScoreSong(t, catalogue[j], target, prefs, used);
      if Greater(r.score, bestScore) {
        best := Some(j);
        bestScore := r.score;
        scored := r;
      }
      j := j + 1;
    }
  }
}
