/** `generateMoodPlaylist` (src/lib/moodEngine.ts): one target point per
    playlist slot on the line from the current to the target mood, and for
    each, greedily, the best-scoring song not used yet. */
module MoodPlaylist {
  import opened Wrappers
  import opened Numeric
  import opened MoodModel
  import opened MoodPath
  import opened MoodScoring
  import opened MoodExplanation
  import opened MoodMetrics

  datatype PathStep = PathStep(valence: real, arousal: real, step: nat)

  datatype PlaylistResult = PlaylistResult(songs: seq<PlaylistSong>, metrics: Metrics, moodPath: seq<PathStep>)

  /** The entry pushed for `song` at step `step`: its score and matches
      against the songs used so far, its explanation and its target. */
  function Entry(t: Transcendentals, song: Song, target: Point, prefs: Preferences, used: set<string>, step: nat, total: int)
    : (e: PlaylistSong)
    requires song.id !in used
    requires step == 0 || total != 1
    ensures e.song == song && e.targetValence == target.valence && e.targetArousal == target.arousal
  {
    var scored := ScoreSong(t, song, target, prefs, used);
    PlaylistSong(
      song, scored.score.value, scored.genreMatch, scored.artistMatch,
      GenerateExplanation(t, song, target, scored.genreMatch, scored.artistMatch, step, total),
      target.valence, target.arousal)
  }

  /** Entry `k` of the playlist is catalogue song `j`, the first best for
      target `k` given the songs chosen before it. */
  ghost predicate ChosenAt(
    t: Transcendentals, catalogue: seq<Song>, path: seq<Point>, prefs: Preferences,
    songs: seq<PlaylistSong>, total: int, k: int, j: int)
    requires 0 <= k < |songs| && k < |path|
    requires total != 1
  {
    var used := PlayedIds(songs[..k]);
    && IsFirstBest(Scores(t, catalogue, path[k], prefs, used), j)
    && catalogue[j].id !in used
    && songs[k] == Entry(t, catalogue[j], path[k], prefs, used, k, total)
  }

  /** Entry `k` is the first best-scoring unused catalogue song for its target. */
  ghost predicate WellChosen(
    t: Transcendentals, catalogue: seq<Song>, path: seq<Point>, prefs: Preferences,
    songs: seq<PlaylistSong>, total: int, k: int)
    requires 0 <= k < |songs| && k < |path|
    requires total != 1
  {
    exists j :: 0 <= j < |catalogue| && ChosenAt(t, catalogue, path, prefs, songs, total, k, j)
  }

  /** `picks[k]` is the catalogue index chosen for entry k, for every k. */
  ghost predicate ChosenAll(
    t: Transcendentals, catalogue: seq<Song>, path: seq<Point>, prefs: Preferences,
    songs: seq<PlaylistSong>, total: int, picks: seq<nat>)
    requires total != 1
  {
    && |picks| == |songs| <= |path|
    && forall k :: 0 <= k < |songs| ==>
         picks[k] < |catalogue| && ChosenAt(t, catalogue, path, prefs, songs, total, k, picks[k])
  }

  /** Every catalogue song is used. */
  ghost predicate Exhausted(catalogue: seq<Song>, used: set<string>) {
    forall j :: 0 <= j < |catalogue| ==> catalogue[j].id in used
  }

  /** The target points for a playlist of `playlistLength` songs. */
  function TargetPath(moodPoints: MoodType -> MoodPoint, current: MoodType, target: MoodType, playlistLength: int)
    : seq<Point>
    requires playlistLength != 1
  {
    InterpolateMoods(moodPoints(current), moodPoints(target), playlistLength - 1)
  }

  /** The state of the selection loop after `index` targets: `songs` were
      chosen (catalogue indices `picks`), `used` holds their ids, and a
      target went without a song only once the catalogue was exhausted. */
  ghost predicate Selection(
    t: Transcendentals, catalogue: seq<Song>, path: seq<Point>, prefs: Preferences, total: int,
    songs: seq<PlaylistSong>, used: set<string>, picks: seq<nat>, index: int)
    requires total != 1
  {
    && 0 <= index <= |path|
    && |songs| <= index
    && used == PlayedIds(songs)
    && |used| == |songs|
    && DistinctPlayed(songs)
    && used <= CatalogueIds(catalogue)
    && (|songs| < index ==> Exhausted(catalogue, used))
    && (DistinctIds(catalogue) && |songs| >= |catalogue| ==> Exhausted(catalogue, used))
    && (DistinctIds(catalogue) ==> |songs| == Min(index, |catalogue|))
    && ChosenAll(t, catalogue, path, prefs, songs, total, picks)
  }

  /** Choosing the first best unused song for target `index` advances the
      selection by one target. */
  lemma SelectionChoose(
    t: Transcendentals, catalogue: seq<Song>, path: seq<Point>, prefs: Preferences, total: int,
    songs: seq<PlaylistSong>, used: set<string>, picks: seq<nat>, index: int, j: nat, entry: PlaylistSong)
    requires total != 1
    requires Selection(t, catalogue, path, prefs, total, songs, used, picks, index)
    requires index < |path|
    requires j < |catalogue| && catalogue[j].id !in used
    requires IsFirstBest(Scores(t, catalogue, path[index], prefs, used), j)
    requires entry == Entry(t, catalogue[j], path[index], prefs, used, index, total)
    ensures Selection(t, catalogue, path, prefs, total, songs + [entry], used + {catalogue[j].id}, picks + [j], index + 1)
  {
    assert |songs| == index;
    var after, used', picks' := songs + [entry], used + {catalogue[j].id}, picks + [j];
    assert catalogue[j].id in CatalogueIds(catalogue);
    UsedExtended(catalogue, songs, used, entry);
    assert picks'[..|songs|] == picks;
    ChosenExtended(t, catalogue, path, prefs, songs, entry, total, picks');
    if DistinctIds(catalogue) && |after| >= |catalogue| {
      ExhaustedWhenFull(used', catalogue);
    }
  }

  /** The set of used ids follows the played songs when one more unused
      catalogue song is appended. */
  lemma UsedExtended(catalogue: seq<Song>, songs: seq<PlaylistSong>, used: set<string>, entry: PlaylistSong)
    requires used == PlayedIds(songs) && |used| == |songs| && DistinctPlayed(songs)
    requires used <= CatalogueIds(catalogue)
    requires entry.song.id !in used && entry.song.id in CatalogueIds(catalogue)
    ensures var after, used' := songs + [entry], used + {entry.song.id};
      && used' == PlayedIds(after) && |used'| == |after| && DistinctPlayed(after)
      && used' <= CatalogueIds(catalogue)
  {
    PlayedIdsAppend(songs, entry);
    DistinctAppend(songs, entry);
  }

  /** A target with no unused song left advances the selection without a
      song. */
  lemma SelectionSkip(
    t: Transcendentals, catalogue: seq<Song>, path: seq<Point>, prefs: Preferences, total: int,
    songs: seq<PlaylistSong>, used: set<string>, picks: seq<nat>, index: int)
    requires total != 1
    requires Selection(t, catalogue, path, prefs, total, songs, used, picks, index)
    requires index < |path|
    requires Exhausted(catalogue, used)
    ensures Selection(t, catalogue, path, prefs, total, songs, used, picks, index + 1)
  {
    if DistinctIds(catalogue) {
      FullWhenExhausted(used, catalogue);
    }
  }

  /** The `moodPath.forEach` of `generateMoodPlaylist`: for each target in
      turn, the first best-scoring unused song, if any. No song is chosen
      twice, entry k belongs to target k, and with distinct catalogue ids
      there are min(|path|, |catalogue|) entries. */
  method ChooseSongs(t: Transcendentals, catalogue: seq<Song>, path: seq<Point>, prefs: Preferences, total: int)
    returns (songs: seq<PlaylistSong>)
    requires total != 1
    ensures |songs| <= |path|
    ensures DistinctPlayed(songs)
    ensures DistinctIds(catalogue) ==> |songs| == Min(|path|, |catalogue|)
    ensures forall k :: 0 <= k < |songs| ==> WellChosen(t, catalogue, path, prefs, songs, total, k)
  {
    songs := [];
    var used: set<string> := {};
    ghost var picks: seq<nat> := [];
    var index := 0;
    while index < |path|
      invariant Selection(t, catalogue, path, prefs, total, songs, used, picks, index)
    {
      songs, used, picks := SelectFor(t, catalogue, path, prefs, total, songs, used, picks, index);
      index := index + 1;
    }
    AllWellChosen(t, catalogue, path, prefs, songs, total, picks);
  }

  /** One turn of the selection loop: for target `index`, the first
      best-scoring unused song is appended and its id marked used; when
      every song is used, nothing changes. */
  method SelectFor(
    t: Transcendentals, catalogue: seq<Song>, path: seq<Point>, prefs: Preferences, total: int,
    songs: seq<PlaylistSong>, used: set<string>, ghost picks: seq<nat>, index: nat)
    returns (songs': seq<PlaylistSong>, used': set<string>, ghost picks': seq<nat>)
    requires total != 1
    requires Selection(t, catalogue, path, prefs, total, songs, used, picks, index)
    requires index < |path|
    ensures Selection(t, catalogue, path, prefs, total, songs', used', picks', index + 1)
    ensures songs' == songs <==> Exhausted(catalogue, used)
    ensures songs' != songs ==>
      |songs'| == |songs| + 1 && songs'[..|songs|] == songs && songs'[|songs|].song.id !in used
  {
    var best, scored := PickBest(t, catalogue, path[index], prefs, used);
    if best.Some? {
      var j := best.value;
      var song := catalogue[j];
      var entry := PlaylistSong(
        song, scored.score.value, scored.genreMatch, scored.artistMatch,
        GenerateExplanation(t, song, path[index], scored.genreMatch, scored.artistMatch, index, total),
        path[index].valence, path[index].arousal);
      SelectionChoose(t, catalogue, path, prefs, total, songs, used, picks, index, j, entry);
      songs', used', picks' := songs + [entry], used + {song.id}, picks + [j];
      assert songs' != songs by { assert |songs'| != |songs|; }
    } else {
      SelectionSkip(t, catalogue, path, prefs, total, songs, used, picks, index);
      songs', used', picks' := songs, used, picks;
    }
  }

  lemma AllWellChosen(
    t: Transcendentals, catalogue: seq<Song>, path: seq<Point>, prefs: Preferences,
    songs: seq<PlaylistSong>, total: int, picks: seq<nat>)
    requires total != 1
    requires ChosenAll(t, catalogue, path, prefs, songs, total, picks)
    ensures forall k :: 0 <= k < |songs| ==> WellChosen(t, catalogue, path, prefs, songs, total, k)
  {
    forall k | 0 <= k < |songs|
      ensures WellChosen(t, catalogue, path, prefs, songs, total, k)
    {
      assert ChosenAt(t, catalogue, path, prefs, songs, total, k, picks[k]);
    }
  }

  /** `generateMoodPlaylist(currentMood, targetMood, preferences,
      playlistLength)` over `catalogue`. A one-song playlist would
      interpolate over zero steps (t = 0 / 0) and is excluded; the user
      interface offers 4 to 12.

      The mood path has `playlistLength` points tagged 0, 1, …, from the
      current mood to the target mood. No song is chosen twice; entry k is
      the first best-scoring unused song for point k; and with distinct
      catalogue ids the playlist has min(playlistLength, |catalogue|) songs. */
  method GenerateMoodPlaylist(
    t: Transcendentals, catalogue: seq<Song>, moodPoints: MoodType -> MoodPoint,
    current: MoodType, target: MoodType, prefs: Preferences, playlistLength: int)
    returns (r: PlaylistResult)
    requires playlistLength != 1
    ensures var path := TargetPath(moodPoints, current, target, playlistLength);
      && |r.moodPath| == |path| == (if playlistLength >= 2 then playlistLength else 0)
      && forall i :: 0 <= i < |path| ==>
           r.moodPath[i] == PathStep(path[i].valence, path[i].arousal, i)
    ensures playlistLength >= 2 ==>
      && r.moodPath[0].valence == moodPoints(current).valence
      && r.moodPath[0].arousal == moodPoints(current).arousal
      && r.moodPath[playlistLength - 1].valence == moodPoints(target).valence
      && r.moodPath[playlistLength - 1].arousal == moodPoints(target).arousal
    ensures |r.songs| <= |r.moodPath|
    ensures DistinctPlayed(r.songs)
    ensures DistinctIds(catalogue) ==> |r.songs| == Min(|r.moodPath|, |catalogue|)
    ensures var path := TargetPath(moodPoints, current, target, playlistLength);
      forall k :: 0 <= k < |r.songs| ==> WellChosen(t, catalogue, path, prefs, r.songs, playlistLength, k)
    ensures r.metrics == CalculateMetrics(t, r.songs, TargetPath(moodPoints, current, target, playlistLength))
  {
    var path := TargetPath(moodPoints, current, target, playlistLength);
    var songs := ChooseSongs(t, catalogue, path, prefs, playlistLength);
    var moodPath := seq(|path|, i requires 0 <= i < |path| => PathStep(path[i].valence, path[i].arousal, i));
    r := PlaylistResult(songs, CalculateMetrics(t, songs, path), moodPath);
  }

  lemma PlayedIdsAppend(songs: seq<PlaylistSong>, entry: PlaylistSong)
    ensures PlayedIds(songs + [entry]) == PlayedIds(songs) + {entry.song.id}
  {
    var after := songs + [entry];
    assert after[|songs|] == entry;
    forall id | id in PlayedIds(after)
      ensures id in PlayedIds(songs) + {entry.song.id}
    {
      var k :| 0 <= k < |after| && after[k].song.id == id;
      if k < |songs| {
        assert after[k] == songs[k];
      }
    }
    forall id | id in PlayedIds(songs)
      ensures id in PlayedIds(after)
    {
      var k :| 0 <= k < |songs| && songs[k].song.id == id;
      assert after[k] == songs[k];
    }
  }

  lemma DistinctAppend(songs: seq<PlaylistSong>, entry: PlaylistSong)
    requires DistinctPlayed(songs)
    requires entry.song.id !in PlayedIds(songs)
    ensures DistinctPlayed(songs + [entry])
  {
    var after := songs + [entry];
    forall i, j | 0 <= i < j < |after|
      ensures after[i].song.id != after[j].song.id
    {
      assert after[i] == songs[i];
      if j < |songs| {
        assert after[j] == songs[j];
      }
    }
  }

  /** Appending the first best unused song for the next target extends a
      correctly chosen playlist to a correctly chosen playlist. */
  lemma ChosenExtended(
    t: Transcendentals, catalogue: seq<Song>, path: seq<Point>, prefs: Preferences,
    songs: seq<PlaylistSong>, entry: PlaylistSong, total: int, picks: seq<nat>)
    requires total != 1
    requires |songs| < |path| && |picks| == |songs| + 1
    requires ChosenAll(t, catalogue, path, prefs, songs, total, picks[..|songs|])
    requires picks[|songs|] < |catalogue|
    requires IsFirstBest(Scores(t, catalogue, path[|songs|], prefs, PlayedIds(songs)), picks[|songs|])
    requires catalogue[picks[|songs|]].id !in PlayedIds(songs)
    requires entry == Entry(t, catalogue[picks[|songs|]], path[|songs|], prefs, PlayedIds(songs), |songs|, total)
    ensures ChosenAll(t, catalogue, path, prefs, songs + [entry], total, picks)
  {
    var after := songs + [entry];
    forall k | 0 <= k < |after|
      ensures picks[k] < |catalogue| && ChosenAt(t, catalogue, path, prefs, after, total, k, picks[k])
    {
      if k < |songs| {
        assert picks[..|songs|][k] == picks[k];
        assert ChosenAt(t, catalogue, path, prefs, songs, total, k, picks[k]);
        ChosenKept(t, catalogue, path, prefs, songs, entry, total, k, picks[k]);
      } else {
        ChosenNew(t, catalogue, path, prefs, songs, entry, total, picks[|songs|]);
      }
    }
  }

  lemma ChosenKept(
    t: Transcendentals, catalogue: seq<Song>, path: seq<Point>, prefs: Preferences,
    songs: seq<PlaylistSong>, entry: PlaylistSong, total: int, k: nat, j: int)
    requires total != 1
    requires k < |songs| < |path|
    requires ChosenAt(t, catalogue, path, prefs, songs, total, k, j)
    ensures ChosenAt(t, catalogue, path, prefs, songs + [entry], total, k, j)
  {
    var after := songs + [entry];
    assert after[..k] == songs[..k];
    assert after[k] == songs[k];
  }

  lemma ChosenNew(
    t: Transcendentals, catalogue: seq<Song>, path: seq<Point>, prefs: Preferences,
    songs: seq<PlaylistSong>, entry: PlaylistSong, total: int, j: nat)
    requires total != 1
    requires |songs| < |path|
    requires j < |catalogue|
    requires IsFirstBest(Scores(t, catalogue, path[|songs|], prefs, PlayedIds(songs)), j)
    requires catalogue[j].id !in PlayedIds(songs)
    requires entry == Entry(t, catalogue[j], path[|songs|], prefs, PlayedIds(songs), |songs|, total)
    ensures ChosenAt(t, catalogue, path, prefs, songs + [entry], total, |songs|, j)
  {
    var after := songs + [entry];
    assert after[..|songs|] == songs;
    assert after[|songs|] == entry;
  }
}
