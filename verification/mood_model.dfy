/** The entities of the mood-journey playlist engine (src/lib/moodEngine.ts
    and the types it imports from src/data/songs.ts). The song catalogue and
    the table of mood points are parameters of the operations; emoji, labels,
    language, tempo and classifier confidence are display data and are left
    out. */
module MoodModel {
  import opened Numeric

  datatype MoodType = Sad | Calm | Happy | Energetic | Angry

  /** A named mood on the valence/arousal plane. */
  datatype MoodPoint = MoodPoint(kind: MoodType, valence: real, arousal: real)

  /** A catalogue song; its `energy` plays the part of arousal. */
  datatype Song = Song(id: string, title: string, artist: string, genre: string, valence: real, energy: real)

  datatype Preferences = Preferences(
    preferredGenres: seq<string>,
    favoriteArtists: seq<string>,
    likedSongIds: seq<string>)

  /** A target point of the mood path. */
  datatype Point = Point(valence: real, arousal: real)

  /** A chosen song with the score and matches that chose it, its
      explanation and the target it was chosen for. */
  datatype PlaylistSong = PlaylistSong(
    song: Song,
    moodScore: real,
    genreMatch: bool,
    artistMatch: bool,
    explanation: string,
    targetValence: real,
    targetArousal: real)

  /** `euclideanDistance(v1, a1, v2, a2)`: sqrt((v1 − v2)² + (a1 − a2)²). */
  function Distance(t: Transcendentals, v1: real, a1: real, v2: real, a2: real): (d: real)
    ensures SqrtAxioms(t) ==> d >= 0.0
    ensures SqrtAxioms(t) && v1 == v2 && a1 == a2 ==> d == 0.0
  {
    SquareSign(v1 - v2);
    SquareSign(a1 - a2);
    t.sqrt(Square(v1 - v2) + Square(a1 - a2))
  }

  /** The distance does not depend on the order of the two points. */
  lemma DistanceSymmetric(t: Transcendentals, v1: real, a1: real, v2: real, a2: real)
    ensures Distance(t, v1, a1, v2, a2) == Distance(t, v2, a2, v1, a1)
  {
    SquareNegate(v1 - v2);
    SquareNegate(a1 - a2);
  }

  lemma SquareNegate(x: real)
    ensures Square(x) == Square(-x)
  {
    calc {
      Square(-x);
      == (-x) * (-x);
      == x * x;
    }
  }

  /** Distance from a song (valence, energy) to a target point. */
  function SongDistance(t: Transcendentals, song: Song, p: Point): (d: real)
    ensures SqrtAxioms(t) ==> d >= 0.0
  {
    Distance(t, song.valence, song.energy, p.valence, p.arousal)
  }

  /** The ids of the chosen songs. */
  function PlayedIds(songs: seq<PlaylistSong>): (ids: set<string>)
    ensures forall k :: 0 <= k < |songs| ==> songs[k].song.id in ids
    ensures forall id :: id in ids ==> exists k :: 0 <= k < |songs| && songs[k].song.id == id
  {
    set k | 0 <= k < |songs| :: songs[k].song.id
  }

  /** No song id occurs twice. */
  ghost predicate DistinctIds(songs: seq<Song>) {
    forall i, j :: 0 <= i < j < |songs| ==> songs[i].id != songs[j].id
  }

  ghost predicate DistinctPlayed(songs: seq<PlaylistSong>) {
    forall i, j :: 0 <= i < j < |songs| ==> songs[i].song.id != songs[j].song.id
  }

  function CatalogueIds(songs: seq<Song>): (ids: set<string>)
    ensures forall k :: 0 <= k < |songs| ==> songs[k].id in ids
    ensures forall id :: id in ids ==> exists k :: 0 <= k < |songs| && songs[k].id == id
  {
    set k | 0 <= k < |songs| :: songs[k].id
  }

  /** A subset is no larger than its superset, and strictly smaller when
      it is a proper subset. */
  lemma SubsetCardinality<T>(a: set<T>, b: set<T>)
    requires a <= b
    ensures |a| <= |b|
    ensures a != b ==> |a| < |b|
  {
    assert b == a + (b - a);
    assert a * (b - a) == {};
    if a != b {
      var x :| x in b && x !in a;
      assert x in b - a;
    }
  }

  /** Distinct ids: one id per catalogue entry. */
  lemma {:induction false} CatalogueIdsCardinality(songs: seq<Song>)
    requires DistinctIds(songs)
    ensures |CatalogueIds(songs)| == |songs|
    decreases |songs|
  {
    if |songs| > 0 {
      var front := songs[..|songs| - 1];
      var last := songs[|songs| - 1];
      DistinctFront(songs);
      CatalogueIdsCardinality(front);
      CatalogueIdsSnoc(songs);
    }
  }

  lemma DistinctFront(songs: seq<Song>)
    requires |songs| > 0 && DistinctIds(songs)
    ensures DistinctIds(songs[..|songs| - 1])
    ensures songs[|songs| - 1].id !in CatalogueIds(songs[..|songs| - 1])
  {
    var front := songs[..|songs| - 1];
    forall k | 0 <= k < |front|
      ensures front[k].id != songs[|songs| - 1].id
    {
      assert front[k] == songs[k];
    }
  }

  lemma CatalogueIdsSnoc(songs: seq<Song>)
    requires |songs| > 0
    ensures CatalogueIds(songs) == CatalogueIds(songs[..|songs| - 1]) + {songs[|songs| - 1].id}
  {
    var front := songs[..|songs| - 1];
    forall id | id in CatalogueIds(songs)
      ensures id in CatalogueIds(front) + {songs[|songs| - 1].id}
    {
      var k :| 0 <= k < |songs| && songs[k].id == id;
      if k < |songs| - 1 {
        assert front[k] == songs[k];
      }
    }
    forall id | id in CatalogueIds(front)
      ensures id in CatalogueIds(songs)
    {
      var k :| 0 <= k < |front| && front[k].id == id;
      assert songs[k] == front[k];
    }
  }

  /** With distinct catalogue ids, a set of used catalogue ids at least as
      large as the catalogue holds every catalogue id. */
  lemma ExhaustedWhenFull(used: set<string>, catalogue: seq<Song>)
    requires DistinctIds(catalogue)
    requires used <= CatalogueIds(catalogue)
    requires |used| >= |catalogue|
    ensures forall j :: 0 <= j < |catalogue| ==> catalogue[j].id in used
  {
    CatalogueIdsCardinality(catalogue);
    SubsetCardinality(used, CatalogueIds(catalogue));
  }

  /** With distinct catalogue ids, a set holding every catalogue id is at
      least as large as the catalogue. */
  lemma FullWhenExhausted(used: set<string>, catalogue: seq<Song>)
    requires DistinctIds(catalogue)
    requires forall j :: 0 <= j < |catalogue| ==> catalogue[j].id in used
    ensures |used| >= |catalogue|
  {
    CatalogueIdsCardinality(catalogue);
    SubsetCardinality(CatalogueIds(catalogue), used);
  }
}

