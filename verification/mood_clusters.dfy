/** `clusterSongsByMood` (src/lib/moodEngine.ts): each song joins the
    cluster of its nearest mood centroid. */
module MoodClusters {
  import opened Numeric
  import opened MoodModel

  /** The centroids in the order of the mood-point table: sad, calm, happy,
      energetic, angry. */
  function Centroids(moodPoints: MoodType -> MoodPoint): (cs: seq<MoodPoint>)
    ensures |cs| == 5
  {
    [moodPoints(Sad), moodPoints(Calm), moodPoints(Happy), moodPoints(Energetic), moodPoints(Angry)]
  }

  function CentroidDistance(t: Transcendentals, song: Song, c: MoodPoint): real {
    Distance(t, song.valence, song.energy, c.valence, c.arousal)
  }

  /** Centroid `k` is nearest to `song`, and strictly nearer than every
      centroid before it. */
  ghost predicate IsFirstNearest(t: Transcendentals, song: Song, cs: seq<MoodPoint>, k: int) {
    && 0 <= k < |cs|
    && (forall j :: 0 <= j < |cs| ==> CentroidDistance(t, song, cs[k]) <= CentroidDistance(t, song, cs[j]))
    && (forall j :: 0 <= j < k ==> CentroidDistance(t, song, cs[k]) < CentroidDistance(t, song, cs[j]))
  }

  /** The centroid the scan from `minDist = Infinity` settles on: a later
      centroid replaces the current one only when strictly nearer. */
  function FirstNearest(t: Transcendentals, song: Song, cs: seq<MoodPoint>): (k: nat)
    requires |cs| > 0
    ensures IsFirstNearest(t, song, cs, k)
    decreases |cs|
  {
    if |cs| == 1 then 0
    else
      var n := |cs| - 1;
      var k := FirstNearest(t, song, cs[..n]);
      assert cs[..n][k] == cs[k];
      assert forall j :: 0 <= j < n ==> cs[..n][j] == cs[j];
      if CentroidDistance(t, song, cs[n]) < CentroidDistance(t, song, cs[k]) then n else k
  }

  /** The `nearestType` of a song: that of its first nearest centroid, and
      "calm" when there are no centroids at all. */
  function NearestType(t: Transcendentals, song: Song, cs: seq<MoodPoint>): MoodType {
    if |cs| == 0 then Calm else cs[FirstNearest(t, song, cs)].kind
  }

  /** The mood types that have a centroid: the keys of the cluster map. */
  function Kinds(cs: seq<MoodPoint>): set<MoodType> {
    set i | 0 <= i < |cs| :: cs[i].kind
  }

  /** The songs, in order, that `classify` sends to `m`. */
  function Filter(songs: seq<Song>, classify: Song -> MoodType, m: MoodType): (r: seq<Song>)
    ensures |r| <= |songs|
    decreases |songs|
  {
    if |songs| == 0 then []
    else
      var n := |songs| - 1;
      Filter(songs[..n], classify, m) + (if classify(songs[n]) == m then [songs[n]] else [])
  }

  /** The nearest-type labelling of songs for a list of centroids. */
  function Nearest(t: Transcendentals, cs: seq<MoodPoint>): Song -> MoodType {
    song => NearestType(t, song, cs)
  }

  /** The songs, in order, whose nearest type is `m`. */
  function Members(t: Transcendentals, songs: seq<Song>, cs: seq<MoodPoint>, m: MoodType): (r: seq<Song>)
    ensures |r| <= |songs|
  {
    Filter(songs, Nearest(t, cs), m)
  }

  /** `clusterSongsByMood(songs, k)` with the mood-point table as a
      parameter; `k` is ignored, as in the source. The clusters are keyed
      by the centroid types, and each holds, in input order, exactly the
      songs whose nearest centroid has its type. */
  method ClusterSongsByMood(t: Transcendentals, songs: seq<Song>, moodPoints: MoodType -> MoodPoint, k: int)
    returns (clusters: map<MoodType, seq<Song>>)
    ensures clusters.Keys == Kinds(Centroids(moodPoints))
    ensures forall m :: m in clusters ==> clusters[m] == Members(t, songs, Centroids(moodPoints), m)
  {
    var centroids := Centroids(moodPoints);
    clusters := EmptyClusters(centroids);
    clusters := Distribute(songs, Nearest(t, centroids), clusters);
  }

  /** The song loop: each song is appended to the list of its class when
      that class is a key, and dropped otherwise. */
  method Distribute(songs: seq<Song>, classify: Song -> MoodType, empty: map<MoodType, seq<Song>>)
    returns (clusters: map<MoodType, seq<Song>>)
    requires forall m :: m in empty ==> empty[m] == []
    ensures clusters.Keys == empty.Keys
    ensures forall m :: m in clusters ==> clusters[m] == Filter(songs, classify, m)
  {
    clusters := empty;
    var i := 0;
    while i < |songs|
      invariant 0 <= i <= |songs|
      invariant clusters.Keys == empty.Keys
      invariant forall m :: m in clusters ==> clusters[m] == Filter(songs[..i], classify, m)
    {
      var song := songs[i];
      var c := classify(song);
      FilterSnoc(songs, classify, i);
      if c in clusters {
        ghost var before := clusters;
        clusters := clusters[c := clusters[c] + [song]];
        assert forall m :: m in clusters && m != c ==> clusters[m] == before[m];
      }
      i := i + 1;
    }
    assert songs[..i] == songs;
  }

  /** The map from every centroid's type to an empty cluster. */
  method EmptyClusters(centroids: seq<MoodPoint>) returns (clusters: map<MoodType, seq<Song>>)
    ensures clusters.Keys == Kinds(centroids)
    ensures forall m :: m in clusters ==> clusters[m] == []
  {
    clusters := map[];
    var c := 0;
    while c < |centroids|
      invariant 0 <= c <= |centroids|
      invariant clusters.Keys == Kinds(centroids[..c])
      invariant forall m :: m in clusters ==> clusters[m] == []
    {
      KindsSnoc(centroids, c);
      clusters := clusters[centroids[c].kind := []];
      c := c + 1;
    }
    assert centroids[..c] == centroids;
  }

  lemma KindsSnoc(cs: seq<MoodPoint>, c: nat)
    requires c < |cs|
    ensures Kinds(cs[..c + 1]) == Kinds(cs[..c]) + {cs[c].kind}
  {
    assert forall i :: 0 <= i < c ==> cs[..c + 1][i] == cs[..c][i];
    assert cs[..c + 1][c] == cs[c];
  }

  /** One more song extends exactly the list of its classify. */
  lemma FilterSnoc(songs: seq<Song>, classify: Song -> MoodType, i: nat)
    requires i < |songs|
    ensures forall m :: Filter(songs[..i + 1], classify, m)
                     == Filter(songs[..i], classify, m) + (if classify(songs[i]) == m then [songs[i]] else [])
  {
    assert songs[..i + 1][..i] == songs[..i];
  }

  /** With at least one centroid every song is kept: its nearest type is a
      key of the cluster map. */
  lemma NearestIsKey(t: Transcendentals, song: Song, cs: seq<MoodPoint>)
    requires |cs| > 0
    ensures NearestType(t, song, cs) in Kinds(cs)
  {
    var k := FirstNearest(t, song, cs);
    assert cs[k].kind in Kinds(cs);
  }

  function LabelCounts(songs: seq<Song>, classify: Song -> MoodType): nat {
    |Filter(songs, classify, Sad)| + |Filter(songs, classify, Calm)| + |Filter(songs, classify, Happy)|
      + |Filter(songs, classify, Energetic)| + |Filter(songs, classify, Angry)|
  }

  /** Every song gets exactly one of the five labels. */
  lemma {:induction false} LabelsPartition(songs: seq<Song>, classify: Song -> MoodType)
    ensures LabelCounts(songs, classify) == |songs|
    decreases |songs|
  {
    if |songs| > 0 {
      LabelsPartition(songs[..|songs| - 1], classify);
    }
  }

  /** Song `i` is in the list of its own classify. */
  lemma {:induction false} InOwnLabel(songs: seq<Song>, classify: Song -> MoodType, i: nat)
    requires i < |songs|
    ensures songs[i] in Filter(songs, classify, classify(songs[i]))
    decreases |songs|
  {
    var n := |songs| - 1;
    if i < n {
      assert songs[..n][i] == songs[i];
      InOwnLabel(songs[..n], classify, i);
    }
  }

  /** A song is in no list but its own label's, even when it is listed
      more than once. */
  lemma InNoOtherLabel(songs: seq<Song>, classify: Song -> MoodType, i: nat, m: MoodType)
    requires i < |songs|
    requires m != classify(songs[i])
    ensures songs[i] !in Filter(songs, classify, m)
  {
    FilterOnlyLabel(songs, classify, m);
  }

  /** Every song in a label's list is one of the songs and has that label. */
  lemma {:induction false} FilterOnlyLabel(songs: seq<Song>, classify: Song -> MoodType, m: MoodType)
    ensures forall x :: x in Filter(songs, classify, m) ==> x in songs && classify(x) == m
    decreases |songs|
  {
    if |songs| > 0 {
      var n := |songs| - 1;
      FilterOnlyLabel(songs[..n], classify, m);
      forall x | x in songs[..n]
        ensures x in songs
      {
        var j :| 0 <= j < n && songs[..n][j] == x;
        assert songs[j] == x;
      }
    }
  }

  function ClusterSizes(t: Transcendentals, songs: seq<Song>, cs: seq<MoodPoint>): nat {
    |Members(t, songs, cs, Sad)| + |Members(t, songs, cs, Calm)| + |Members(t, songs, cs, Happy)|
      + |Members(t, songs, cs, Energetic)| + |Members(t, songs, cs, Angry)|
  }

  /** The clusters partition the songs: their sizes add up to the number of
      songs, each song counted in the one cluster of its nearest type. */
  lemma ClustersPartition(t: Transcendentals, songs: seq<Song>, cs: seq<MoodPoint>)
    ensures ClusterSizes(t, songs, cs) == |songs|
  {
    LabelsPartition(songs, Nearest(t, cs));
  }

  /** Song `i` is a member of the cluster of its nearest type. */
  lemma MemberOfNearest(t: Transcendentals, songs: seq<Song>, cs: seq<MoodPoint>, i: nat)
    requires i < |songs|
    ensures songs[i] in Members(t, songs, cs, NearestType(t, songs[i], cs))
  {
    InOwnLabel(songs, Nearest(t, cs), i);
  }

  /** A song is a member of no cluster but its nearest type's. */
  lemma MemberOfNoOther(t: Transcendentals, songs: seq<Song>, cs: seq<MoodPoint>, i: nat, m: MoodType)
    requires i < |songs|
    requires m != NearestType(t, songs[i], cs)
    ensures songs[i] !in Members(t, songs, cs, m)
  {
    InNoOtherLabel(songs, Nearest(t, cs), i, m);
  }
}
