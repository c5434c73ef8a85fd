/** The post-processing of `classify_audio` (backend/main.py): the
    per-genre mean of the segment predictions and their stable sort by
    descending confidence. */
module GenreRanking {
  import opened Numeric

  /** `GTZAN_GENRES`, in the order of the model's output units. */
  const Genres: seq<string> :=
    ["blues", "classical", "country", "disco", "hiphop", "jazz", "metal", "pop", "reggae", "rock"]

  lemma GenresDistinct()
    ensures |Genres| == 10
    ensures forall i, j :: 0 <= i < j < |Genres| ==> Genres[i] != Genres[j]
  {
  }

  /** Every row of `preds` has `width` entries. */
  ghost predicate Rectangular(preds: seq<seq<real>>, width: nat) {
    forall s :: 0 <= s < |preds| ==> |preds[s]| == width
  }

  function Column(preds: seq<seq<real>>, i: nat): (c: seq<real>)
    requires forall s :: 0 <= s < |preds| ==> i < |preds[s]|
    ensures |c| == |preds|
    ensures forall s :: 0 <= s < |c| ==> c[s] == preds[s][i]
  {
    seq(|preds|, s requires 0 <= s < |preds| => preds[s][i])
  }

  /** `np.mean(predictions, axis=0)`. */
  function MeanPredictions(preds: seq<seq<real>>, width: nat): (avg: seq<real>)
    requires |preds| >= 1 && Rectangular(preds, width)
    ensures |avg| == width
    ensures forall i :: 0 <= i < width ==> avg[i] == Sum(Column(preds, i)) / |preds| as real
  {
    seq(width, i requires 0 <= i < width => Sum(Column(preds, i)) / |preds| as real)
  }

  /** Means of probabilities are probabilities: entries in [0, 1] give means in
      [0, 1]. */
  lemma MeanInUnitRange(preds: seq<seq<real>>, width: nat)
    requires |preds| >= 1 && Rectangular(preds, width)
    requires forall s, i :: 0 <= s < |preds| && 0 <= i < width ==> 0.0 <= preds[s][i] <= 1.0
    ensures forall i :: 0 <= i < width ==> 0.0 <= MeanPredictions(preds, width)[i] <= 1.0
  {
    forall i | 0 <= i < width
      ensures 0.0 <= MeanPredictions(preds, width)[i] <= 1.0
    {
      var c := Column(preds, i);
      SumNonNegative(c);
      SumBounded(c, 1.0);
      UnitQuotient(Sum(c), |preds| as real);
    }
  }

  lemma UnitQuotient(x: real, n: real)
    requires 0.0 <= x <= n * 1.0 && n > 0.0
    ensures 0.0 <= x / n <= 1.0
  {
    DivideMonotone(x, n, n);
    DivideMonotone(0.0, x, n);
  }

  /** The element-wise sum of two sequences. */
  function Plus(a: seq<real>, b: seq<real>): (c: seq<real>)
    requires |a| == |b|
    ensures |c| == |a|
    ensures forall k :: 0 <= k < |c| ==> c[k] == a[k] + b[k]
  {
    seq(|a|, k requires 0 <= k < |a| => a[k] + b[k])
  }

  lemma {:induction false} SumAdd(a: seq<real>, b: seq<real>)
    requires |a| == |b|
    ensures Sum(Plus(a, b)) == Sum(a) + Sum(b)
    decreases |a|
  {
    if |a| > 0 {
      var n := |a| - 1;
      SumAdd(a[..n], b[..n]);
      assert Plus(a, b)[..n] == Plus(a[..n], b[..n]);
    }
  }

  /** The per-genre totals Σ_s p[s][i]. */
  function ColumnTotals(preds: seq<seq<real>>, width: nat): (t: seq<real>)
    requires Rectangular(preds, width)
    ensures |t| == width
    ensures forall i :: 0 <= i < width ==> t[i] == Sum(Column(preds, i))
  {
    seq(width, i requires 0 <= i < width => Sum(Column(preds, i)))
  }

  /** The per-segment totals Σ_i p[s][i]. */
  function RowTotals(preds: seq<seq<real>>): (t: seq<real>)
    ensures |t| == |preds|
    ensures forall s :: 0 <= s < |preds| ==> t[s] == Sum(preds[s])
  {
    seq(|preds|, s requires 0 <= s < |preds| => Sum(preds[s]))
  }

  /** Σ_i Σ_s p[s][i] = Σ_s Σ_i p[s][i]. */
  lemma {:induction false} SumInterchange(preds: seq<seq<real>>, width: nat)
    requires Rectangular(preds, width)
    ensures Sum(ColumnTotals(preds, width)) == Sum(RowTotals(preds))
    decreases |preds|
  {
    if |preds| == 0 {
      ZeroSum(ColumnTotals(preds, width));
    } else {
      var n := |preds| - 1;
      var front := preds[..n];
      var last := preds[n];
      SumInterchange(front, width);
      ColumnTotalsSnoc(preds, width);
      SumAdd(ColumnTotals(front, width), last);
      assert RowTotals(preds)[..n] == RowTotals(front);
    }
  }

  /** One more segment adds its row to the per-genre totals. */
  lemma ColumnTotalsSnoc(preds: seq<seq<real>>, width: nat)
    requires Rectangular(preds, width) && |preds| > 0
    ensures var n := |preds| - 1;
      ColumnTotals(preds, width) == Plus(ColumnTotals(preds[..n], width), preds[n])
  {
    var n := |preds| - 1;
    var front := preds[..n];
    forall i | 0 <= i < width
      ensures ColumnTotals(preds, width)[i] == ColumnTotals(front, width)[i] + preds[n][i]
    {
      assert Column(preds, i)[..n] == Column(front, i);
    }
  }

  lemma {:induction false} ZeroSum(s: seq<real>)
    requires forall i :: 0 <= i < |s| ==> s[i] == 0.0
    ensures Sum(s) == 0.0
    decreases |s|
  {
    if |s| > 0 {
      ZeroSum(s[..|s| - 1]);
    }
  }

  /** Every entry divided by `d`. */
  function Scale(a: seq<real>, d: real): (c: seq<real>)
    requires d > 0.0
    ensures |c| == |a|
    ensures forall k :: 0 <= k < |c| ==> c[k] == a[k] / d
  {
    seq(|a|, k requires 0 <= k < |a| => a[k] / d)
  }

  lemma {:induction false} SumScale(a: seq<real>, d: real)
    requires d > 0.0
    ensures Sum(Scale(a, d)) == Sum(a) / d
    decreases |a|
  {
    if |a| > 0 {
      var n := |a| - 1;
      SumScale(a[..n], d);
      assert Scale(a, d)[..n] == Scale(a[..n], d);
    }
  }

  lemma {:induction false} SumOfOnes(s: seq<real>)
    requires forall k :: 0 <= k < |s| ==> s[k] == 1.0
    ensures Sum(s) == |s| as real
    decreases |s|
  {
    if |s| > 0 {
      SumOfOnes(s[..|s| - 1]);
    }
  }

  lemma DivideSelf(d: real)
    requires d > 0.0
    ensures d / d == 1.0
  {
  }

  /** When every segment's prediction sums to 1, so does their mean. */
  lemma MeanSumsToOne(preds: seq<seq<real>>, width: nat)
    requires |preds| >= 1 && Rectangular(preds, width)
    requires forall s :: 0 <= s < |preds| ==> Sum(preds[s]) == 1.0
    ensures Sum(MeanPredictions(preds, width)) == 1.0
  {
    var d := |preds| as real;
    var totals := ColumnTotals(preds, width);
    var mean := MeanPredictions(preds, width);
    assert mean == Scale(totals, d) by {
      forall i | 0 <= i < width
        ensures mean[i] == Scale(totals, d)[i]
      {
      }
    }
    calc {
      Sum(mean);
      == { SumScale(totals, d); }
      Sum(totals) / d;
      == { SumInterchange(preds, width); }
      Sum(RowTotals(preds)) / d;
      == { SumOfOnes(RowTotals(preds)); }
      d / d;
      == { DivideSelf(d); }
      1.0;
    }
  }

  /** The order of the stable descending sort: `a` comes before `b` when it has
      the higher confidence, or the same confidence and an earlier genre. */
  predicate Before(conf: seq<real>, a: nat, b: nat)
    requires a < |conf| && b < |conf|
  {
    conf[a] > conf[b] || (conf[a] == conf[b] && a < b)
  }

  ghost predicate InRange(conf: seq<real>, s: seq<nat>) {
    forall j :: 0 <= j < |s| ==> s[j] < |conf|
  }

  ghost predicate StrictlySorted(conf: seq<real>, s: seq<nat>)
    requires InRange(conf, s)
  {
    forall j, k :: 0 <= j < k < |s| ==> Before(conf, s[j], s[k])
  }

  /** Inserts genre `x`, later than every genre already placed, after the
      entries with at least its confidence. */
  function Insert(conf: seq<real>, x: nat, s: seq<nat>): (r: seq<nat>)
    requires x < |conf| && InRange(conf, s) && StrictlySorted(conf, s)
    requires forall j :: 0 <= j < |s| ==> s[j] < x
    ensures |r| == |s| + 1
    ensures InRange(conf, r)
    ensures forall y: nat :: y in r <==> y in s || y == x
    ensures StrictlySorted(conf, r)
    decreases |s|
  {
    if |s| == 0 then [x]
    else if conf[x] > conf[s[0]] then [x] + s
    else
      var rest := Insert(conf, x, s[1..]);
      assert forall y :: y in s[1..] ==> Before(conf, s[0], y);
      [s[0]] + rest
  }

  /** The genres 0..n−1 in the order the stable descending sort leaves them. */
  function SortOrder(conf: seq<real>, n: nat): (r: seq<nat>)
    requires n <= |conf|
    ensures |r| == n
    ensures InRange(conf, r)
    ensures forall y: nat :: y in r <==> y < n
    ensures StrictlySorted(conf, r)
  {
    if n == 0 then []
    else
      var s := SortOrder(conf, n - 1);
      assert forall j :: 0 <= j < |s| ==> s[j] in s;
      Insert(conf, n - 1, s)
  }

  /** The head of a strictly sorted sequence comes before every other member. */
  lemma HeadIsLeast(conf: seq<real>, s: seq<nat>, y: nat)
    requires InRange(conf, s) && StrictlySorted(conf, s) && y in s
    ensures y == s[0] || Before(conf, s[0], y)
  {
    var i :| 0 <= i < |s| && s[i] == y;
    if i > 0 {
      assert Before(conf, s[0], s[i]);
    }
  }

  /** No two different genres each come before the other. */
  lemma BeforeAsymmetric(conf: seq<real>, x: nat, y: nat)
    requires x < |conf| && y < |conf|
    ensures x != y ==> !(Before(conf, x, y) && Before(conf, y, x))
  {
  }

  /** Two strictly sorted arrangements of the same genres start alike. */
  lemma HeadsEqual(conf: seq<real>, a: seq<nat>, b: seq<nat>)
    requires InRange(conf, a) && InRange(conf, b)
    requires StrictlySorted(conf, a) && StrictlySorted(conf, b)
    requires forall y: nat :: y in a <==> y in b
    requires |a| > 0
    ensures |b| > 0 && a[0] == b[0]
  {
    assert a[0] in a;
    assert a[0] in b;
    assert b[0] in b;
    HeadIsLeast(conf, a, b[0]);
    HeadIsLeast(conf, b, a[0]);
    BeforeAsymmetric(conf, a[0], b[0]);
  }

  /** Two arrangements of the same genres that are both strictly sorted are
      equal: the order determines the stable sort's output, whatever the
      sorting algorithm. */
  lemma {:induction false} SortedUnique(conf: seq<real>, a: seq<nat>, b: seq<nat>)
    requires InRange(conf, a) && InRange(conf, b)
    requires StrictlySorted(conf, a) && StrictlySorted(conf, b)
    requires forall y: nat :: y in a <==> y in b
    ensures a == b
    decreases |a|
  {
    if |b| > 0 {
      assert b[0] in a;
    }
    if |a| > 0 {
      HeadsEqual(conf, a, b);
      forall y: nat
        ensures y in a[1..] <==> y in b[1..]
      {
        if y in a[1..] {
          var i :| 1 <= i < |a| && a[i] == y;
          assert Before(conf, a[0], a[i]);
          assert y in b;
        }
        if y in b[1..] {
          var j :| 1 <= j < |b| && b[j] == y;
          assert Before(conf, b[0], b[j]);
          assert y in a;
        }
      }
      SortedUnique(conf, a[1..], b[1..]);
      assert a == [a[0]] + a[1..];
      assert b == [b[0]] + b[1..];
    }
  }

  datatype GenrePrediction = GenrePrediction(genre: string, confidence: real)

  /** The `genre_predictions` list after `sort(key=confidence, reverse=True)`. */
  function RankPredictions(avg: seq<real>): (r: seq<GenrePrediction>)
    requires |avg| == |Genres|
    ensures |r| == |Genres|
    ensures var order := SortOrder(avg, |Genres|);
      forall j :: 0 <= j < |r| ==> r[j] == GenrePrediction(Genres[order[j]], avg[order[j]])
  {
    var order := SortOrder(avg, |Genres|);
    seq(|Genres|, j requires 0 <= j < |Genres| => GenrePrediction(Genres[order[j]], avg[order[j]]))
  }

  /** Every genre appears in the ranking with its mean confidence. */
  lemma RankingCoversGenres(avg: seq<real>, i: nat)
    requires |avg| == |Genres| && i < |Genres|
    ensures exists j :: 0 <= j < |Genres| && RankPredictions(avg)[j] == GenrePrediction(Genres[i], avg[i])
  {
    var order := SortOrder(avg, |Genres|);
    assert i in order;
    var j :| 0 <= j < |order| && order[j] == i;
    assert RankPredictions(avg)[j] == GenrePrediction(Genres[i], avg[i]);
  }

  /** No genre appears twice in the ranking. */
  lemma RankingDistinct(avg: seq<real>, j: nat, k: nat)
    requires |avg| == |Genres| && j < k < |Genres|
    ensures RankPredictions(avg)[j].genre != RankPredictions(avg)[k].genre
  {
    var order := SortOrder(avg, |Genres|);
    assert Before(avg, order[j], order[k]);
    GenresDistinct();
  }

  /** Confidences are non-increasing along the ranking, and two genres of
      equal confidence stay in GTZAN order. */
  lemma RankingOrdered(avg: seq<real>, j: nat, k: nat)
    requires |avg| == |Genres| && j < k < |Genres|
    ensures RankPredictions(avg)[j].confidence >= RankPredictions(avg)[k].confidence
    ensures forall a, b ::
      (0 <= a < |Genres| && 0 <= b < |Genres| &&
       RankPredictions(avg)[j].genre == Genres[a] && RankPredictions(avg)[k].genre == Genres[b] &&
       RankPredictions(avg)[j].confidence == RankPredictions(avg)[k].confidence) ==> a < b
  {
    var order := SortOrder(avg, |Genres|);
    assert Before(avg, order[j], order[k]);
    GenresDistinct();
  }
}
