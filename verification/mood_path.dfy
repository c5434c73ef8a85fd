/** `interpolateMoods` (src/lib/moodEngine.ts): the target points of a mood
    journey, equally spaced on the segment from the start mood to the end
    mood. */
module MoodPath {
  import opened Numeric
  import opened MoodModel

  /** a + (b − a)·t. */
  function Lerp(a: real, b: real, t: real): real {
    a + (b - a) * t
  }

  /** Point `i` of the loop `for (i = 0; i <= steps; i++)` with t = i / steps. */
  function PathPoint(start: MoodPoint, end: MoodPoint, steps: int, i: int): Point
    requires steps != 0
  {
    var t := i as real / steps as real;
    Point(Lerp(start.valence, end.valence, t), Lerp(start.arousal, end.arousal, t))
  }

  /** `interpolateMoods(start, end, steps)`: steps + 1 points (none when steps
      is negative) running from `start` to `end`. steps == 0 would make every
      t the quotient 0 / 0 and is excluded. */
  function InterpolateMoods(start: MoodPoint, end: MoodPoint, steps: int): (path: seq<Point>)
    requires steps != 0
    ensures |path| == if steps > 0 then steps + 1 else 0
    ensures steps > 0 ==> path[0] == Point(start.valence, start.arousal)
    ensures steps > 0 ==> path[steps] == Point(end.valence, end.arousal)
    ensures forall i :: 0 <= i < |path| ==> path[i] == PathPoint(start, end, steps, i)
  {
    if steps < 0 then []
    else
      var path := seq(steps + 1, i requires 0 <= i <= steps => PathPoint(start, end, steps, i));
      assert path[steps] == Point(end.valence, end.arousal) by {
        assert steps as real / steps as real == 1.0;
      }
      path
  }

  /** Every point lies between the start and end moods, coordinate by
      coordinate. */
  lemma PathBetweenEnds(start: MoodPoint, end: MoodPoint, steps: int, i: int)
    requires steps > 0 && 0 <= i <= steps
    ensures var p := InterpolateMoods(start, end, steps)[i];
      && ((start.valence <= p.valence <= end.valence) || (end.valence <= p.valence <= start.valence))
      && ((start.arousal <= p.arousal <= end.arousal) || (end.arousal <= p.arousal <= start.arousal))
  {
    var t := i as real / steps as real;
    assert 0.0 <= t <= 1.0;
    LerpBetween(start.valence, end.valence, t);
    LerpBetween(start.arousal, end.arousal, t);
  }

  lemma LerpBetween(a: real, b: real, t: real)
    requires 0.0 <= t <= 1.0
    ensures (a <= Lerp(a, b, t) <= b) || (b <= Lerp(a, b, t) <= a)
  {
    if a <= b {
      MulNonNegative(b - a, t);
      MulNonNegative(b - a, 1.0 - t);
      assert (b - a) * (1.0 - t) == (b - a) - (b - a) * t;
    } else {
      MulNonNegative(a - b, t);
      MulNonNegative(a - b, 1.0 - t);
      assert (a - b) * (1.0 - t) == (a - b) - (a - b) * t;
      assert (b - a) * t == -((a - b) * t);
    }
  }

  /** Consecutive points are equally spaced: each step moves by
      (end − start) / steps. */
  lemma PathEvenlySpaced(start: MoodPoint, end: MoodPoint, steps: int, i: int)
    requires steps > 0 && 0 < i <= steps
    ensures var path := InterpolateMoods(start, end, steps);
      && path[i].valence - path[i - 1].valence == (end.valence - start.valence) / steps as real
      && path[i].arousal - path[i - 1].arousal == (end.arousal - start.arousal) / steps as real
  {
    LerpStep(start.valence, end.valence, steps, i);
    LerpStep(start.arousal, end.arousal, steps, i);
  }

  lemma LerpStep(a: real, b: real, steps: int, i: int)
    requires steps > 0
    ensures Lerp(a, b, i as real / steps as real) - Lerp(a, b, (i - 1) as real / steps as real)
      == (b - a) / steps as real
  {
    var n := steps as real;
    calc {
      Lerp(a, b, i as real / n) - Lerp(a, b, (i - 1) as real / n);
      == (b - a) * (i as real / n) - (b - a) * ((i - 1) as real / n);
      == (b - a) * (i as real / n - (i - 1) as real / n);
      == { assert i as real / n - (i - 1) as real / n == 1.0 / n; }
         (b - a) * (1.0 / n);
      == (b - a) / n;
    }
  }
}
