/** `generateExplanation` (src/lib/moodEngine.ts): a sentence made of a
    position clause, a mood-fit clause and an optional preference clause,
    joined with single spaces. */
module MoodExplanation {
  import opened Numeric
  import opened Strings
  import opened MoodModel

  datatype Position = Starting | Reaching | Progress(percent: int)

  datatype Fit = PerfectAlignment | ExcellentFit | Bridging

  datatype Mention = FavoriteArtist(artist: string) | PreferredGenre(genre: string) | NoMention

  /** Where step `stepIndex` of `totalSteps` sits in the journey: the first
      step, the last step, or the rounded percentage stepIndex / (totalSteps − 1).
      The percentage would divide by zero for a one-step journey, so that
      case is only admitted at step 0. Inside the journey the percentage is a
      whole number in [0, 100]. */
  function StepPosition(stepIndex: nat, totalSteps: int): (p: Position)
    requires stepIndex == 0 || totalSteps != 1
    ensures p == Starting <==> stepIndex == 0
    ensures p == Reaching <==> stepIndex != 0 && stepIndex == totalSteps - 1
    ensures p.Progress? && stepIndex < totalSteps ==> 0 <= p.percent <= 100
  {
    if stepIndex == 0 then Starting
    else if stepIndex == totalSteps - 1 then Reaching
    else
      var ratio := stepIndex as real / (totalSteps - 1) as real;
      assert stepIndex < totalSteps ==> 0.0 < ratio < 1.0 by {
        if stepIndex < totalSteps {
          assert 0 < stepIndex < totalSteps - 1;
        }
      }
      Progress(JsRound(ratio * 100.0))
  }

  /** Later steps never report a smaller percentage. */
  lemma ProgressMonotone(s1: nat, s2: nat, totalSteps: int)
    requires 0 < s1 <= s2 < totalSteps - 1
    ensures StepPosition(s1, totalSteps).percent <= StepPosition(s2, totalSteps).percent
  {
    var n := (totalSteps - 1) as real;
    DivideMonotone(s1 as real, s2 as real, n);
    FloorMonotone(s1 as real / n * 100.0 + 0.5, s2 as real / n * 100.0 + 0.5);
  }

  /** Distance thresholds 0.15 and 0.25. */
  function MoodFit(d: real): (f: Fit)
    ensures f == PerfectAlignment <==> d < 0.15
    ensures f == ExcellentFit <==> 0.15 <= d < 0.25
    ensures f == Bridging <==> 0.25 <= d
  {
    if d < 0.15 then PerfectAlignment
    else if d < 0.25 then ExcellentFit
    else Bridging
  }

  function FitRank(f: Fit): nat {
    match f
    case PerfectAlignment => 0
    case ExcellentFit => 1
    case Bridging => 2
  }

  /** A closer song never gets a worse fit clause. */
  lemma FitMonotone(d1: real, d2: real)
    requires d1 <= d2
    ensures FitRank(MoodFit(d1)) <= FitRank(MoodFit(d2))
  {
  }

  /** An artist match is mentioned in preference to a genre match. */
  function PreferenceMention(song: Song, genreMatch: bool, artistMatch: bool): (m: Mention)
    ensures m.FavoriteArtist? <==> artistMatch
    ensures m.PreferredGenre? <==> !artistMatch && genreMatch
    ensures m.FavoriteArtist? ==> m.artist == song.artist
    ensures m.PreferredGenre? ==> m.genre == song.genre
  {
    if artistMatch then FavoriteArtist(song.artist)
    else if genreMatch then PreferredGenre(song.genre)
    else NoMention
  }

  const StartingText := "Starting your emotional journey"
  const ReachingText := "Reaching your target mood"
  const FavoriteSuffix := ", one of your favorites"
  const Featuring := " featuring "
  const InPreferred := " in your preferred "
  const GenreSuffix := " genre"

  function PositionText(p: Position): string {
    match p
    case Starting => StartingText
    case Reaching => ReachingText
    case Progress(percent) => IntToString(percent) + "% through your mood transition"
  }

  function FitText(f: Fit): string {
    match f
    case PerfectAlignment => "with perfect mood alignment"
    case ExcellentFit => "with excellent mood fit"
    case Bridging => "bridging to the next emotional state"
  }

  function MentionText(m: Mention): string {
    match m
    case FavoriteArtist(artist) => Featuring + artist + FavoriteSuffix
    case PreferredGenre(genre) => InPreferred + genre + GenreSuffix
    case NoMention => ""
  }

  function StartsWith(s: string, prefix: string): bool {
    |prefix| <= |s| && s[..|prefix|] == prefix
  }

  /** `generateExplanation(song, targetValence, targetArousal, genreMatch,
      artistMatch, stepIndex, totalSteps)`: the position, fit and preference
      clauses joined with single spaces. */
  function GenerateExplanation(
    t: Transcendentals, song: Song, target: Point,
    genreMatch: bool, artistMatch: bool, stepIndex: nat, totalSteps: int)
    : (text: string)
    requires stepIndex == 0 || totalSteps != 1
    ensures |text| >= 1
  {
    var position := StepPosition(stepIndex, totalSteps);
    var fit := MoodFit(SongDistance(t, song, target));
    var mention := PreferenceMention(song, genreMatch, artistMatch);
    PositionText(position) + " " + FitText(fit) + MentionText(mention)
  }

  /** The sentence opens with the starting clause exactly at step 0 and
      with the reaching clause exactly at the last step; it closes by naming
      the song's artist exactly when the artist is a favourite, and
      otherwise names the genre when that is preferred. */
  lemma ExplanationClauses(
    t: Transcendentals, song: Song, target: Point,
    genreMatch: bool, artistMatch: bool, stepIndex: nat, totalSteps: int)
    requires stepIndex == 0 || totalSteps != 1
    ensures var text := GenerateExplanation(t, song, target, genreMatch, artistMatch, stepIndex, totalSteps);
      && (StartsWith(text, StartingText) <==> stepIndex == 0)
      && (StartsWith(text, ReachingText) <==> stepIndex != 0 && stepIndex == totalSteps - 1)
      && (EndsWith(text, FavoriteSuffix) <==> artistMatch)
      && (artistMatch ==> EndsWith(text, Featuring + song.artist + FavoriteSuffix))
      && (!artistMatch && genreMatch ==> EndsWith(text, InPreferred + song.genre + GenreSuffix))
  {
    ExplanationOpening(t, song, target, genreMatch, artistMatch, stepIndex, totalSteps);
    ExplanationClosing(t, song, target, genreMatch, artistMatch, stepIndex, totalSteps);
  }

  lemma ExplanationOpening(
    t: Transcendentals, song: Song, target: Point,
    genreMatch: bool, artistMatch: bool, stepIndex: nat, totalSteps: int)
    requires stepIndex == 0 || totalSteps != 1
    ensures var text := GenerateExplanation(t, song, target, genreMatch, artistMatch, stepIndex, totalSteps);
      && (StartsWith(text, StartingText) <==> stepIndex == 0)
      && (StartsWith(text, ReachingText) <==> stepIndex != 0 && stepIndex == totalSteps - 1)
  {
    var position := StepPosition(stepIndex, totalSteps);
    var fit := MoodFit(SongDistance(t, song, target));
    var mention := PreferenceMention(song, genreMatch, artistMatch);
    var text := PositionText(position) + " " + FitText(fit) + MentionText(mention);
    assert StartsWith(text, PositionText(position)) by {
      assert text[..|PositionText(position)|] == PositionText(position);
    }
    OpeningClause(position, text);
  }

  lemma ExplanationClosing(
    t: Transcendentals, song: Song, target: Point,
    genreMatch: bool, artistMatch: bool, stepIndex: nat, totalSteps: int)
    requires stepIndex == 0 || totalSteps != 1
    ensures var text := GenerateExplanation(t, song, target, genreMatch, artistMatch, stepIndex, totalSteps);
      && (EndsWith(text, FavoriteSuffix) <==> artistMatch)
      && (artistMatch ==> EndsWith(text, Featuring + song.artist + FavoriteSuffix))
      && (!artistMatch && genreMatch ==> EndsWith(text, InPreferred + song.genre + GenreSuffix))
  {
    var position := StepPosition(stepIndex, totalSteps);
    var fit := MoodFit(SongDistance(t, song, target));
    var mention := PreferenceMention(song, genreMatch, artistMatch);
    var body := PositionText(position) + " " + FitText(fit);
    FitTextLast(fit);
    assert body[|body| - 1] == FitText(fit)[|FitText(fit)| - 1];
    ClosingClause(body, mention);
  }

  /** The opening clause decides which of the two fixed openings the
      sentence has. */
  lemma OpeningClause(p: Position, s: string)
    requires StartsWith(s, PositionText(p))
    ensures StartsWith(s, StartingText) <==> p == Starting
    ensures StartsWith(s, ReachingText) <==> p == Reaching
  {
    match p
    case Starting =>
      StartsWithFirst(s, StartingText);
    case Reaching =>
      StartsWithFirst(s, ReachingText);
    case Progress(percent) =>
      var digits := IntToString(percent);
      assert s[0] == digits[0];
      assert s[0] != StartingText[0] && s[0] != ReachingText[0];
  }

  lemma StartsWithFirst(s: string, prefix: string)
    requires StartsWith(s, prefix) && |prefix| >= 1
    ensures s[0] == prefix[0]
  {
    assert s[..|prefix|][0] == s[0];
  }

  lemma FitTextLast(f: Fit)
    ensures |FitText(f)| >= 1 && FitText(f)[|FitText(f)| - 1] != 's'
  {
  }

  /** The closing clause decides how the sentence ends. */
  lemma ClosingClause(body: string, m: Mention)
    requires |body| >= 1 && body[|body| - 1] != 's'
    ensures var s := body + MentionText(m);
      && (EndsWith(s, FavoriteSuffix) <==> m.FavoriteArtist?)
      && (m.FavoriteArtist? ==> EndsWith(s, Featuring + m.artist + FavoriteSuffix))
      && (m.PreferredGenre? ==> EndsWith(s, InPreferred + m.genre + GenreSuffix))
  {
    match m
    case FavoriteArtist(artist) => ClosingArtist(body, artist);
    case PreferredGenre(genre) => ClosingGenre(body, genre);
    case NoMention =>
      assert body + MentionText(m) == body;
      EndsWithLast(body, FavoriteSuffix);
  }

  lemma ClosingArtist(body: string, artist: string)
    ensures var s := body + MentionText(FavoriteArtist(artist));
      && EndsWith(s, FavoriteSuffix)
      && EndsWith(s, Featuring + artist + FavoriteSuffix)
  {
    var phrase := MentionText(FavoriteArtist(artist));
    EndsWithAppend(body, phrase);
    EndsWithAppend(Featuring + artist, FavoriteSuffix);
    EndsWithTrans(body + phrase, phrase, FavoriteSuffix);
  }

  lemma ClosingGenre(body: string, genre: string)
    ensures var s := body + MentionText(PreferredGenre(genre));
      && !EndsWith(s, FavoriteSuffix)
      && EndsWith(s, InPreferred + genre + GenreSuffix)
  {
    var phrase := MentionText(PreferredGenre(genre));
    EndsWithAppend(body, phrase);
    EndsWithAppend(InPreferred + genre, GenreSuffix);
    EndsWithTrans(body + phrase, phrase, GenreSuffix);
    EndsWithLast(body + phrase, GenreSuffix);
    EndsWithLast(body + phrase, FavoriteSuffix);
    assert GenreSuffix[|GenreSuffix| - 1] != FavoriteSuffix[|FavoriteSuffix| - 1];
  }

  lemma EndsWithAppend(a: string, b: string)
    ensures EndsWith(a + b, b)
  {
    assert (a + b)[|a|..] == b;
  }

  lemma EndsWithTrans(s: string, x: string, y: string)
    requires EndsWith(s, x) && EndsWith(x, y)
    ensures EndsWith(s, y)
  {
    assert s[|s| - |y|..] == s[|s| - |x|..][|x| - |y|..];
  }

  /** A string that ends with a suffix ends with its last character. */
  lemma EndsWithLast(s: string, suffix: string)
    ensures EndsWith(s, suffix) && |suffix| >= 1 ==> s[|s| - 1] == suffix[|suffix| - 1]
  {
    if EndsWith(s, suffix) && |suffix| >= 1 {
      assert s[|s| - |suffix|..][|suffix| - 1] == s[|s| - 1];
    }
  }
}
