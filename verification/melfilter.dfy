/** The triangular mel filterbank (`hzToMel`, `melToHz`, `createMelFilterbank`
    in src/lib/audioProcessor.ts). */
module MelFilterbank {
  import opened Numeric

  /** mel = 2595 · log10(1 + hz / 700). */
  function HzToMel(t: Transcendentals, hz: real): (mel: real)
    ensures Log10Axioms(t) && hz == 0.0 ==> mel == 0.0
    ensures Log10Axioms(t) && hz >= 0.0 ==> mel >= 0.0
  {
    2595.0 * t.log10(1.0 + hz / 700.0)
  }

  /** hz = 700 · (10^(mel / 2595) − 1). */
  function MelToHz(t: Transcendentals, mel: real): (hz: real)
    ensures Pow10Monotone(t) && t.pow10(0.0) == 1.0 && mel >= 0.0 ==> hz >= 0.0
  {
    700.0 * (t.pow10(mel / 2595.0) - 1.0)
  }

  /** `10^x` undoes `log10` on positive arguments. */
  ghost predicate Pow10InvertsLog10(t: Transcendentals) {
    forall x: real :: 0.0 < x ==> t.pow10(t.log10(x)) == x
  }

  /** melToHz inverts hzToMel on every non-negative frequency. */
  lemma MelRoundTrip(t: Transcendentals, hz: real)
    requires Pow10InvertsLog10(t)
    requires hz >= 0.0
    ensures MelToHz(t, HzToMel(t, hz)) == hz
  {
    var x := 1.0 + hz / 700.0;
    assert HzToMel(t, hz) / 2595.0 == t.log10(x);
    assert t.pow10(t.log10(x)) == x;
  }

  lemma HzToMelMonotone(t: Transcendentals, a: real, b: real)
    requires Log10Axioms(t)
    requires 0.0 <= a <= b
    ensures HzToMel(t, a) <= HzToMel(t, b)
  {
    assert 0.0 < 1.0 + a / 700.0 <= 1.0 + b / 700.0;
  }

  lemma MelToHzMonotone(t: Transcendentals, a: real, b: real)
    requires Pow10Monotone(t)
    requires a <= b
    ensures MelToHz(t, a) <= MelToHz(t, b)
  {
    assert a / 2595.0 <= b / 2595.0;
  }

  /** Mel point `i` of `nMels + 2` equally spaced points from `melMin` to `melMax`. */
  function MelPoint(i: nat, nMels: nat, melMin: real, melMax: real): real {
    melMin + (i as real * (melMax - melMin)) / (nMels + 1) as real
  }

  lemma MelPointMonotone(i: nat, j: nat, nMels: nat, melMin: real, melMax: real)
    requires i <= j && melMin <= melMax
    ensures MelPoint(i, nMels, melMin, melMax) <= MelPoint(j, nMels, melMin, melMax)
  {
    var d, n := melMax - melMin, (nMels + 1) as real;
    MulNonNegative((j - i) as real, d);
    assert j as real * d - i as real * d == (j - i) as real * d;
    DivideMonotone(i as real * d, j as real * d, n);
  }

  /** FFT bin of a frequency: floor((nFft + 1) · hz / sampleRate). */
  function HzToBin(nFft: nat, sampleRate: nat, hz: real): int
    requires sampleRate > 0
  {
    (((nFft + 1) as real * hz) / sampleRate as real).Floor
  }

  lemma HzToBinMonotone(nFft: nat, sampleRate: nat, a: real, b: real)
    requires sampleRate > 0 && a <= b
    ensures HzToBin(nFft, sampleRate, a) <= HzToBin(nFft, sampleRate, b)
  {
    var x := ((nFft + 1) as real * a) / sampleRate as real;
    var y := ((nFft + 1) as real * b) / sampleRate as real;
    assert x <= y by {
      MulNonNegative((nFft + 1) as real, b - a);
      assert (nFft + 1) as real * b - (nFft + 1) as real * a == (nFft + 1) as real * (b - a);
      DivideMonotone((nFft + 1) as real * a, (nFft + 1) as real * b, sampleRate as real);
    }
    FloorMonotone(x, y);
  }

  /** The bin points of `createMelFilterbank`: `nMels + 2` mel points equally
      spaced between hzToMel(fMin) and hzToMel(fMax), mapped back to Hz and
      then to FFT bins. */
  function BinPoints(t: Transcendentals, nMels: nat, nFft: nat, sampleRate: nat, fMin: real, fMax: real): (b: seq<int>)
    requires sampleRate > 0
    ensures |b| == nMels + 2
  {
    var lo, hi := HzToMel(t, fMin), HzToMel(t, fMax);
    seq(nMels + 2, i requires 0 <= i < nMels + 2 =>
      HzToBin(nFft, sampleRate, MelToHz(t, MelPoint(i, nMels, lo, hi))))
  }

  /** With monotone log10 and pow10 the bin points never decrease, so every
      triangle has left <= center <= right. */
  lemma BinPointsMonotone(t: Transcendentals, nMels: nat, nFft: nat, sampleRate: nat, fMin: real, fMax: real)
    requires sampleRate > 0
    requires Log10Axioms(t) && Pow10Monotone(t)
    requires 0.0 <= fMin <= fMax
    ensures var b := BinPoints(t, nMels, nFft, sampleRate, fMin, fMax);
            forall i, j :: 0 <= i <= j < |b| ==> b[i] <= b[j]
  {
    var lo, hi := HzToMel(t, fMin), HzToMel(t, fMax);
    HzToMelMonotone(t, fMin, fMax);
    var b := BinPoints(t, nMels, nFft, sampleRate, fMin, fMax);
    forall i, j | 0 <= i <= j < |b|
      ensures b[i] <= b[j]
    {
      MelPointMonotone(i, j, nMels, lo, hi);
      MelToHzMonotone(t, MelPoint(i, nMels, lo, hi), MelPoint(j, nMels, lo, hi));
      HzToBinMonotone(nFft, sampleRate, MelToHz(t, MelPoint(i, nMels, lo, hi)), MelToHz(t, MelPoint(j, nMels, lo, hi)));
    }
  }

  /** Weight of FFT bin `k` in the triangle over `[left, right]` peaking at
      `center`: the rising edge (k − left)/(center − left) on [left, center),
      the falling edge (right − k)/(right − center) on [center, right], zero
      elsewhere. `center != right` rules out the 0/0 the source would compute
      at k == center for a zero-width falling edge. */
  function TriangleWeight(left: int, center: int, right: int, k: int): (w: real)
    requires center != right
    ensures 0.0 <= w <= 1.0
    ensures center < right && k == center ==> w == 1.0
    ensures left <= center < right && (k < left || k > right) ==> w == 0.0
    ensures left <= center < right && left < k < right ==> w > 0.0
  {
    if left <= k < center then
      RatioBounds(k - left, center - left);
      (k - left) as real / (center - left) as real
    else if center <= k <= right then
      RatioBounds(right - k, right - center);
      (right - k) as real / (right - center) as real
    else 0.0
  }

  /** a / b for 0 <= a <= b lies in [0, 1]; it is positive when a is and
      one when a = b. */
  lemma RatioBounds(a: int, b: int)
    requires 0 <= a <= b && b > 0
    ensures 0.0 <= a as real / b as real <= 1.0
    ensures a > 0 ==> a as real / b as real > 0.0
    ensures a == b ==> a as real / b as real == 1.0
  {
    DivideMonotone(a as real, b as real, b as real);
    DivideMonotone(0.0, a as real, b as real);
    if a > 0 {
      assert a as real / b as real * b as real == a as real;
    }
  }

  /** The filter for one mel band, built by the source's two loops over the
      rising and the falling edge; bins outside [0, nFreqs) are skipped. */
  method BuildFilter(left: int, center: int, right: int, nFreqs: nat) returns (filter: seq<real>)
    requires center != right
    ensures |filter| == nFreqs
    ensures forall k :: 0 <= k < nFreqs ==> filter[k] == TriangleWeight(left, center, right, k)
  {
    var f := new real[nFreqs](_ => 0.0);
    var k := left;
    while k < center
      invariant left <= center ==> k <= center
      invariant forall j :: 0 <= j < nFreqs ==>
        f[j] == (if left <= j < k && j < center then (j - left) as real / (center - left) as real else 0.0)
      decreases center - k
    {
      if 0 <= k < nFreqs {
        f[k] := (k - left) as real / (center - left) as real;
      }
      k := k + 1;
    }
    k := center;
    while k <= right
      invariant center <= k
      invariant center <= right ==> k <= right + 1
      invariant forall j :: 0 <= j < nFreqs ==>
        f[j] == (if left <= j < center then (j - left) as real / (center - left) as real
                 else if center <= j < k && j <= right then (right - j) as real / (right - center) as real
                 else 0.0)
      decreases right - k
    {
      if 0 <= k < nFreqs {
        f[k] := (right - k) as real / (right - center) as real;
      }
      k := k + 1;
    }
    filter := f[..];
  }

  /** No filter has a zero-width falling edge: center and right bins differ
      for every band 1..nMels. */
  ghost predicate Nondegenerate(bins: seq<int>) {
    forall m :: 1 <= m < |bins| - 1 ==> bins[m] != bins[m + 1]
  }

  ghost predicate WeightsInUnitRange(bank: seq<seq<real>>) {
    forall m, k :: 0 <= m < |bank| && 0 <= k < |bank[m]| ==> 0.0 <= bank[m][k] <= 1.0
  }

  /** `createMelFilterbank(nMels, nFft, sampleRate, fMin, fMax)`: `nMels`
      filters of `floor(nFft / 2) + 1` weights each; filter `m` is the triangle
      over bin points m, m + 1, m + 2. */
  method CreateMelFilterbank(t: Transcendentals, nMels: nat, nFft: nat, sampleRate: nat, fMin: real, fMax: real)
    returns (bank: seq<seq<real>>)
    requires sampleRate > 0
    requires Nondegenerate(BinPoints(t, nMels, nFft, sampleRate, fMin, fMax))
    ensures |bank| == nMels
    ensures forall m :: 0 <= m < nMels ==> |bank[m]| == nFft / 2 + 1
    ensures var b := BinPoints(t, nMels, nFft, sampleRate, fMin, fMax);
            forall m, k :: 0 <= m < nMels && 0 <= k < nFft / 2 + 1 ==>
              bank[m][k] == TriangleWeight(b[m], b[m + 1], b[m + 2], k)
    ensures WeightsInUnitRange(bank)
  {
    var nFreqs := nFft / 2 + 1;
    var bins := BinPoints(t, nMels, nFft, sampleRate, fMin, fMax);
    bank := [];
    var m := 1;
    while m <= nMels
      invariant 1 <= m <= nMels + 1
      invariant |bank| == m - 1
      invariant forall i :: 0 <= i < |bank| ==> |bank[i]| == nFreqs
      invariant forall i, k :: 0 <= i < |bank| && 0 <= k < nFreqs ==>
        bank[i][k] == TriangleWeight(bins[i], bins[i + 1], bins[i + 2], k)
    {
      bank := AddFilter(bank, bins, nFreqs);
      m := m + 1;
    }
    BankInUnitRange(bank, bins, nFreqs);
  }

  /** One turn of the filterbank loop: the next band's triangle is appended. */
  method AddFilter(bank: seq<seq<real>>, bins: seq<int>, nFreqs: nat) returns (bank': seq<seq<real>>)
    requires |bank| + 2 < |bins| && Nondegenerate(bins)
    requires forall i :: 0 <= i < |bank| ==> |bank[i]| == nFreqs
    requires forall i, k :: 0 <= i < |bank| && 0 <= k < nFreqs ==>
      bank[i][k] == TriangleWeight(bins[i], bins[i + 1], bins[i + 2], k)
    ensures |bank'| == |bank| + 1
    ensures forall i :: 0 <= i < |bank'| ==> |bank'[i]| == nFreqs
    ensures forall i, k :: 0 <= i < |bank'| && 0 <= k < nFreqs ==>
      bank'[i][k] == TriangleWeight(bins[i], bins[i + 1], bins[i + 2], k)
  {
    var m := |bank|;
    var filter := BuildFilter(bins[m], bins[m + 1], bins[m + 2], nFreqs);
    bank' := bank + [filter];
    assert bank'[m] == filter;
    assert forall i :: 0 <= i < m ==> bank'[i] == bank[i];
  }

  /** A bank of triangle filters has every weight in [0, 1]. */
  lemma BankInUnitRange(bank: seq<seq<real>>, bins: seq<int>, nFreqs: nat)
    requires |bins| == |bank| + 2 && Nondegenerate(bins)
    requires forall i :: 0 <= i < |bank| ==> |bank[i]| == nFreqs
    requires forall i, k :: 0 <= i < |bank| && 0 <= k < nFreqs ==>
      bank[i][k] == TriangleWeight(bins[i], bins[i + 1], bins[i + 2], k)
    ensures WeightsInUnitRange(bank)
  {
    forall m, k | 0 <= m < |bank| && 0 <= k < |bank[m]|
      ensures 0.0 <= bank[m][k] <= 1.0
    {
      var w := TriangleWeight(bins[m], bins[m + 1], bins[m + 2], k);
    }
  }
}
