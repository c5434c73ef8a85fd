/** `powerToDb` of src/lib/audioProcessor.ts: a mel spectrogram in dB
    relative to its own peak, floored at −topDb. */
module Decibel {
  import opened Numeric

  /** The running maximum of `row` started from `acc`; an entry replaces the
      maximum only when strictly greater. */
  function RowPeak(row: seq<real>, acc: real): (r: real)
    ensures r >= acc
    ensures forall i :: 0 <= i < |row| ==> row[i] <= r
    ensures r == acc || exists i :: 0 <= i < |row| && row[i] == r
    decreases |row|
  {
    if |row| == 0 then acc
    else
      var r := RowPeak(row[1..], if row[0] > acc then row[0] else acc);
      assert forall i :: 1 <= i < |row| ==> row[i] == row[1..][i - 1];
      r
  }

  /** The running maximum over every entry of every frame, frame by frame. */
  function Peak(spec: seq<seq<real>>, acc: real): (r: real)
    ensures r >= acc
    ensures forall f, i :: 0 <= f < |spec| && 0 <= i < |spec[f]| ==> spec[f][i] <= r
    ensures r == acc || exists f, i :: 0 <= f < |spec| && 0 <= i < |spec[f]| && spec[f][i] == r
    decreases |spec|
  {
    if |spec| == 0 then acc
    else
      var r := Peak(spec[1..], RowPeak(spec[0], acc));
      assert forall f :: 1 <= f < |spec| ==> spec[f] == spec[1..][f - 1];
      r
  }

  /** `maxVal`: the largest entry, or 0 when every entry is negative or there
      is none. */
  function MaxEntry(spec: seq<seq<real>>): (r: real)
    ensures r >= 0.0
    ensures forall f, i :: 0 <= f < |spec| && 0 <= i < |spec[f]| ==> spec[f][i] <= r
    ensures r == 0.0 || exists f, i :: 0 <= f < |spec| && 0 <= i < |spec[f]| && spec[f][i] == r
  {
    Peak(spec, 0.0)
  }

  /** One entry in dB: 10 · log10(max(x, amin) / ref), raised to −topDb when
      below it. */
  function Db(t: Transcendentals, x: real, ref: real, amin: real, topDb: real): (d: real)
    requires ref > 0.0
    ensures d >= -topDb
  {
    var db := 10.0 * t.log10(MaxReal(x, amin) / ref);
    if db < -topDb then -topDb else db
  }

  /** Db is order preserving: a louder entry is never fewer dB. */
  lemma DbMonotone(t: Transcendentals, x: real, y: real, ref: real, amin: real, topDb: real)
    requires Log10Axioms(t) && ref > 0.0 && amin > 0.0 && x <= y
    ensures Db(t, x, ref, amin, topDb) <= Db(t, y, ref, amin, topDb)
  {
    assert MaxReal(x, amin) <= MaxReal(y, amin);
    DivideMonotone(MaxReal(x, amin), MaxReal(y, amin), ref);
    assert MaxReal(x, amin) / ref > 0.0;
  }

  /** An entry no larger than the reference is at most 0 dB, and one equal to
      it is exactly 0 dB. */
  lemma DbAtMostZero(t: Transcendentals, x: real, ref: real, amin: real, topDb: real)
    requires Log10Axioms(t) && topDb >= 0.0 && amin > 0.0 && ref >= amin && x <= ref
    ensures Db(t, x, ref, amin, topDb) <= 0.0
    ensures x == ref ==> Db(t, x, ref, amin, topDb) == 0.0
  {
    var v := MaxReal(x, amin);
    DivideMonotone(v, ref, ref);
    assert ref / ref == 1.0;
    assert v / ref > 0.0;
  }

  ghost predicate SameShape(a: seq<seq<real>>, b: seq<seq<real>>) {
    |a| == |b| && forall f :: 0 <= f < |a| ==> |a[f]| == |b[f]|
  }

  /** `powerToDb(melSpectrogram, refValue, amin, topDb)`. Every entry ends up
      in [−topDb, 0], the loudest entry (when at least `amin`) is exactly
      0 dB, and the conversion keeps the shape. */
  function PowerToDb(t: Transcendentals, spec: seq<seq<real>>, amin: real, topDb: real): (r: seq<seq<real>>)
    requires amin > 0.0
    ensures SameShape(r, spec)
    ensures forall f, i :: 0 <= f < |r| && 0 <= i < |r[f]| ==> r[f][i] >= -topDb
    ensures Log10Axioms(t) && topDb >= 0.0 ==>
      forall f, i :: 0 <= f < |r| && 0 <= i < |r[f]| ==> r[f][i] <= 0.0
    ensures Log10Axioms(t) && topDb >= 0.0 ==>
      forall f, i :: 0 <= f < |r| && 0 <= i < |r[f]| && spec[f][i] == MaxEntry(spec) >= amin ==> r[f][i] == 0.0
  {
    var ref := MaxReal(MaxEntry(spec), amin);
    var r := DbEntries(t, spec, ref, amin, topDb);
    assert Log10Axioms(t) && topDb >= 0.0 ==> forall f, i :: 0 <= f < |r| && 0 <= i < |r[f]| ==>
      r[f][i] <= 0.0 && (spec[f][i] == MaxEntry(spec) >= amin ==> r[f][i] == 0.0) by {
      if Log10Axioms(t) && topDb >= 0.0 {
        forall f, i | 0 <= f < |r| && 0 <= i < |r[f]|
          ensures r[f][i] <= 0.0 && (spec[f][i] == MaxEntry(spec) >= amin ==> r[f][i] == 0.0)
        {
          DbAtMostZero(t, spec[f][i], ref, amin, topDb);
        }
      }
    }
    r
  }

  /** Db applied to every entry, keeping the shape. */
  function DbEntries(t: Transcendentals, spec: seq<seq<real>>, ref: real, amin: real, topDb: real): (r: seq<seq<real>>)
    requires ref > 0.0
    ensures SameShape(r, spec)
    ensures forall f, i :: 0 <= f < |r| && 0 <= i < |r[f]| ==> r[f][i] == Db(t, spec[f][i], ref, amin, topDb)
  {
    seq(|spec|, f requires 0 <= f < |spec| =>
      seq(|spec[f]|, i requires 0 <= i < |spec[f]| => Db(t, spec[f][i], ref, amin, topDb)))
  }

  /** PowerToDb preserves order between any two entries of the spectrogram. */
  lemma PowerToDbMonotone(t: Transcendentals, spec: seq<seq<real>>, amin: real, topDb: real, f: nat, i: nat, g: nat, j: nat)
    requires Log10Axioms(t) && amin > 0.0
    requires f < |spec| && i < |spec[f]| && g < |spec| && j < |spec[g]|
    requires spec[f][i] <= spec[g][j]
    ensures PowerToDb(t, spec, amin, topDb)[f][i] <= PowerToDb(t, spec, amin, topDb)[g][j]
  {
    var ref := MaxReal(MaxEntry(spec), amin);
    DbMonotone(t, spec[f][i], spec[g][j], ref, amin, topDb);
  }
}
