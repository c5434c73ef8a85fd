/** `fix_lstm_weight_names` (clean_model_json.py): in the weights manifest,
    Keras 3's `…/lstm_cell/…` weight names lose the `lstm_cell` level that
    TensorFlow.js does not expect. */
module LstmNames {
  import opened Wrappers
  import opened Strings
  import opened JsonValues

  const CellSegment := "/lstm_cell/"

  /** Python's `s.replace(pat, rep)`: occurrences are replaced left to
      right, and scanning resumes after each replaced one. */
  function ReplaceAll(s: string, pat: string, rep: string): (r: string)
    requires |pat| > 0
    ensures |rep| == |pat| ==> |r| == |s|
    ensures |s| < |pat| ==> r == s
    decreases |s|
  {
    if |s| < |pat| then s
    else if s[..|pat|] == pat then rep + ReplaceAll(s[|pat|..], pat, rep)
    else [s[0]] + ReplaceAll(s[1..], pat, rep)
  }

  /** A string without the pattern comes back unchanged. */
  lemma {:induction false} ReplaceAbsent(s: string, pat: string, rep: string)
    requires |pat| > 0 && !Contains(s, pat)
    ensures ReplaceAll(s, pat, rep) == s
    decreases |s|
  {
    if |s| >= |pat| {
      ReplaceAbsent(s[1..], pat, rep);
      assert [s[0]] + s[1..] == s;
    }
  }

  /** When no occurrence starts before `k`, the first `k` characters are
      copied as they are. */
  lemma {:induction false} ReplaceCopiesPrefix(s: string, pat: string, rep: string, k: nat)
    requires |pat| > 0 && k <= |s|
    requires forall i :: 0 <= i < k ==> !OccursAt(s, pat, i)
    ensures ReplaceAll(s, pat, rep) == s[..k] + ReplaceAll(s[k..], pat, rep)
    decreases k
  {
    if k > 0 {
      ReplaceNoMatchAtStart(s, pat, rep);
      AbsentInTail(s, pat, k);
      ReplaceCopiesPrefix(s[1..], pat, rep, k - 1);
      assert s[1..][k - 1..] == s[k..];
      assert [s[0]] + s[1..][..k - 1] == s[..k];
    }
  }

  /** Without an occurrence at 0 the first character is copied. */
  lemma ReplaceNoMatchAtStart(s: string, pat: string, rep: string)
    requires |pat| > 0 && |s| > 0 && !OccursAt(s, pat, 0)
    ensures ReplaceAll(s, pat, rep) == [s[0]] + ReplaceAll(s[1..], pat, rep)
  {
    if |s| >= |pat| {
      assert s[..|pat|] == s[0..|pat|];
    }
  }

  /** No occurrence before `k` in `s` means none before `k - 1` in its tail. */
  lemma AbsentInTail(s: string, pat: string, k: nat)
    requires 0 < k <= |s|
    requires forall i :: 0 <= i < k ==> !OccursAt(s, pat, i)
    ensures forall i :: 0 <= i < k - 1 ==> !OccursAt(s[1..], pat, i)
  {
    forall i | 0 <= i < k - 1
      ensures !OccursAt(s[1..], pat, i)
    {
      assert !OccursAt(s, pat, i + 1);
      if i + |pat| <= |s| - 1 {
        assert s[1..][i..i + |pat|] == s[i + 1..i + 1 + |pat|];
      }
    }
  }

  /** A replacement no longer than the pattern never lengthens the string,
      and a strictly shorter one shortens every string holding the
      pattern. */
  lemma {:induction false} ReplaceShortens(s: string, pat: string, rep: string)
    requires |pat| > 0 && |rep| <= |pat|
    ensures |ReplaceAll(s, pat, rep)| <= |s|
    ensures |rep| < |pat| && Contains(s, pat) ==> |ReplaceAll(s, pat, rep)| < |s|
    decreases |s|
  {
    if |s| >= |pat| {
      if s[..|pat|] == pat {
        ReplaceShortens(s[|pat|..], pat, rep);
      } else {
        ReplaceShortens(s[1..], pat, rep);
      }
    }
  }

  /** The rename changes a name exactly when the name holds "/lstm_cell/". */
  lemma RenameChangesIff(name: string)
    ensures ReplaceAll(name, CellSegment, "/") == name <==> !Contains(name, CellSegment)
  {
    if Contains(name, CellSegment) {
      ReplaceShortens(name, CellSegment, "/");
    } else {
      ReplaceAbsent(name, CellSegment, "/");
    }
  }

  const LayerPath := "bidirectional/forward_lstm"

  lemma NoCellInPrefix(a: string)
    requires a == LayerPath + "/lstm_cell/kernel"
    ensures |a| > 26 && forall i :: 0 <= i < 26 ==> !OccursAt(a, CellSegment, i)
  {
    assert forall j :: 0 <= j < 26 && j != 13 ==> a[j] != '/';
    assert a[14] == 'f';
    forall i | 0 <= i < 26
      ensures !OccursAt(a, CellSegment, i)
    {
      assert a[i..i + 11][0] == a[i] && a[i..i + 11][1] == a[i + 1];
    }
  }

  lemma CellTail(t: string)
    requires t == "/lstm_cell/kernel"
    ensures ReplaceAll(t, CellSegment, "/") == "/kernel"
  {
    assert t[..11] == CellSegment;
    assert t[11..] == "kernel";
    ReplaceAbsent("kernel", CellSegment, "/");
  }

  /** The documented case: "bidirectional/forward_lstm/lstm_cell/kernel"
      becomes "bidirectional/forward_lstm/kernel". */
  lemma RenameExample()
    ensures ReplaceAll(LayerPath + "/lstm_cell/kernel", CellSegment, "/") == LayerPath + "/kernel"
  {
    var a := LayerPath + "/lstm_cell/kernel";
    NoCellInPrefix(a);
    ReplaceCopiesPrefix(a, CellSegment, "/", 26);
    assert a[..26] == LayerPath && a[26..] == "/lstm_cell/kernel";
    CellTail(a[26..]);
  }

  /** A single pass: a doubled cell level is reduced once, not twice. */
  lemma RenameSinglePass()
    ensures ReplaceAll("/lstm_cell/lstm_cell/", CellSegment, "/") == "/lstm_cell/"
  {
    var b := "/lstm_cell/lstm_cell/";
    assert b[..11] == CellSegment;
    assert b[11..] == "lstm_cell/";
    ReplaceAbsent("lstm_cell/", CellSegment, "/");
  }

  /** `'name' in weight` and `weight['name'].replace` do not raise: a dict
      whose name is a string, or a list or string without "name". */
  predicate WeightSafe(w: Json) {
    match w
    case JObj(fields) => HasKey(fields, "name") ==> Get(fields, "name").value.JStr?
    case JArr(_) => Membership(w, "name") == Some(false)
    case JStr(_) => Membership(w, "name") == Some(false)
    case _ => false
  }

  /** `'weights' in group` and the loop over `group['weights']` do not
      raise. */
  predicate GroupSafe(g: Json) {
    match g
    case JObj(fields) =>
      HasKey(fields, "weights") ==>
        var ws := Elements(Get(fields, "weights").value);
        ws.Some? && forall i :: 0 <= i < |ws.value| ==> WeightSafe(ws.value[i])
    case JArr(_) => Membership(g, "weights") == Some(false)
    case JStr(_) => Membership(g, "weights") == Some(false)
    case _ => false
  }

  /** Python completes `fix_lstm_weight_names(m)` without raising. */
  predicate ManifestSafe(m: Json) {
    Truthy(m) ==>
      var gs := Elements(m);
      gs.Some? && forall i :: 0 <= i < |gs.value| ==> GroupSafe(gs.value[i])
  }

  /** One entry of a group's `weights`: a dict with a `name` gets the
      name with every `/lstm_cell/` replaced by `/`, in its place, and
      nothing else changes. */
  function RenameWeight(w: Json): (r: Json)
    requires WeightSafe(w)
    ensures !w.JObj? ==> r == w
    ensures w.JObj? ==> r.JObj? && Keys(r.fields) == Keys(w.fields)
    ensures w.JObj? ==> forall k :: k != "name" ==> Get(r.fields, k) == Get(w.fields, k)
    ensures w.JObj? && HasKey(w.fields, "name") ==>
      Get(r.fields, "name") == Some(JStr(ReplaceAll(Get(w.fields, "name").value.s, CellSegment, "/")))
  {
    if w.JObj? && HasKey(w.fields, "name") then
      var before := Get(w.fields, "name").value.s;
      var after := ReplaceAll(before, CellSegment, "/");
      if before != after then JObj(SetKey(w.fields, "name", JStr(after))) else w
    else w
  }

  /** The loop over `group['weights']`: only a list holds dict entries to
      rename (a dict or string yields strings). */
  function RenameWeights(ws: Json): (r: Json)
    requires Elements(ws).Some? && forall i :: 0 <= i < |Elements(ws).value| ==> WeightSafe(Elements(ws).value[i])
  {
    if ws.JArr? then JArr(seq(|ws.items|, i requires 0 <= i < |ws.items| => RenameWeight(ws.items[i])))
    else ws
  }

  function RenameGroup(g: Json): (r: Json)
    requires GroupSafe(g)
  {
    if g.JObj? && HasKey(g.fields, "weights") then
      JObj(SetKey(g.fields, "weights", RenameWeights(Get(g.fields, "weights").value)))
    else g
  }

  /** `fix_lstm_weight_names`. Python mutates the groups in place; the model
      returns the updated manifest. */
  function FixLstmWeightNames(m: Json): (r: Json)
    requires ManifestSafe(m)
    ensures !Truthy(m) ==> r == m
  {
    if !Truthy(m) then m
    else if m.JArr? then JArr(seq(|m.items|, i requires 0 <= i < |m.items| => RenameGroup(m.items[i])))
    else m
  }

  lemma RenameWeightAgrees(w: Json)
    requires WeightSafe(w)
    ensures AgreeOutside(w, RenameWeight(w), "name")
  {
    AgreeOutsideReflexive(w, "name");
    if w.JObj? && HasKey(w.fields, "name") {
      var r := RenameWeight(w);
      forall i | 0 <= i < |w.fields| && w.fields[i].key != "name"
        ensures AgreeOutside(w.fields[i].value, r.fields[i].value, "name")
      {
        AgreeOutsideReflexive(w.fields[i].value, "name");
      }
    }
  }

  lemma RenameGroupAgrees(g: Json)
    requires GroupSafe(g)
    ensures AgreeOutside(g, RenameGroup(g), "name")
  {
    AgreeOutsideReflexive(g, "name");
    if g.JObj? && HasKey(g.fields, "weights") {
      var ws := Get(g.fields, "weights").value;
      var r := RenameGroup(g);
      var k := IndexOf(g.fields, "weights").value;
      forall i | 0 <= i < |g.fields| && g.fields[i].key != "name"
        ensures AgreeOutside(g.fields[i].value, r.fields[i].value, "name")
      {
        if i == k {
          AgreeOutsideReflexive(ws, "name");
          if ws.JArr? {
            forall n | 0 <= n < |ws.items|
              ensures AgreeOutside(ws.items[n], RenameWeights(ws).items[n], "name")
            {
              RenameWeightAgrees(ws.items[n]);
            }
          }
        } else {
          AgreeOutsideReflexive(g.fields[i].value, "name");
        }
      }
    }
  }

  /** Only `name` fields change: the number of groups, the number of
      weights in each group, every key order and every other value are
      kept. */
  lemma FixChangesOnlyNames(m: Json)
    requires ManifestSafe(m)
    ensures AgreeOutside(m, FixLstmWeightNames(m), "name")
  {
    AgreeOutsideReflexive(m, "name");
    if Truthy(m) && m.JArr? {
      forall i | 0 <= i < |m.items|
        ensures AgreeOutside(m.items[i], FixLstmWeightNames(m).items[i], "name")
      {
        RenameGroupAgrees(m.items[i]);
      }
    }
  }

  /** Every weight entry that names itself ends up under the renamed name. */
  lemma FixRenamesWeights(m: Json, g: nat, w: nat)
    requires ManifestSafe(m) && m.JArr? && g < |m.items|
    requires m.items[g].JObj? && HasKey(m.items[g].fields, "weights")
    requires var ws := Get(m.items[g].fields, "weights").value;
      ws.JArr? && w < |ws.items| && ws.items[w].JObj? && HasKey(ws.items[w].fields, "name")
    ensures
      var ws := Get(m.items[g].fields, "weights").value;
      var before := Get(ws.items[w].fields, "name").value;
      var group := FixLstmWeightNames(m).items[g];
      && group.JObj?
      && var ws' := Get(group.fields, "weights").value;
      && ws'.JArr? && |ws'.items| == |ws.items|
      && ws'.items[w].JObj?
      && Get(ws'.items[w].fields, "name") == Some(JStr(ReplaceAll(before.s, CellSegment, "/")))
  {
    var ws := Get(m.items[g].fields, "weights").value;
    var before := Get(ws.items[w].fields, "name").value;
    assert Truthy(m);
    if before.s == ReplaceAll(before.s, CellSegment, "/") {
      assert RenameWeight(ws.items[w]) == ws.items[w];
    }
  }

  /** A manifest whose names all lack "/lstm_cell/" comes back unchanged. */
  ghost predicate NoCellNames(m: Json) {
    m.JArr? ==>
      forall g :: 0 <= g < |m.items| && m.items[g].JObj? && HasKey(m.items[g].fields, "weights") ==>
        var ws := Get(m.items[g].fields, "weights").value;
        ws.JArr? ==>
          forall w :: 0 <= w < |ws.items| && ws.items[w].JObj? && HasKey(ws.items[w].fields, "name") ==>
            var name := Get(ws.items[w].fields, "name").value;
            name.JStr? ==> !Contains(name.s, CellSegment)
  }

  lemma NoCellNamesUnchanged(m: Json)
    requires ManifestSafe(m) && NoCellNames(m)
    ensures FixLstmWeightNames(m) == m
  {
    if Truthy(m) && m.JArr? {
      var r := FixLstmWeightNames(m);
      forall g | 0 <= g < |m.items|
        ensures r.items[g] == m.items[g]
      {
        var grp := m.items[g];
        if grp.JObj? && HasKey(grp.fields, "weights") {
          var ws := Get(grp.fields, "weights").value;
          if ws.JArr? {
            forall w | 0 <= w < |ws.items|
              ensures RenameWeight(ws.items[w]) == ws.items[w]
            {
              var x := ws.items[w];
              if x.JObj? && HasKey(x.fields, "name") {
                ReplaceAbsent(Get(x.fields, "name").value.s, CellSegment, "/");
              }
            }
            assert RenameWeights(ws) == ws;
          }
          SetKeySame(grp.fields, "weights");
        }
      }
      assert r.items == m.items;
    }
  }
}
