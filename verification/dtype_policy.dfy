/** `clean_dtype_policy` (clean_model_json.py, and the identical copy nested
    in convert_model.py): every dict whose `class_name` is "DTypePolicy"
    becomes the string "float32", at any depth. */
module DtypePolicy {
  import opened Wrappers
  import opened JsonValues

  const Float32: Json := JStr("float32")

  /** A dict describing a Keras 3 dtype policy. */
  predicate IsPolicy(fields: seq<Field>) {
    Get(fields, "class_name") == Some(JStr("DTypePolicy"))
  }

  /** The `dtype` shortcut: a `dtype` field holding a policy dict is set to
      "float32" before the values are visited. */
  function SimplifyDtype(fields: seq<Field>): (r: seq<Field>)
    ensures |r| == |fields| && FieldsSize(r) <= FieldsSize(fields)
    ensures forall i :: 0 <= i < |r| ==> r[i].key == fields[i].key
    ensures forall i :: 0 <= i < |r| ==>
      r[i] == fields[i] || (fields[i].value.JObj? && IsPolicy(fields[i].value.fields) && r[i].value == Float32)
  {
    var d := Get(fields, "dtype");
    if d.Some? && d.value.JObj? && IsPolicy(d.value.fields) then
      SetKeySize(fields, "dtype", Float32);
      SetKey(fields, "dtype", Float32)
    else fields
  }

  /** `clean_dtype_policy`. A policy dict becomes "float32"; any other dict
      keeps its keys in order, a list keeps its length, and a scalar is
      returned as it is. */
  function CleanDtypePolicy(j: Json): (r: Json)
    ensures j.JObj? && IsPolicy(j.fields) ==> r == Float32
    ensures j.JObj? && !IsPolicy(j.fields) ==> r.JObj? && Keys(r.fields) == Keys(j.fields)
    ensures j.JArr? ==> r.JArr? && |r.items| == |j.items|
    ensures !j.JObj? && !j.JArr? ==> r == j
    decreases Size(j)
  {
    match j
    case JObj(fields) =>
      if IsPolicy(fields) then Float32
      else
        var fs := SimplifyDtype(fields);
        JObj(seq(|fs|, i requires 0 <= i < |fs| =>
          FieldSmaller(fs, i);
          Field(fs[i].key, CleanDtypePolicy(fs[i].value))))
    case JArr(items) =>
      JArr(seq(|items|, i requires 0 <= i < |items| =>
        ItemSmaller(items, i);
        CleanDtypePolicy(items[i])))
    case _ => j
  }

  /** No dict with class_name "DTypePolicy" anywhere in `j`. */
  ghost predicate NoPolicy(j: Json)
    decreases j
  {
    match j
    case JObj(fields) =>
      && !IsPolicy(fields)
      && forall i :: 0 <= i < |fields| ==> NoPolicy(fields[i].value)
    case JArr(items) => forall i :: 0 <= i < |items| ==> NoPolicy(items[i])
    case _ => true
  }

  /** `y` is `x` with every policy dict, at any depth, replaced by "float32":
      lists keep their lengths, dicts their keys in order, and every other
      leaf is unchanged. */
  ghost predicate PolicyReplaced(x: Json, y: Json)
    decreases x
  {
    match x
    case JObj(fields) =>
      if IsPolicy(fields) then y == Float32
      else
        && y.JObj? && |y.fields| == |fields|
        && forall i :: 0 <= i < |fields| ==>
             y.fields[i].key == fields[i].key && PolicyReplaced(fields[i].value, y.fields[i].value)
    case JArr(items) =>
      && y.JArr? && |y.items| == |items|
      && forall i :: 0 <= i < |items| ==> PolicyReplaced(items[i], y.items[i])
    case _ => y == x
  }

  /** The rewrite replaces exactly the policy dicts; the `dtype` shortcut
      only anticipates what the recursion does anyway. */
  lemma {:induction false} CleanReplacesPolicies(j: Json)
    ensures PolicyReplaced(j, CleanDtypePolicy(j))
    decreases Size(j)
  {
    match j
    case JObj(fields) =>
      if !IsPolicy(fields) {
        var fs := SimplifyDtype(fields);
        var r := CleanDtypePolicy(j);
        forall i | 0 <= i < |fields|
          ensures PolicyReplaced(fields[i].value, r.fields[i].value)
        {
          FieldSmaller(fields, i);
          if fs[i] == fields[i] {
            CleanReplacesPolicies(fields[i].value);
          } else {
            assert r.fields[i].value == CleanDtypePolicy(Float32) == Float32;
          }
        }
      }
    case JArr(items) =>
      forall i | 0 <= i < |items|
        ensures PolicyReplaced(items[i], CleanDtypePolicy(j).items[i])
      {
        ItemSmaller(items, i);
        CleanReplacesPolicies(items[i]);
      }
    case _ =>
  }

  /** A replaced tree holds no policy dict. */
  lemma {:induction false} ReplacedHasNoPolicy(x: Json, y: Json)
    requires PolicyReplaced(x, y)
    ensures NoPolicy(y)
    decreases x
  {
    match x
    case JObj(fields) =>
      if !IsPolicy(fields) {
        forall i | 0 <= i < |fields|
          ensures NoPolicy(y.fields[i].value)
        {
          ReplacedHasNoPolicy(fields[i].value, y.fields[i].value);
        }
        assert !IsPolicy(y.fields) by {
          IndexOfSameKeysOnly(fields, y.fields, "class_name");
          var k := IndexOf(fields, "class_name");
          if k.Some? {
            PolicyReplacedString(fields[k.value].value, y.fields[k.value].value);
          }
        }
      }
    case JArr(items) =>
      forall i | 0 <= i < |items|
        ensures NoPolicy(y.items[i])
      {
        ReplacedHasNoPolicy(items[i], y.items[i]);
      }
    case _ =>
  }

  /** Replacement maps a string only to itself, and maps nothing else to
      the string "DTypePolicy". */
  lemma PolicyReplacedString(x: Json, y: Json)
    requires PolicyReplaced(x, y)
    ensures y == JStr("DTypePolicy") ==> x == y
  {
  }

  /** After the rewrite no DTypePolicy dict remains, at any depth. */
  lemma CleanLeavesNoPolicy(j: Json)
    ensures NoPolicy(CleanDtypePolicy(j))
  {
    CleanReplacesPolicies(j);
    ReplacedHasNoPolicy(j, CleanDtypePolicy(j));
  }

  /** A tree without policy dicts is returned unchanged. */
  lemma {:induction false} CleanWithoutPolicies(j: Json)
    requires NoPolicy(j)
    ensures CleanDtypePolicy(j) == j
    decreases Size(j)
  {
    match j
    case JObj(fields) =>
      assert Get(fields, "dtype").Some? && Get(fields, "dtype").value.JObj? ==>
        !IsPolicy(Get(fields, "dtype").value.fields);
      assert SimplifyDtype(fields) == fields;
      var r := CleanDtypePolicy(j);
      forall i | 0 <= i < |fields|
        ensures r.fields[i] == fields[i]
      {
        FieldSmaller(fields, i);
        CleanWithoutPolicies(fields[i].value);
      }
      assert r.fields == fields;
    case JArr(items) =>
      var r := CleanDtypePolicy(j);
      forall i | 0 <= i < |items|
        ensures r.items[i] == items[i]
      {
        ItemSmaller(items, i);
        CleanWithoutPolicies(items[i]);
      }
      assert r.items == items;
    case _ =>
  }

  /** Cleaning twice is cleaning once. */
  lemma CleanIdempotent(j: Json)
    ensures CleanDtypePolicy(CleanDtypePolicy(j)) == CleanDtypePolicy(j)
  {
    CleanLeavesNoPolicy(j);
    CleanWithoutPolicies(CleanDtypePolicy(j));
  }

  /** A Keras 3 layer config loses its policy object. */
  lemma LayerExample()
    ensures
      var policy := JObj([Field("class_name", JStr("DTypePolicy")),
                          Field("config", JObj([Field("name", JStr("float32"))]))]);
      CleanDtypePolicy(JObj([Field("name", JStr("dense")), Field("dtype", policy)]))
        == JObj([Field("name", JStr("dense")), Field("dtype", Float32)])
  {
    var policy := JObj([Field("class_name", JStr("DTypePolicy")),
                        Field("config", JObj([Field("name", JStr("float32"))]))]);
    var layer := [Field("name", JStr("dense")), Field("dtype", policy)];
    assert IsPolicy(policy.fields);
    assert !IsPolicy(layer);
    assert IndexOf(layer, "dtype") == Some(1);
    var fs := SimplifyDtype(layer);
    assert fs == [Field("name", JStr("dense")), Field("dtype", Float32)];
  }
}
