/** `fix_input_layer` (clean_model_json.py): in every InputLayer dict with a
    config, Keras 3's `batch_shape` (or else `batch_input_shape`) is renamed
    to the `batchInputShape` TensorFlow.js reads. */
module InputLayer {
  import opened Wrappers
  import opened JsonValues

  const BatchShape := "batch_shape"
  const BatchInputShape := "batch_input_shape"
  const TfjsShape := "batchInputShape"

  predicate IsInputLayer(fields: seq<Field>) {
    Get(fields, "class_name") == Some(JStr("InputLayer")) && HasKey(fields, "config")
  }

  /** The guard `from in config and "batchInputShape" not in config`. */
  function Renames(config: Json, from: string): Option<bool> {
    var a, b := Membership(config, from), Membership(config, TfjsShape);
    if a.None? || b.None? then None else Some(a.value && !b.value)
  }

  /** The config is one Python can process without raising: a dict, or a
      list or string for which neither rename guard fires (a rename would
      assign into it). */
  predicate ConfigSafe(config: Json) {
    || config.JObj?
    || (Renames(config, BatchShape) == Some(false) && Renames(config, BatchInputShape) == Some(false))
  }

  /** `config[to] = config.pop(from)`: the value leaves its place and is
      appended under the new name. */
  function MoveKey(fields: seq<Field>, from: string, to: string): (r: seq<Field>)
    requires HasKey(fields, from)
    ensures |r| == |fields| && FieldsSize(r) == FieldsSize(fields)
  {
    var v := Get(fields, from).value;
    RemoveKeySize(fields, from);
    FieldsSizeAppend(RemoveKey(fields, from), [Field(to, v)]);
    assert [Field(to, v)][..0] == [];
    RemoveKey(fields, from) + [Field(to, v)]
  }

  /** The renaming `fix_input_layer` applies to one InputLayer config.
      Lists and strings pass unchanged. */
  function FixConfig(config: Json): (r: Json)
    requires ConfigSafe(config)
    ensures Size(r) == Size(config)
    ensures !config.JObj? ==> r == config
    ensures config.JObj? ==> r.JObj? && |r.fields| == |config.fields|
  {
    match config
    case JObj(fields) =>
      var fs := if HasKey(fields, BatchShape) && !HasKey(fields, TfjsShape)
        then MoveKey(fields, BatchShape, TfjsShape) else fields;
      var fs' := if HasKey(fs, BatchInputShape) && !HasKey(fs, TfjsShape)
        then MoveKey(fs, BatchInputShape, TfjsShape) else fs;
      JObj(fs')
    case _ => config
  }

  /** What the rename does to a dict config: `batch_shape` wins when both
      old names are present, `batch_input_shape` is used otherwise, nothing
      happens when `batchInputShape` already exists, and every other key
      keeps its value. */
  lemma ConfigRenames(fields: seq<Field>)
    requires UniqueKeys(fields)
    ensures var r := FixConfig(JObj(fields)).fields;
      && UniqueKeys(r)
      && (HasKey(fields, TfjsShape) ==> r == fields)
      && (!HasKey(fields, BatchShape) && !HasKey(fields, BatchInputShape) ==> r == fields)
      && (!HasKey(fields, TfjsShape) && HasKey(fields, BatchShape) ==>
            && Get(r, TfjsShape) == Get(fields, BatchShape)
            && !HasKey(r, BatchShape)
            && Get(r, BatchInputShape) == Get(fields, BatchInputShape))
      && (!HasKey(fields, TfjsShape) && !HasKey(fields, BatchShape) && HasKey(fields, BatchInputShape) ==>
            && Get(r, TfjsShape) == Get(fields, BatchInputShape)
            && !HasKey(r, BatchInputShape))
      && (forall k :: k != BatchShape && k != BatchInputShape && k != TfjsShape ==> Get(r, k) == Get(fields, k))
  {
    var r := FixConfig(JObj(fields)).fields;
    if !HasKey(fields, TfjsShape) && HasKey(fields, BatchShape) {
      var fs := MoveKey(fields, BatchShape, TfjsShape);
      var v := Get(fields, BatchShape).value;
      RemoveKeyGone(fields, BatchShape);
      RemoveKeyGet(fields, BatchShape, TfjsShape);
      RemoveKeyGet(fields, BatchShape, BatchInputShape);
      AppendNewKey(RemoveKey(fields, BatchShape), TfjsShape, v);
      IndexOfAppend(RemoveKey(fields, BatchShape), Field(TfjsShape, v), BatchShape);
      IndexOfAppend(RemoveKey(fields, BatchShape), Field(TfjsShape, v), BatchInputShape);
      assert r == fs;
      forall k | k != BatchShape && k != BatchInputShape && k != TfjsShape
        ensures Get(r, k) == Get(fields, k)
      {
        RemoveKeyGet(fields, BatchShape, k);
        IndexOfAppend(RemoveKey(fields, BatchShape), Field(TfjsShape, v), k);
      }
    } else if !HasKey(fields, TfjsShape) && HasKey(fields, BatchInputShape) {
      var v := Get(fields, BatchInputShape).value;
      RemoveKeyGone(fields, BatchInputShape);
      RemoveKeyGet(fields, BatchInputShape, TfjsShape);
      AppendNewKey(RemoveKey(fields, BatchInputShape), TfjsShape, v);
      IndexOfAppend(RemoveKey(fields, BatchInputShape), Field(TfjsShape, v), BatchInputShape);
      forall k | k != BatchShape && k != BatchInputShape && k != TfjsShape
        ensures Get(r, k) == Get(fields, k)
      {
        RemoveKeyGet(fields, BatchInputShape, k);
        IndexOfAppend(RemoveKey(fields, BatchInputShape), Field(TfjsShape, v), k);
      }
    }
  }

  /** The InputLayer check of `fix_input_layer` on one dict: the config of an InputLayer is fixed in place. */
  function InputStep(fields: seq<Field>): (r: seq<Field>)
    requires IsInputLayer(fields) ==> ConfigSafe(Get(fields, "config").value)
    ensures |r| == |fields| && FieldsSize(r) == FieldsSize(fields)
    ensures forall i :: 0 <= i < |r| ==> r[i].key == fields[i].key
    ensures forall i :: 0 <= i < |r| && fields[i].key != "config" ==> r[i] == fields[i]
  {
    if IsInputLayer(fields) then
      var c := Get(fields, "config").value;
      SetKeySize(fields, "config", FixConfig(c));
      SetKey(fields, "config", FixConfig(c))
    else fields
  }

  /** Python completes `fix_input_layer(j)` without raising: every InputLayer
      config it reaches is safe. */
  ghost predicate InputLayersSafe(j: Json)
    decreases Size(j)
  {
    match j
    case JObj(fields) =>
      && (IsInputLayer(fields) ==> ConfigSafe(Get(fields, "config").value))
      && var fs := InputStep(fields);
         forall i :: 0 <= i < |fs| ==> (FieldSmaller(fs, i); InputLayersSafe(fs[i].value))
    case JArr(items) =>
      forall i :: 0 <= i < |items| ==> (ItemSmaller(items, i); InputLayersSafe(items[i]))
    case _ => true
  }

  /** `fix_input_layer`: every dict keeps its keys in order and every list
      its length; scalars are returned as they are. */
  function FixInputLayer(j: Json): (r: Json)
    requires InputLayersSafe(j)
    ensures j.JObj? ==> r.JObj? && Keys(r.fields) == Keys(j.fields)
    ensures j.JArr? ==> r.JArr? && |r.items| == |j.items|
    ensures !j.JObj? && !j.JArr? ==> r == j
    decreases Size(j)
  {
    match j
    case JObj(fields) =>
      var fs := InputStep(fields);
      JObj(seq(|fs|, i requires 0 <= i < |fs| =>
        FieldSmaller(fs, i);
        Field(fs[i].key, FixInputLayer(fs[i].value))))
    case JArr(items) =>
      JArr(seq(|items|, i requires 0 <= i < |items| =>
        ItemSmaller(items, i);
        FixInputLayer(items[i])))
    case _ => j
  }

  /** No InputLayer dict with a config anywhere in `j`. */
  ghost predicate NoInputLayer(j: Json)
    decreases j
  {
    match j
    case JObj(fields) =>
      && !IsInputLayer(fields)
      && forall i :: 0 <= i < |fields| ==> NoInputLayer(fields[i].value)
    case JArr(items) => forall i :: 0 <= i < |items| ==> NoInputLayer(items[i])
    case _ => true
  }

  /** Only InputLayer dicts change: a tree without them is safe and comes
      back unchanged. */
  lemma {:induction false} NoInputLayerUnchanged(j: Json)
    requires NoInputLayer(j)
    ensures InputLayersSafe(j) && FixInputLayer(j) == j
    decreases Size(j)
  {
    match j
    case JObj(fields) =>
      forall i | 0 <= i < |fields|
        ensures InputLayersSafe(fields[i].value) && FixInputLayer(fields[i].value) == fields[i].value
      {
        FieldSmaller(fields, i);
        NoInputLayerUnchanged(fields[i].value);
      }
      var r := FixInputLayer(j);
      assert r.fields == fields;
    case JArr(items) =>
      forall i | 0 <= i < |items|
        ensures InputLayersSafe(items[i]) && FixInputLayer(items[i]) == items[i]
      {
        ItemSmaller(items, i);
        NoInputLayerUnchanged(items[i]);
      }
      var r := FixInputLayer(j);
      assert r.items == items;
    case _ =>
  }

  /** The rewrite keeps every list length and dict key order, and changes
      values only under `config` fields. */
  lemma {:induction false} FixOnlyTouchesConfigs(j: Json)
    requires InputLayersSafe(j)
    ensures AgreeOutside(j, FixInputLayer(j), "config")
    decreases Size(j)
  {
    match j
    case JObj(fields) =>
      var fs := InputStep(fields);
      var r := FixInputLayer(j);
      forall i | 0 <= i < |fields| && fields[i].key != "config"
        ensures AgreeOutside(fields[i].value, r.fields[i].value, "config")
      {
        FieldSmaller(fs, i);
        FixOnlyTouchesConfigs(fs[i].value);
      }
    case JArr(items) =>
      forall i | 0 <= i < |items|
        ensures AgreeOutside(items[i], FixInputLayer(j).items[i], "config")
      {
        ItemSmaller(items, i);
        FixOnlyTouchesConfigs(items[i]);
      }
    case _ =>
  }

  const ExampleShape: Json := JArr([JNull, JNum(128.0), JNum(130.0), JNum(1.0)])
  const ExampleConfig: seq<Field> := [Field("batch_shape", ExampleShape), Field("name", JStr("input"))]
  const ExampleFixed: seq<Field> := [Field("name", JStr("input")), Field("batchInputShape", ExampleShape)]

  lemma ExampleConfigRenamed()
    ensures FixConfig(JObj(ExampleConfig)) == JObj(ExampleFixed)
  {
    assert IndexOf(ExampleConfig, BatchShape) == Some(0);
    assert !HasKey(ExampleConfig, TfjsShape);
    var fs := MoveKey(ExampleConfig, BatchShape, TfjsShape);
    assert RemoveKey(ExampleConfig, BatchShape) == [Field("name", JStr("input"))];
    assert fs == ExampleFixed;
    assert HasKey(fs, TfjsShape) by {
      assert IndexOf(fs, TfjsShape).Some? by {
        assert fs[1].key == TfjsShape;
      }
    }
  }

  lemma ExampleFixedUnchanged()
    ensures InputLayersSafe(JObj(ExampleFixed)) && FixInputLayer(JObj(ExampleFixed)) == JObj(ExampleFixed)
  {
    assert NoInputLayer(ExampleShape);
    assert !IsInputLayer(ExampleFixed) by {
      assert !HasKey(ExampleFixed, "class_name") by {
        assert forall i :: 0 <= i < |ExampleFixed| ==> ExampleFixed[i].key != "class_name";
      }
    }
    NoInputLayerUnchanged(JObj(ExampleFixed));
  }

  const ExampleLayer: seq<Field> := [Field("class_name", JStr("InputLayer")), Field("config", JObj(ExampleConfig))]
  const ExampleLayerFixed: seq<Field> := [Field("class_name", JStr("InputLayer")), Field("config", JObj(ExampleFixed))]

  lemma ExampleLayerStep()
    ensures IsInputLayer(ExampleLayer) && ConfigSafe(JObj(ExampleConfig))
    ensures InputStep(ExampleLayer) == ExampleLayerFixed
  {
    assert IndexOf(ExampleLayer, "class_name") == Some(0);
    assert IndexOf(ExampleLayer, "config") == Some(1);
    ExampleConfigRenamed();
  }

  lemma ExampleLayerSafe()
    ensures InputLayersSafe(JObj(ExampleLayer))
  {
    ExampleLayerStep();
    ExampleFixedUnchanged();
    NoInputLayerUnchanged(JStr("InputLayer"));
  }

  /** A Keras 3 input layer gets the TensorFlow.js key. */
  lemma InputLayerExample()
    ensures InputLayersSafe(JObj(ExampleLayer))
    ensures FixInputLayer(JObj(ExampleLayer)) == JObj(ExampleLayerFixed)
  {
    ExampleLayerSafe();
    ExampleLayerStep();
    ExampleFixedUnchanged();
    NoInputLayerUnchanged(JStr("InputLayer"));
  }
}
