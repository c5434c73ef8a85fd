/** `extract_keras_history`, `convert_inbound_nodes` and `fix_inbound_nodes`
    (clean_model_json.py): Keras 3 records a layer's inputs as call
    arguments holding `__keras_tensor__` dicts; TensorFlow.js expects the
    Keras 2 form, one list of `keras_history` triples per call. */
module InboundNodes {
  import opened Wrappers
  import opened JsonValues

  const KerasTensor := "__keras_tensor__"
  const Inbound := "inbound_nodes"

  predicate IsKerasTensor(fields: seq<Field>) {
    Get(fields, "class_name") == Some(JStr(KerasTensor))
  }

  /** `tensor_config.get('config', {})`. */
  function ConfigOf(fields: seq<Field>): Json {
    if HasKey(fields, "config") then Get(fields, "config").value else JObj([])
  }

  /** Python reads the history without raising: a keras tensor's config is
      a dict (`.get` on anything else is an AttributeError). */
  predicate HistorySafe(t: Json) {
    t.JObj? && IsKerasTensor(t.fields) ==> ConfigOf(t.fields).JObj?
  }

  /** `extract_keras_history`: the truthy `keras_history` of a keras tensor
      dict, and None for everything else. */
  function ExtractKerasHistory(t: Json): (r: Option<Json>)
    requires HistorySafe(t)
    ensures !(t.JObj? && IsKerasTensor(t.fields)) ==> r.None?
    ensures r.Some? ==> Get(ConfigOf(t.fields).fields, "keras_history") == r
    ensures r.Some? ==> Truthy(r.value) && Size(r.value) < Size(t)
  {
    if t.JObj? && IsKerasTensor(t.fields) then
      var config := ConfigOf(t.fields);
      var h := Get(config.fields, "keras_history");
      if h.Some? && Truthy(h.value) then
        GetSmaller(t.fields, "config");
        GetSmaller(config.fields, "keras_history");
        Some(h.value)
      else None
    else None
  }

  /** A tensor dict without a truthy history yields nothing, whatever else
      it holds. */
  lemma ExtractNeedsTruthyHistory(t: Json)
    requires HistorySafe(t) && t.JObj?
    ensures ExtractKerasHistory(t).Some? <==>
      IsKerasTensor(t.fields) &&
      var h := Get(ConfigOf(t.fields).fields, "keras_history");
      h.Some? && Truthy(h.value)
  {
  }

  function OptSeq(o: Option<Json>): (r: seq<Json>)
    ensures |r| <= 1
  {
    if o.Some? then [o.value] else []
  }

  lemma OptSeqSize(o: Option<Json>)
    ensures o.Some? ==> ItemsSize(OptSeq(o)) == Size(o.value)
    ensures o.None? ==> ItemsSize(OptSeq(o)) == 0
  {
    if o.Some? {
      assert OptSeq(o)[..0] == [];
    }
  }

  /** The histories of a list of tensors, in order. */
  function TensorHistories(tensors: seq<Json>): (r: seq<Json>)
    requires forall i :: 0 <= i < |tensors| ==> HistorySafe(tensors[i])
    ensures ItemsSize(r) <= ItemsSize(tensors)
    ensures forall i :: 0 <= i < |r| ==> Truthy(r[i])
    decreases |tensors|
  {
    if |tensors| == 0 then []
    else
      var n := |tensors| - 1;
      var front := TensorHistories(tensors[..n]);
      var h := ExtractKerasHistory(tensors[n]);
      OptSeqSize(h);
      ItemsSizeAppend(front, OptSeq(h));
      front + OptSeq(h)
  }

  predicate ArgSafe(arg: Json) {
    if arg.JArr? then forall i :: 0 <= i < |arg.items| ==> HistorySafe(arg.items[i]) else HistorySafe(arg)
  }

  /** The loop over a node's `args`: a list argument contributes the histories of its
      tensors, any other argument its own history. */
  function ArgHistories(arg: Json): (r: seq<Json>)
    requires ArgSafe(arg)
    ensures ItemsSize(r) < Size(arg)
    ensures !arg.JArr? && !arg.JObj? ==> r == []
  {
    if arg.JArr? then TensorHistories(arg.items)
    else
      OptSeqSize(ExtractKerasHistory(arg));
      OptSeq(ExtractKerasHistory(arg))
  }

  /** The histories of all arguments, in argument order. */
  function ArgsHistories(args: seq<Json>): (r: seq<Json>)
    requires forall i :: 0 <= i < |args| ==> ArgSafe(args[i])
    ensures ItemsSize(r) <= ItemsSize(args)
    ensures (forall i :: 0 <= i < |args| ==> args[i].JStr?) ==> r == []
    decreases |args|
  {
    if |args| == 0 then []
    else
      var n := |args| - 1;
      var front := ArgsHistories(args[..n]);
      ItemsSizeAppend(front, ArgHistories(args[n]));
      front + ArgHistories(args[n])
  }

  predicate NodeSafe(node: Json) {
    node.JObj? && HasKey(node.fields, "args") ==>
      var elems := Elements(Get(node.fields, "args").value);
      elems.Some? && forall i :: 0 <= i < |elems.value| ==> ArgSafe(elems.value[i])
  }

  /** Iterating a dict or a string visits strings only. */
  lemma ElementsOfNonList(j: Json)
    ensures j.JObj? || j.JStr? ==>
      forall i :: 0 <= i < |Elements(j).value| ==> Elements(j).value[i].JStr?
  {
  }

  /** The conversion of one node of `inbound_nodes`: an `args` dict becomes the list of its
      histories (None when it has none), a list is kept as it is, and any
      other node is dropped. */
  function NodeEntry(node: Json): (r: Option<Json>)
    requires NodeSafe(node)
    ensures node.JArr? ==> r == Some(node)
    ensures !node.JArr? && !node.JObj? ==> r.None?
    ensures r.Some? ==> r.value.JArr? && Size(r.value) <= Size(node)
  {
    if node.JObj? && HasKey(node.fields, "args") then
      var args := Get(node.fields, "args").value;
      var data := ArgsHistories(Elements(args).value);
      GetSmaller(node.fields, "args");
      ElementsOfNonList(args);
      if |data| > 0 then Some(JArr(data)) else None
    else if node.JArr? then Some(node)
    else None
  }

  /** `converted_nodes` after the loop over the nodes. */
  function Collect(nodes: seq<Json>): (r: seq<Json>)
    requires forall i :: 0 <= i < |nodes| ==> NodeSafe(nodes[i])
    ensures |r| <= |nodes| && ItemsSize(r) <= ItemsSize(nodes)
    ensures forall i :: 0 <= i < |r| ==> r[i].JArr?
    decreases |nodes|
  {
    if |nodes| == 0 then []
    else
      var n := |nodes| - 1;
      var front := Collect(nodes[..n]);
      var e := NodeEntry(nodes[n]);
      OptSeqSize(e);
      ItemsSizeAppend(front, OptSeq(e));
      front + OptSeq(e)
  }

  /** Nodes that are all lists are collected unchanged. */
  lemma {:induction false} CollectKeepsLists(nodes: seq<Json>)
    requires forall i :: 0 <= i < |nodes| ==> nodes[i].JArr?
    ensures forall i :: 0 <= i < |nodes| ==> NodeSafe(nodes[i])
    ensures Collect(nodes) == nodes
    decreases |nodes|
  {
    if |nodes| > 0 {
      var n := |nodes| - 1;
      CollectKeepsLists(nodes[..n]);
      DropLast(nodes);
    }
  }

  /** Iterating a dict or a string meets only strings, which are dropped. */
  lemma {:induction false} CollectDropsStrings(nodes: seq<Json>)
    requires forall i :: 0 <= i < |nodes| ==> nodes[i].JStr?
    ensures forall i :: 0 <= i < |nodes| ==> NodeSafe(nodes[i])
    ensures Collect(nodes) == []
    decreases |nodes|
  {
    if |nodes| > 0 {
      CollectDropsStrings(nodes[..|nodes| - 1]);
    }
  }

  lemma DropLast(s: seq<Json>)
    requires |s| > 0
    ensures s[..|s| - 1] + [s[|s| - 1]] == s
  {
  }

  /** Python converts the nodes without raising: a truthy value must be
      iterable and every `args` it meets iterable with safe arguments. */
  predicate ConvertSafe(nodes: Json) {
    Truthy(nodes) ==>
      var elems := Elements(nodes);
      elems.Some? && forall i :: 0 <= i < |elems.value| ==> NodeSafe(elems.value[i])
  }

  /** `convert_inbound_nodes`. The result is never larger than the input,
      and when it differs from it, it is a non-empty list of lists (the
      Keras 2 form). */
  function ConvertInboundNodes(nodes: Json): (r: Json)
    requires ConvertSafe(nodes)
    ensures !Truthy(nodes) ==> r == nodes
    ensures Truthy(r) == Truthy(nodes)
    ensures r == nodes || (r.JArr? && |r.items| > 0 && forall i :: 0 <= i < |r.items| ==> r.items[i].JArr?)
    ensures Size(r) <= Size(nodes)
  {
    if !Truthy(nodes) then nodes
    else
      var converted := Collect(Elements(nodes).value);
      ElementsOfNonList(nodes);
      CollectNonList(nodes);
      if |converted| > 0 then JArr(converted) else nodes
  }

  lemma CollectNonList(nodes: Json)
    requires ConvertSafe(nodes) && Truthy(nodes)
    ensures !nodes.JArr? ==> Collect(Elements(nodes).value) == []
  {
    if !nodes.JArr? {
      ElementsOfNonList(nodes);
      CollectDropsStrings(Elements(nodes).value);
    }
  }

  /** Nodes already in the Keras 2 form are kept as they are. */
  lemma Keras2Unchanged(nodes: seq<Json>)
    requires forall i :: 0 <= i < |nodes| ==> nodes[i].JArr?
    ensures ConvertSafe(JArr(nodes)) && ConvertInboundNodes(JArr(nodes)) == JArr(nodes)
  {
    CollectKeepsLists(nodes);
  }

  /** Converting twice is converting once. */
  lemma ConvertIdempotent(nodes: Json)
    requires ConvertSafe(nodes)
    ensures ConvertSafe(ConvertInboundNodes(nodes))
    ensures ConvertInboundNodes(ConvertInboundNodes(nodes)) == ConvertInboundNodes(nodes)
  {
    var r := ConvertInboundNodes(nodes);
    if r != nodes {
      Keras2Unchanged(r.items);
    }
  }

  /** The `inbound_nodes` check of `fix_inbound_nodes` on one dict: a truthy `inbound_nodes` is converted in
      place. */
  function InboundStep(fields: seq<Field>): (r: seq<Field>)
    requires HasKey(fields, Inbound) ==> ConvertSafe(Get(fields, Inbound).value)
    ensures |r| == |fields| && FieldsSize(r) <= FieldsSize(fields)
    ensures forall i :: 0 <= i < |r| ==> r[i].key == fields[i].key
    ensures forall i :: 0 <= i < |r| && fields[i].key != Inbound ==> r[i] == fields[i]
  {
    if HasKey(fields, Inbound) && Truthy(Get(fields, Inbound).value) then
      var v := Get(fields, Inbound).value;
      SetKeySize(fields, Inbound, ConvertInboundNodes(v));
      SetKey(fields, Inbound, ConvertInboundNodes(v))
    else fields
  }

  /** Python completes `fix_inbound_nodes(j)` without raising. */
  ghost predicate InboundSafe(j: Json)
    decreases Size(j)
  {
    match j
    case JObj(fields) =>
      && (HasKey(fields, Inbound) ==> ConvertSafe(Get(fields, Inbound).value))
      && var fs := InboundStep(fields);
         forall i :: 0 <= i < |fs| ==> (FieldSmaller(fs, i); InboundSafe(fs[i].value))
    case JArr(items) =>
      forall i :: 0 <= i < |items| ==> (ItemSmaller(items, i); InboundSafe(items[i]))
    case _ => true
  }

  /** `fix_inbound_nodes`: convert, then descend into every value, the
      converted one included. Every dict keeps its keys in order and every
      list its length; scalars are returned as they are. */
  function FixInboundNodes(j: Json): (r: Json)
    requires InboundSafe(j)
    ensures j.JObj? ==> r.JObj? && Keys(r.fields) == Keys(j.fields)
    ensures j.JArr? ==> r.JArr? && |r.items| == |j.items|
    ensures !j.JObj? && !j.JArr? ==> r == j
    decreases Size(j)
  {
    match j
    case JObj(fields) =>
      var fs := InboundStep(fields);
      JObj(seq(|fs|, i requires 0 <= i < |fs| =>
        FieldSmaller(fs, i);
        Field(fs[i].key, FixInboundNodes(fs[i].value))))
    case JArr(items) =>
      JArr(seq(|items|, i requires 0 <= i < |items| =>
        ItemSmaller(items, i);
        FixInboundNodes(items[i])))
    case _ => j
  }

  /** No dict in `j` has a truthy `inbound_nodes`. */
  ghost predicate NoActiveInbound(j: Json)
    decreases j
  {
    match j
    case JObj(fields) =>
      && !(HasKey(fields, Inbound) && Truthy(Get(fields, Inbound).value))
      && forall i :: 0 <= i < |fields| ==> NoActiveInbound(fields[i].value)
    case JArr(items) => forall i :: 0 <= i < |items| ==> NoActiveInbound(items[i])
    case _ => true
  }

  /** Without a truthy `inbound_nodes` anywhere, nothing changes. */
  lemma {:induction false} NoActiveInboundUnchanged(j: Json)
    requires NoActiveInbound(j)
    ensures InboundSafe(j) && FixInboundNodes(j) == j
    decreases Size(j)
  {
    match j
    case JObj(fields) =>
      assert InboundStep(fields) == fields;
      forall i | 0 <= i < |fields|
        ensures InboundSafe(fields[i].value) && FixInboundNodes(fields[i].value) == fields[i].value
      {
        FieldSmaller(fields, i);
        NoActiveInboundUnchanged(fields[i].value);
      }
      assert FixInboundNodes(j).fields == fields;
    case JArr(items) =>
      forall i | 0 <= i < |items|
        ensures InboundSafe(items[i]) && FixInboundNodes(items[i]) == items[i]
      {
        ItemSmaller(items, i);
        NoActiveInboundUnchanged(items[i]);
      }
      assert FixInboundNodes(j).items == items;
    case _ =>
  }

  /** The rewrite keeps every list length and dict key order, and changes
      values only under `inbound_nodes` fields. */
  lemma {:induction false} FixOnlyTouchesInbound(j: Json)
    requires InboundSafe(j)
    ensures AgreeOutside(j, FixInboundNodes(j), Inbound)
    decreases Size(j)
  {
    match j
    case JObj(fields) =>
      var fs := InboundStep(fields);
      var r := FixInboundNodes(j);
      forall i | 0 <= i < |fields| && fields[i].key != Inbound
        ensures AgreeOutside(fields[i].value, r.fields[i].value, Inbound)
      {
        FieldSmaller(fs, i);
        FixOnlyTouchesInbound(fs[i].value);
      }
    case JArr(items) =>
      forall i | 0 <= i < |items|
        ensures AgreeOutside(items[i], FixInboundNodes(j).items[i], Inbound)
      {
        ItemSmaller(items, i);
        FixOnlyTouchesInbound(items[i]);
      }
    case _ =>
  }

  /** In a dict with a truthy `inbound_nodes`, that field ends up holding the
      converted nodes (themselves fixed recursively). */
  lemma FixConvertsInbound(fields: seq<Field>)
    requires InboundSafe(JObj(fields))
    requires HasKey(fields, Inbound) && Truthy(Get(fields, Inbound).value)
    ensures var v := Get(fields, Inbound).value;
      ConvertSafe(v) &&
      InboundSafe(ConvertInboundNodes(v)) &&
      Get(FixInboundNodes(JObj(fields)).fields, Inbound) == Some(FixInboundNodes(ConvertInboundNodes(v)))
  {
    var k := IndexOf(fields, Inbound).value;
    var fs := InboundStep(fields);
    var r := FixInboundNodes(JObj(fields)).fields;
    assert fs[k].value == ConvertInboundNodes(Get(fields, Inbound).value);
    assert forall i :: 0 <= i < |r| ==> r[i].key == fields[i].key;
    IndexOfSameKeysOnly(fields, r, Inbound);
  }

  const ExampleHistory: Json := JArr([JStr("dense"), JNum(0.0), JNum(0.0)])
  const ExampleTensor: Json :=
    JObj([Field("class_name", JStr(KerasTensor)),
          Field("config", JObj([Field("keras_history", ExampleHistory)]))])
  const ExampleNode: Json := JObj([Field("args", JArr([ExampleTensor])), Field("kwargs", JObj([]))])

  lemma ExampleTensorHistory()
    ensures HistorySafe(ExampleTensor) && ExtractKerasHistory(ExampleTensor) == Some(ExampleHistory)
  {
    var fs := ExampleTensor.fields;
    assert IndexOf(fs, "class_name") == Some(0);
    assert IndexOf(fs, "config") == Some(1);
    var config := ConfigOf(fs);
    assert IndexOf(config.fields, "keras_history") == Some(0);
  }

  lemma ExampleNodeEntry()
    ensures NodeSafe(ExampleNode) && NodeEntry(ExampleNode) == Some(JArr([ExampleHistory]))
  {
    ExampleTensorHistory();
    assert IndexOf(ExampleNode.fields, "args") == Some(0);
    assert ArgHistories(ExampleTensor) == [ExampleHistory];
    assert ArgsHistories([ExampleTensor]) == [ExampleHistory] by {
      assert [ExampleTensor][..0] == [];
    }
  }

  lemma ExampleCollect()
    ensures NodeSafe(ExampleNode)
    ensures Collect([ExampleNode]) == [JArr([ExampleHistory])]
  {
    var nodes := [ExampleNode];
    ExampleNodeEntry();
    assert nodes[..0] == [];
    assert Collect(nodes) == Collect([]) + OptSeq(NodeEntry(ExampleNode));
  }

  /** The conversion of the Keras 3 form to the Keras 2 form:
      `[{"args": [tensor], "kwargs": {}}]` becomes `[[["dense", 0, 0]]]`. */
  lemma ConvertExample()
    ensures ConvertSafe(JArr([ExampleNode]))
    ensures ConvertInboundNodes(JArr([ExampleNode])) == JArr([JArr([ExampleHistory])])
  {
    ExampleCollect();
    assert Elements(JArr([ExampleNode])) == Some([ExampleNode]);
  }
}
