/** The model.json cleanup of `clean_model_json` in convert_model.py: only
    the `modelTopology` entry is rewritten, by the same `clean_dtype_policy`
    as clean_model_json.py's (one definition, DtypePolicy.CleanDtypePolicy,
    serves both). */
module ConvertModel {
  import opened Wrappers
  import opened JsonValues
  import opened DtypePolicy

  const Topology := "modelTopology"

  /** The cleanup applied to the loaded model.json dict: its `modelTopology`
      entry, when present, is replaced by its cleaned copy. */
  function CleanModelJson(model: seq<Field>): (r: seq<Field>)
    ensures Keys(r) == Keys(model)
    ensures forall k :: k != Topology ==> Get(r, k) == Get(model, k)
    ensures HasKey(model, Topology) ==>
      Get(r, Topology) == Some(CleanDtypePolicy(Get(model, Topology).value))
    ensures !HasKey(model, Topology) ==> r == model
  {
    if HasKey(model, Topology) then
      SetKey(model, Topology, CleanDtypePolicy(Get(model, Topology).value))
    else model
  }

  /** After the cleanup the topology holds no DTypePolicy dict, and a second
      cleanup changes nothing. */
  lemma CleanModelJsonSettles(model: seq<Field>)
    ensures HasKey(model, Topology) ==> NoPolicy(Get(CleanModelJson(model), Topology).value)
    ensures CleanModelJson(CleanModelJson(model)) == CleanModelJson(model)
  {
    if HasKey(model, Topology) {
      var t := Get(model, Topology).value;
      CleanLeavesNoPolicy(t);
      CleanIdempotent(t);
      var r := CleanModelJson(model);
      assert Get(r, Topology) == Some(CleanDtypePolicy(t));
      SetKeySame(r, Topology);
    }
  }
}
