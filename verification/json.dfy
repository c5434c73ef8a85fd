/** JSON values as Python's `json.load` produces them, with the dict
    operations and truthiness the model-JSON rewriters rely on. A dict is
    its sequence of fields in insertion order. */
module JsonValues {
  import opened Wrappers
  import opened Strings

  datatype Json =
    | JNull
    | JBool(b: bool)
    | JNum(n: real)
    | JStr(s: string)
    | JArr(items: seq<Json>)
    | JObj(fields: seq<Field>)

  datatype Field = Field(key: string, value: Json)

  /** A Python dict never holds a key twice. */
  ghost predicate UniqueKeys(fields: seq<Field>) {
    forall i, j :: 0 <= i < j < |fields| ==> fields[i].key != fields[j].key
  }

  /** Position of `key`, the first if it occurred twice. */
  function IndexOf(fields: seq<Field>, key: string): (r: Option<nat>)
    ensures r.None? <==> forall i :: 0 <= i < |fields| ==> fields[i].key != key
    ensures r.Some? ==> r.value < |fields| && fields[r.value].key == key
    ensures r.Some? ==> forall i :: 0 <= i < r.value ==> fields[i].key != key
    decreases |fields|
  {
    if |fields| == 0 then None
    else if fields[0].key == key then Some(0)
    else
      var rest := IndexOf(fields[1..], key);
      assert forall i :: 1 <= i < |fields| ==> fields[1..][i - 1] == fields[i];
      if rest.None? then None else Some(rest.value + 1)
  }

  /** `key in d`. */
  predicate HasKey(fields: seq<Field>, key: string) {
    IndexOf(fields, key).Some?
  }

  /** `d.get(key)`, None when absent. */
  function Get(fields: seq<Field>, key: string): (r: Option<Json>)
    ensures r.Some? <==> HasKey(fields, key)
  {
    var i := IndexOf(fields, key);
    if i.None? then None else Some(fields[i.value].value)
  }

  /** `d[key] = value`: the value is replaced in place when the key is
      present and appended as the last field otherwise. */
  function SetKey(fields: seq<Field>, key: string, value: Json): (r: seq<Field>)
    ensures HasKey(fields, key) ==> |r| == |fields| && Keys(r) == Keys(fields)
    ensures HasKey(fields, key) ==> forall i :: 0 <= i < |r| ==>
      r[i] == if i == IndexOf(fields, key).value then Field(key, value) else fields[i]
    ensures !HasKey(fields, key) ==> r == fields + [Field(key, value)]
    ensures Get(r, key) == Some(value)
    ensures forall k :: k != key ==> Get(r, k) == Get(fields, k)
  {
    var i := IndexOf(fields, key);
    if i.Some? then
      var r := fields[i.value := Field(key, value)];
      IndexOfFirst(r, key, i.value);
      forall k | k != key
        ensures Get(r, k) == Get(fields, k)
      {
        assert forall j :: 0 <= j < |r| ==> (r[j].key == k <==> fields[j].key == k);
        IndexOfSameKeys(r, fields, k);
      }
      r
    else
      var r := fields + [Field(key, value)];
      IndexOfFirst(r, key, |fields|);
      forall k | k != key
        ensures Get(r, k) == Get(fields, k)
      {
        IndexOfAppend(fields, Field(key, value), k);
      }
      r
  }

  /** Keys in the same places give the same positions, and then the values
      found agree wherever the fields agree. */
  lemma IndexOfSameKeys(a: seq<Field>, b: seq<Field>, k: string)
    requires |a| == |b|
    requires forall j :: 0 <= j < |a| ==> (a[j].key == k <==> b[j].key == k)
    requires forall j :: 0 <= j < |a| && a[j].key == k ==> a[j] == b[j]
    ensures IndexOf(a, k) == IndexOf(b, k)
    ensures Get(a, k) == Get(b, k)
  {
    var ia := IndexOf(a, k);
    if ia.Some? {
      IndexOfFirst(b, k, ia.value);
    }
  }

  /** Two dicts whose keys agree position by position find any key at the
      same index, whatever their values. */
  lemma IndexOfSameKeysOnly(a: seq<Field>, b: seq<Field>, k: string)
    requires |a| == |b|
    requires forall i :: 0 <= i < |a| ==> a[i].key == b[i].key
    ensures IndexOf(a, k) == IndexOf(b, k)
  {
    var ia := IndexOf(a, k);
    if ia.Some? {
      IndexOfFirst(b, k, ia.value);
    }
  }

  /** The first field carrying `key` is the one IndexOf finds. */
  lemma IndexOfFirst(fields: seq<Field>, key: string, i: nat)
    requires i < |fields| && fields[i].key == key
    requires forall j :: 0 <= j < i ==> fields[j].key != key
    ensures IndexOf(fields, key) == Some(i)
  {
    assert IndexOf(fields, key).Some?;
  }

  lemma IndexOfAppend(fields: seq<Field>, f: Field, k: string)
    requires f.key != k
    ensures IndexOf(fields + [f], k) == IndexOf(fields, k)
    ensures Get(fields + [f], k) == Get(fields, k)
  {
    var r := fields + [f];
    var i := IndexOf(fields, k);
    if i.Some? {
      assert r[i.value] == fields[i.value];
      assert forall j :: 0 <= j < i.value ==> r[j] == fields[j];
      IndexOfFirst(r, k, i.value);
    } else {
      assert forall j :: 0 <= j < |r| ==> r[j].key != k by {
        assert forall j :: 0 <= j < |fields| ==> r[j] == fields[j];
      }
    }
  }

  /** `d.pop(key)` for a present key: the field is removed and the others
      keep their order. */
  function RemoveKey(fields: seq<Field>, key: string): (r: seq<Field>)
    requires HasKey(fields, key)
    ensures |r| == |fields| - 1
  {
    var i := IndexOf(fields, key).value;
    fields[..i] + fields[i + 1..]
  }

  function Keys(fields: seq<Field>): (ks: seq<string>)
    ensures |ks| == |fields|
    ensures forall i :: 0 <= i < |fields| ==> ks[i] == fields[i].key
  {
    seq(|fields|, i requires 0 <= i < |fields| => fields[i].key)
  }

  /** Python truthiness: false for None, False, zero and the empty string,
      list or dict. A string, list or dict is truthy exactly when a `for`
      loop over it visits something. */
  predicate Truthy(j: Json)
    ensures j.JNull? ==> !Truthy(j)
    ensures j.JArr? || j.JObj? || j.JStr? ==> (Truthy(j) <==> |Elements(j).value| > 0)
  {
    match j
    case JNull => false
    case JBool(b) => b
    case JNum(n) => n != 0.0
    case JStr(s) => |s| > 0
    case JArr(items) => |items| > 0
    case JObj(fields) => |fields| > 0
  }

  /** What `for x in j` visits: list items, dict keys, or the characters of
      a string; None where Python raises TypeError. */
  function Elements(j: Json): (r: Option<seq<Json>>)
    ensures r.Some? <==> j.JArr? || j.JObj? || j.JStr?
    ensures j.JArr? ==> r == Some(j.items)
    ensures j.JObj? ==> |r.value| == |j.fields|
    ensures j.JStr? ==> |r.value| == |j.s|
  {
    match j
    case JArr(items) => Some(items)
    case JObj(fields) => Some(seq(|fields|, i requires 0 <= i < |fields| => JStr(fields[i].key)))
    case JStr(s) => Some(seq(|s|, i requires 0 <= i < |s| => JStr([s[i]])))
    case _ => None
  }

  /** Python's `key in j`: a dict key, a list element equal to the string,
      or a substring; None where Python raises TypeError. */
  function Membership(j: Json, key: string): (r: Option<bool>)
    ensures r.Some? <==> j.JObj? || j.JArr? || j.JStr?
  {
    match j
    case JObj(fields) => Some(HasKey(fields, key))
    case JArr(items) => Some(JStr(key) in items)
    case JStr(s) => Some(Contains(s, key))
    case _ => None
  }

  /** Number of nodes. */
  function Size(j: Json): (n: nat)
    ensures n >= 1
    decreases j, 1
  {
    match j
    case JArr(items) => 1 + ItemsSize(items)
    case JObj(fields) => 1 + FieldsSize(fields)
    case _ => 1
  }

  function ItemsSize(items: seq<Json>): nat
    decreases items, 0
  {
    if |items| == 0 then 0 else ItemsSize(items[..|items| - 1]) + Size(items[|items| - 1])
  }

  function FieldsSize(fields: seq<Field>): nat
    decreases fields, 0
  {
    if |fields| == 0 then 0 else FieldsSize(fields[..|fields| - 1]) + Size(fields[|fields| - 1].value)
  }

  lemma {:induction false} ItemsSizeAppend(a: seq<Json>, b: seq<Json>)
    ensures ItemsSize(a + b) == ItemsSize(a) + ItemsSize(b)
    decreases |b|
  {
    if |b| > 0 {
      var n := |b| - 1;
      assert (a + b)[..|a + b| - 1] == a + b[..n];
      ItemsSizeAppend(a, b[..n]);
    } else {
      assert a + b == a;
    }
  }

  lemma {:induction false} FieldsSizeAppend(a: seq<Field>, b: seq<Field>)
    ensures FieldsSize(a + b) == FieldsSize(a) + FieldsSize(b)
    decreases |b|
  {
    if |b| > 0 {
      var n := |b| - 1;
      assert (a + b)[..|a + b| - 1] == a + b[..n];
      FieldsSizeAppend(a, b[..n]);
    } else {
      assert a + b == a;
    }
  }

  /** Each item is strictly smaller than the list holding it. */
  lemma ItemSmaller(items: seq<Json>, i: nat)
    requires i < |items|
    ensures Size(items[i]) < Size(JArr(items))
  {
    assert items == items[..i] + [items[i]] + items[i + 1..];
    ItemsSizeAppend(items[..i] + [items[i]], items[i + 1..]);
    ItemsSizeAppend(items[..i], [items[i]]);
    assert ItemsSize([items[i]]) == Size(items[i]) by {
      assert [items[i]][..0] == [];
    }
  }

  /** Each field value is strictly smaller than the dict holding it. */
  lemma FieldSmaller(fields: seq<Field>, i: nat)
    requires i < |fields|
    ensures Size(fields[i].value) < Size(JObj(fields))
  {
    assert fields == fields[..i] + [fields[i]] + fields[i + 1..];
    FieldsSizeAppend(fields[..i] + [fields[i]], fields[i + 1..]);
    FieldsSizeAppend(fields[..i], [fields[i]]);
    assert FieldsSize([fields[i]]) == Size(fields[i].value) by {
      assert [fields[i]][..0] == [];
    }
  }

  /** Replacing one field value changes the size by the difference. */
  lemma FieldsSizeUpdate(fields: seq<Field>, i: nat, f: Field)
    requires i < |fields|
    ensures FieldsSize(fields[i := f]) + Size(fields[i].value) == FieldsSize(fields) + Size(f.value)
  {
    var r := fields[i := f];
    assert fields == fields[..i] + [fields[i]] + fields[i + 1..];
    assert r == fields[..i] + [f] + fields[i + 1..];
    FieldsSizeAppend(fields[..i] + [fields[i]], fields[i + 1..]);
    FieldsSizeAppend(fields[..i], [fields[i]]);
    FieldsSizeAppend(fields[..i] + [f], fields[i + 1..]);
    FieldsSizeAppend(fields[..i], [f]);
    assert [fields[i]][..0] == [] && [f][..0] == [];
  }

  /** `d[key] = value` changes the size by the difference of the values. */
  lemma SetKeySize(fields: seq<Field>, key: string, value: Json)
    ensures HasKey(fields, key) ==>
      FieldsSize(SetKey(fields, key, value)) + Size(Get(fields, key).value) == FieldsSize(fields) + Size(value)
    ensures !HasKey(fields, key) ==>
      FieldsSize(SetKey(fields, key, value)) == FieldsSize(fields) + Size(value)
  {
    var i := IndexOf(fields, key);
    if i.Some? {
      FieldsSizeUpdate(fields, i.value, Field(key, value));
    } else {
      FieldsSizeAppend(fields, [Field(key, value)]);
      assert [Field(key, value)][..0] == [];
    }
  }

  /** `d.pop(key)` removes exactly the popped value's size. */
  lemma RemoveKeySize(fields: seq<Field>, key: string)
    requires HasKey(fields, key)
    ensures FieldsSize(RemoveKey(fields, key)) + Size(Get(fields, key).value) == FieldsSize(fields)
  {
    var i := IndexOf(fields, key).value;
    assert fields == fields[..i] + [fields[i]] + fields[i + 1..];
    FieldsSizeAppend(fields[..i] + [fields[i]], fields[i + 1..]);
    FieldsSizeAppend(fields[..i], [fields[i]]);
    FieldsSizeAppend(fields[..i], fields[i + 1..]);
    assert [fields[i]][..0] == [];
  }

  /** A value found under a key is strictly smaller than its dict. */
  lemma GetSmaller(fields: seq<Field>, key: string)
    requires HasKey(fields, key)
    ensures Size(Get(fields, key).value) < Size(JObj(fields))
  {
    FieldSmaller(fields, IndexOf(fields, key).value);
  }

  /** `y` has the shape of `x` and the same content everywhere except,
      possibly, under fields named `key`: same constructors, list lengths,
      dict keys in order, and leaves. */
  ghost predicate AgreeOutside(x: Json, y: Json, key: string)
    decreases x
  {
    match x
    case JObj(fields) =>
      && y.JObj? && |y.fields| == |fields|
      && forall i :: 0 <= i < |fields| ==>
           && y.fields[i].key == fields[i].key
           && (fields[i].key != key ==> AgreeOutside(fields[i].value, y.fields[i].value, key))
    case JArr(items) =>
      && y.JArr? && |y.items| == |items|
      && forall i :: 0 <= i < |items| ==> AgreeOutside(items[i], y.items[i], key)
    case _ => y == x
  }

  lemma {:induction false} AgreeOutsideReflexive(x: Json, key: string)
    ensures AgreeOutside(x, x, key)
    decreases x
  {
    match x
    case JObj(fields) =>
      forall i | 0 <= i < |fields|
        ensures AgreeOutside(fields[i].value, fields[i].value, key)
      {
        AgreeOutsideReflexive(fields[i].value, key);
      }
    case JArr(items) =>
      forall i | 0 <= i < |items|
        ensures AgreeOutside(items[i], items[i], key)
      {
        AgreeOutsideReflexive(items[i], key);
      }
    case _ =>
  }

  /** Popping one key leaves every other key's value where it was found. */
  lemma RemoveKeyGet(fields: seq<Field>, key: string, other: string)
    requires HasKey(fields, key) && other != key
    ensures Get(RemoveKey(fields, key), other) == Get(fields, other)
  {
    var i := IndexOf(fields, key).value;
    var r := RemoveKey(fields, key);
    RemoveKeyShifts(fields, key);
    var j := IndexOf(fields, other);
    if j.Some? {
      if j.value < i {
        IndexOfFirst(r, other, j.value);
      } else {
        IndexOfFirst(r, other, j.value - 1);
      }
    } else {
      assert forall m :: 0 <= m < |r| ==> r[m].key != other;
    }
  }

  /** Popping a key shifts the fields after it one place to the left. */
  lemma RemoveKeyShifts(fields: seq<Field>, key: string)
    requires HasKey(fields, key)
    ensures var i, r := IndexOf(fields, key).value, RemoveKey(fields, key);
      && (forall m :: 0 <= m < i ==> r[m] == fields[m])
      && (forall m :: i <= m < |r| ==> r[m] == fields[m + 1])
  {
  }

  /** In a dict, popping a key removes it and keeps the keys distinct. */
  lemma RemoveKeyGone(fields: seq<Field>, key: string)
    requires HasKey(fields, key) && UniqueKeys(fields)
    ensures !HasKey(RemoveKey(fields, key), key)
    ensures UniqueKeys(RemoveKey(fields, key))
  {
    var i := IndexOf(fields, key).value;
    var r := RemoveKey(fields, key);
    assert forall m :: 0 <= m < i ==> r[m] == fields[m];
    assert forall m :: i <= m < |r| ==> r[m] == fields[m + 1];
    assert forall m :: 0 <= m < |r| ==> r[m].key != key;
  }

  /** Appending an absent key keeps the keys distinct and finds the new
      value under it. */
  lemma AppendNewKey(fields: seq<Field>, key: string, value: Json)
    requires !HasKey(fields, key) && UniqueKeys(fields)
    ensures UniqueKeys(fields + [Field(key, value)])
    ensures Get(fields + [Field(key, value)], key) == Some(value)
  {
    var r := fields + [Field(key, value)];
    assert forall m :: 0 <= m < |fields| ==> r[m] == fields[m];
    IndexOfFirst(r, key, |fields|);
  }

  /** Writing back the value a key already holds changes nothing. */
  lemma SetKeySame(fields: seq<Field>, key: string)
    requires HasKey(fields, key)
    ensures SetKey(fields, key, Get(fields, key).value) == fields
  {
    var r := SetKey(fields, key, Get(fields, key).value);
    assert forall i :: 0 <= i < |r| ==> r[i] == fields[i];
  }
}
