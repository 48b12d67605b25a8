/** Turning an imported module namespace into a plain object. */
module Utils {
  import opened Seqs

  /** A plain JavaScript object: its own keys in insertion order, and their values. */
  datatype JsObject<V> = JsObject(keys: seq<string>, values: map<string, V>) {

    /** Every key occurs once, and the keys are exactly the keys of the value map. */
    ghost predicate Valid() {
      Distinct(keys) && (set k | k in keys) == values.Keys
    }

    /** `Object.entries`: the key/value pairs in key order. */
    function Entries(): (r: seq<(string, V)>)
      requires Valid()
      ensures |r| == |keys| && forall i :: 0 <= i < |r| ==> r[i].0 == keys[i]
      ensures forall i, j :: 0 <= i < j < |r| ==> r[i].0 != r[j].0
      ensures (set i | 0 <= i < |r| :: r[i].0) == values.Keys
      ensures forall i :: 0 <= i < |r| ==> r[i].0 in values && values[r[i].0] == r[i].1
    {
      seq(|keys|, i requires 0 <= i < |keys| && keys[i] in values => (keys[i], values[keys[i]]))
    }

    /** `obj[key] = value`: a new key goes last, an existing key keeps its place. */
    function Put(key: string, value: V): (r: JsObject<V>)
      requires Valid()
      ensures r.Valid() && r.values == values[key := value]
      ensures r.keys == if key in values then keys else keys + [key]
    {
      if key in values then JsObject(keys, values[key := value])
      else
        var r := JsObject(keys + [key], values[key := value]);
        assert (set k | k in r.keys) == (set k | k in keys) + {key};
        r
    }
  }

  /** The export name that is dropped unless it is asked for. */
  const DefaultExport := "default"

  /** Whether the loop skips key. */
  predicate Skipped(key: string, includeDefault: bool) {
    key == DefaultExport && !includeDefault
  }

  /** The keys that survive, in their original order. */
  function KeptKeys(keys: seq<string>, includeDefault: bool): seq<string> {
    if keys == [] then []
    else
      var last := keys[|keys| - 1];
      KeptKeys(keys[..|keys| - 1], includeDefault) + (if Skipped(last, includeDefault) then [] else [last])
  }

  /** The object `moduleToObject` returns. */
  function ToObject<V>(namespace: JsObject<V>, includeDefault: bool): (r: JsObject<V>)
    requires namespace.Valid()
    ensures r.Valid()
    ensures r.values.Keys == if includeDefault then namespace.values.Keys else namespace.values.Keys - {DefaultExport}
    ensures forall k :: k in r.values ==> r.values[k] == namespace.values[k]
  {
    KeptKeysElements(namespace.keys, includeDefault);
    KeptKeysDistinct(namespace.keys, includeDefault);
    JsObject(KeptKeys(namespace.keys, includeDefault),
             if includeDefault then namespace.values else namespace.values - {DefaultExport})
  }

  lemma {:induction false} KeptKeysElements(keys: seq<string>, includeDefault: bool)
    ensures forall k :: k in KeptKeys(keys, includeDefault) <==> k in keys && !Skipped(k, includeDefault)
  {
    if keys != [] {
      var init := keys[..|keys| - 1];
      KeptKeysElements(init, includeDefault);
      assert keys == init + [keys[|keys| - 1]];
    }
  }

  lemma {:induction false} KeptKeysDistinct(keys: seq<string>, includeDefault: bool)
    requires Distinct(keys)
    ensures Distinct(KeptKeys(keys, includeDefault))
  {
    if keys != [] {
      var init := keys[..|keys| - 1];
      var last := keys[|keys| - 1];
      KeptKeysDistinct(init, includeDefault);
      KeptKeysElements(init, includeDefault);
      assert last !in init;
    }
  }

  /** Keeping the default export keeps every key, in order. */
  lemma {:induction false} KeptKeysIncludeAll(keys: seq<string>)
    ensures KeptKeys(keys, true) == keys
  {
    if keys != [] {
      KeptKeysIncludeAll(keys[..|keys| - 1]);
    }
  }

  /** Without a default key nothing is dropped, in either mode. */
  lemma {:induction false} KeptKeysNoDefault(keys: seq<string>, includeDefault: bool)
    requires DefaultExport !in keys
    ensures KeptKeys(keys, includeDefault) == keys
  {
    if keys != [] {
      var init := keys[..|keys| - 1];
      assert forall k :: k in init ==> k in keys;
      KeptKeysNoDefault(init, includeDefault);
    }
  }

  /**
   * Dropping the default export removes that one key and leaves every other
   * key where it was relative to the rest.
   */
  lemma {:induction false} KeptKeysRemovesDefault(keys: seq<string>, d: nat)
    requires Distinct(keys) && d < |keys| && keys[d] == DefaultExport
    ensures KeptKeys(keys, false) == keys[..d] + keys[d + 1..]
  {
    var init := keys[..|keys| - 1];
    var last := keys[|keys| - 1];
    if d == |keys| - 1 {
      assert forall k :: k in init ==> k in keys[..d];
      KeptKeysNoDefault(init, false);
      assert keys[d + 1..] == [];
    } else {
      assert Distinct(init);
      KeptKeysRemovesDefault(init, d);
      assert last != DefaultExport;
      assert init[..d] == keys[..d];
      assert init[d + 1..] + [last] == keys[d + 1..];
    }
  }

  /** With the default export kept, the result has exactly the module's entries. */
  lemma ToObjectIncludeAll<V>(namespace: JsObject<V>)
    requires namespace.Valid()
    ensures ToObject(namespace, true) == namespace
  {
    KeptKeysIncludeAll(namespace.keys);
  }

  /** Converting the result once more changes nothing. */
  lemma ToObjectIdempotent<V>(namespace: JsObject<V>)
    requires namespace.Valid()
    ensures ToObject(ToObject(namespace, false), false) == ToObject(namespace, false)
  {
    var once := ToObject(namespace, false);
    KeptKeysElements(namespace.keys, false);
    KeptKeysNoDefault(once.keys, false);
  }

  lemma KeptKeysStep(keys: seq<string>, i: nat, includeDefault: bool)
    requires i < |keys|
    ensures KeptKeys(keys[..i + 1], includeDefault) ==
      KeptKeys(keys[..i], includeDefault) + (if Skipped(keys[i], includeDefault) then [] else [keys[i]])
  {
    assert keys[..i + 1][..i] == keys[..i];
  }

  /** An object holding exactly the kept keys, with the module's values, is the result. */
  lemma {:induction false} KeptObjectIsResult<V>(namespace: JsObject<V>, includeDefault: bool, obj: JsObject<V>)
    requires namespace.Valid() && obj.Valid()
    requires obj.keys == KeptKeys(namespace.keys, includeDefault)
    requires forall k :: k in obj.values ==> k in namespace.values && obj.values[k] == namespace.values[k]
    ensures obj == ToObject(namespace, includeDefault)
  {
    KeptKeysElements(namespace.keys, includeDefault);
    var r := ToObject(namespace, includeDefault);
    assert obj.values.Keys == r.values.Keys;
  }

  /**
   * `moduleToObject`: copy the module's entries, in order, into a new object,
   * skipping the default export unless includeDefault is set.
   */
  method ModuleToObject<V>(namespace: JsObject<V>, includeDefault: bool) returns (obj: JsObject<V>)
    requires namespace.Valid()
    ensures obj == ToObject(namespace, includeDefault)
  {
    obj := JsObject([], map[]);
    var entries := namespace.Entries();
    for i := 0 to |entries|
      invariant obj.Valid()
      invariant obj.keys == KeptKeys(namespace.keys[..i], includeDefault)
      invariant forall k :: k in obj.values ==> k in namespace.values && obj.values[k] == namespace.values[k]
    {
      var (key, value) := entries[i];
      KeptKeysStep(namespace.keys, i, includeDefault);
      if Skipped(key, includeDefault) {
        continue;
      }
      KeptKeysElements(namespace.keys[..i], includeDefault);
      obj := obj.Put(key, value);
    }
    assert namespace.keys[..|entries|] == namespace.keys;
    KeptObjectIsResult(namespace, includeDefault, obj);
  }
}
