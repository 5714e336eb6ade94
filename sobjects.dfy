/**
 * The values the commands handle: scalar field values as the query API
 * returns them, result records, the field descriptors of a describe call,
 * and the shared extractor that turns one record into the column list.
 */
module SObjects {
  import opened Wrappers
  import opened JsText

  /**
   * A scalar field value. `Undefined` is what reading a key that a record
   * does not have yields.
   */
  datatype Value = Str(s: string) | Int(i: int) | Bool(b: bool) | Null | Undefined

  /** JavaScript truthiness of a value. */
  predicate Truthy(v: Value)
  {
    match v
    case Str(s) => s != ""
    case Int(i) => i != 0
    case Bool(b) => b
    case Null => false
    case Undefined => false
  }

  /** The renderers' presence test: truthy, or of type number, or of type boolean. */
  predicate IsPresent(v: Value)
  {
    Truthy(v) || v.Int? || v.Bool?
  }

  /** The text `String(v)` (equivalently `"" + v`) produces. */
  function ToJsString(v: Value): (s: string)
  {
    match v
    case Str(s) => s
    case Int(i) => IntToString(i)
    case Bool(b) => if b then "true" else "false"
    case Null => "null"
    case Undefined => "undefined"
  }

  /**
   * A value is present exactly when it is not null, not undefined and
   * not the empty string: zero and false count as present.
   */
  lemma PresentIffNotNullish(v: Value)
    ensures IsPresent(v) <==> !(v == Null || v == Undefined || v == Str(""))
    ensures IsPresent(Int(0)) && IsPresent(Bool(false))
  {
  }

  /** The key under which a record carries its metadata block. */
  const AttributesKey: string := "attributes"

  /**
   * One record of a query result: its own keys with their values, in the
   * order `for ... in` visits them, and the `type` member of its
   * `attributes` block. An entry keyed `attributes` stands for the
   * position of that block among the keys; its value is never read.
   */
  datatype Record = Record(entries: seq<(string, Value)>, objectType: string)

  /** The record's own keys in iteration order. */
  function Keys(r: Record): (keys: seq<string>)
    ensures |keys| == |r.entries|
    ensures forall k :: 0 <= k < |keys| ==> keys[k] == r.entries[k].0
  {
    seq(|r.entries|, k requires 0 <= k < |r.entries| => r.entries[k].0)
  }

  /** `record[key]`: the value under the first entry with that key, `Undefined` when there is none. */
  function Lookup(entries: seq<(string, Value)>, key: string): (v: Value)
  {
    if |entries| == 0 then Undefined
    else if entries[0].0 == key then entries[0].1
    else Lookup(entries[1..], key)
  }

  /** A key with no entry reads as `Undefined`; otherwise the first entry with the key wins. */
  lemma {:induction false} LookupSpec(entries: seq<(string, Value)>, key: string)
    ensures (forall k :: 0 <= k < |entries| ==> entries[k].0 != key) ==> Lookup(entries, key) == Undefined
    ensures forall k :: 0 <= k < |entries| && entries[k].0 == key
              && (forall m :: 0 <= m < k ==> entries[m].0 != key)
              ==> Lookup(entries, key) == entries[k].1
  {
    if |entries| > 0 && entries[0].0 != key {
      LookupSpec(entries[1..], key);
      forall k | 1 <= k < |entries| ensures entries[1..][k - 1] == entries[k] { }
    }
  }

  /** The keys that are not the metadata key, in their original order. */
  function NonMetaKeys(keys: seq<string>): (kept: seq<string>)
  {
    if |keys| == 0 then []
    else
      var last := keys[|keys| - 1];
      NonMetaKeys(keys[..|keys| - 1]) + (if last != AttributesKey then [last] else [])
  }

  /** Filtering distributes over concatenation: nothing is reordered. */
  lemma {:induction false} NonMetaKeysAppend(a: seq<string>, b: seq<string>)
    ensures NonMetaKeys(a + b) == NonMetaKeys(a) + NonMetaKeys(b)
    decreases |b|
  {
    if |b| > 0 {
      var b' := b[..|b| - 1];
      assert (a + b)[..|a + b| - 1] == a + b';
      NonMetaKeysAppend(a, b');
    } else {
      assert a + b == a;
    }
  }

  /** Exactly the keys other than `attributes` survive, and keys without it come back unchanged. */
  lemma {:induction false} NonMetaKeysMembers(keys: seq<string>)
    ensures forall x :: x in NonMetaKeys(keys) <==> x in keys && x != AttributesKey
    ensures AttributesKey !in keys ==> NonMetaKeys(keys) == keys
    ensures |NonMetaKeys(keys)| <= |keys|
  {
    if |keys| > 0 {
      var init := keys[..|keys| - 1];
      NonMetaKeysMembers(init);
      assert keys == init + [keys[|keys| - 1]];
    }
  }

  /** The schema description of one field: its name and its boolean capabilities. */
  datatype FieldDescriptor = FieldDescriptor(name: string, capabilities: map<string, bool>)

  /**
   * `field[capability]` read as a condition: a capability the descriptor
   * does not list reads as `undefined`, which is falsy.
   */
  predicate Capability(f: FieldDescriptor, capability: string)
  {
    capability in f.capabilities && f.capabilities[capability]
  }

  /** `records[0]`, which is `undefined` when there are no records. */
  function First(records: seq<Record>): (r: Option<Record>)
    ensures r.Some? <==> |records| > 0
    ensures r.Some? ==> r.value == records[0]
  {
    if |records| == 0 then None else Some(records[0])
  }

  /**
   * getFieldListFromResult: the keys of one record, in order, except
   * `attributes`. For `undefined` (no record) the `for ... in` loop runs no
   * iteration and the list is empty.
   */
  method GetFieldListFromResult(soqlResult: Option<Record>) returns (fieldList: seq<string>)
    ensures soqlResult.None? ==> fieldList == []
    ensures soqlResult.Some? ==> fieldList == NonMetaKeys(Keys(soqlResult.value))
  {
    fieldList := [];
    if soqlResult.Some? {
      var keys := Keys(soqlResult.value);
      for k := 0 to |keys|
        invariant fieldList == NonMetaKeys(keys[..k])
      {
        assert keys[..k + 1][..k] == keys[..k];
        if keys[k] != AttributesKey {
          fieldList := fieldList + [keys[k]];
        }
      }
      assert keys[..|keys|] == keys;
    }
  }
}
