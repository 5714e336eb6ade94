/**
 * The tree export of the query commands: every result record becomes a
 * record carrying an `attributes` block with the object type and a
 * synthesised reference id, followed by the record's own fields copied
 * by property assignment.
 */
module TreeExport {
  import opened JsText
  import opened SObjects

  /** The `attributes` block of an exported record. */
  datatype TreeAttributes = TreeAttributes(objectType: string, referenceId: string)

  /** An exported record: its attributes block, then its fields in insertion order. */
  datatype TreeRecord = TreeRecord(attributes: TreeAttributes, fields: seq<(string, Value)>)

  /** The reference id of the record at 1-based position `n`: the type, `Ref`, then `n`. */
  function ReferenceId(objectType: string, n: nat): (id: string)
  {
    objectType + "Ref" + NatToString(n)
  }

  /**
   * `row[key] = value` on an object: an existing key keeps its place and
   * takes the new value, a new key is added last.
   */
  function Assign(fields: seq<(string, Value)>, key: string, v: Value): (r: seq<(string, Value)>)
    ensures |r| == |fields| || |r| == |fields| + 1
  {
    if |fields| == 0 then [(key, v)]
    else if fields[0].0 == key then [(key, v)] + fields[1..]
    else [fields[0]] + Assign(fields[1..], key, v)
  }

  /**
   * The key loop of exportResults over the visited entries of a record:
   * every key except `attributes` is assigned the record's value under it.
   */
  function CopyFields(entries: seq<(string, Value)>, visited: seq<(string, Value)>): (copied: seq<(string, Value)>)
  {
    if |visited| == 0 then []
    else
      var key := visited[|visited| - 1].0;
      var fields := CopyFields(entries, visited[..|visited| - 1]);
      if key != AttributesKey then Assign(fields, key, Lookup(entries, key)) else fields
  }

  /** The exported form of record `r` at 1-based position `n`. */
  function TreeRow(r: Record, n: nat): (t: TreeRecord)
  {
    TreeRecord(TreeAttributes(r.objectType, ReferenceId(r.objectType, n)), CopyFields(r.entries, r.entries))
  }

  /** The exported records, one per result and in result order. */
  function Tree(results: seq<Record>): (tree: seq<TreeRecord>)
  {
    seq(|results|, i requires 0 <= i < |results| => TreeRow(results[i], i + 1))
  }

  /** exportResults: builds each row's attributes, copies its keys, pushes it. */
  method ExportResults(results: seq<Record>) returns (records: seq<TreeRecord>)
    ensures records == Tree(results)
  {
    records := [];
    for i := 0 to |results|
      invariant |records| == i
      invariant forall j :: 0 <= j < i ==> records[j] == TreeRow(results[j], j + 1)
    {
      var attributes := TreeAttributes(results[i].objectType, results[i].objectType + "Ref" + NatToString(i + 1));
      var row := CopyRecordFields(results[i]);
      records := records + [TreeRecord(attributes, row)];
    }
  }

  /** The `for ... in` loop of exportResults over one record's keys. */
  method CopyRecordFields(r: Record) returns (row: seq<(string, Value)>)
    ensures row == CopyFields(r.entries, r.entries)
  {
    var keys := Keys(r);
    row := [];
    for k := 0 to |keys|
      invariant row == CopyFields(r.entries, r.entries[..k])
    {
      assert r.entries[..k + 1][..k] == r.entries[..k];
      if keys[k] != AttributesKey {
        row := Assign(row, keys[k], Lookup(r.entries, keys[k]));
      }
    }
    assert r.entries[..|keys|] == r.entries;
  }

  /** No two entries share a key, as for the properties of an object. */
  predicate DistinctKeys(entries: seq<(string, Value)>)
  {
    forall i, j :: 0 <= i < j < |entries| ==> entries[i].0 != entries[j].0
  }

  /** The entries whose key is not `attributes`, in order. */
  function NonMetaEntries(entries: seq<(string, Value)>): (kept: seq<(string, Value)>)
  {
    if |entries| == 0 then []
    else
      var last := entries[|entries| - 1];
      NonMetaEntries(entries[..|entries| - 1]) + (if last.0 != AttributesKey then [last] else [])
  }

  /** No field is keyed `attributes`. */
  predicate NoAttributesField(fields: seq<(string, Value)>)
  {
    forall k :: 0 <= k < |fields| ==> fields[k].0 != AttributesKey
  }

  /** Assigning a key that is absent appends it. */
  lemma {:induction false} AssignAbsent(fields: seq<(string, Value)>, key: string, v: Value)
    requires forall k :: 0 <= k < |fields| ==> fields[k].0 != key
    ensures Assign(fields, key, v) == fields + [(key, v)]
  {
    if |fields| > 0 {
      AssignAbsent(fields[1..], key, v);
      assert [fields[0]] + (fields[1..] + [(key, v)]) == fields + [(key, v)];
    }
  }

  /** Assignment adds only the assigned key. */
  lemma {:induction false} AssignKeys(fields: seq<(string, Value)>, key: string, v: Value)
    ensures forall k :: 0 <= k < |Assign(fields, key, v)| ==>
              Assign(fields, key, v)[k].0 == key || exists m :: 0 <= m < |fields| && fields[m].0 == Assign(fields, key, v)[k].0
  {
    if |fields| > 0 && fields[0].0 != key {
      AssignKeys(fields[1..], key, v);
      var r := Assign(fields, key, v);
      forall k | 0 <= k < |r|
        ensures r[k].0 == key || exists m :: 0 <= m < |fields| && fields[m].0 == r[k].0
      {
        if k == 0 {
          assert fields[0].0 == r[k].0;
        } else {
          assert r[k] == Assign(fields[1..], key, v)[k - 1];
          if r[k].0 != key {
            var m :| 0 <= m < |fields[1..]| && fields[1..][m].0 == r[k].0;
            assert fields[m + 1].0 == r[k].0;
          }
        }
      }
    }
  }

  /** The copy never produces an `attributes` field. */
  lemma {:induction false} CopyFieldsNoAttributes(entries: seq<(string, Value)>, visited: seq<(string, Value)>)
    ensures NoAttributesField(CopyFields(entries, visited))
  {
    if |visited| > 0 {
      var key := visited[|visited| - 1].0;
      var fields := CopyFields(entries, visited[..|visited| - 1]);
      CopyFieldsNoAttributes(entries, visited[..|visited| - 1]);
      if key != AttributesKey {
        AssignKeys(fields, key, Lookup(entries, key));
      }
    }
  }

  lemma NonMetaEntriesKeys(entries: seq<(string, Value)>, key: string)
    requires forall k :: 0 <= k < |entries| ==> entries[k].0 != key
    ensures forall k :: 0 <= k < |NonMetaEntries(entries)| ==> NonMetaEntries(entries)[k].0 != key
  {
    NonMetaEntriesFrom(entries);
  }

  /** Every entry the filter keeps comes from the input. */
  lemma {:induction false} NonMetaEntriesFrom(entries: seq<(string, Value)>)
    ensures forall k :: 0 <= k < |NonMetaEntries(entries)| ==> NonMetaEntries(entries)[k] in entries
  {
    if |entries| > 0 {
      var init := entries[..|entries| - 1];
      NonMetaEntriesFrom(init);
      forall x | x in init ensures x in entries {
        var m :| 0 <= m < |init| && init[m] == x;
        assert entries[m] == x;
      }
    }
  }

  /**
   * With distinct keys the copy is verbatim: every entry other than
   * `attributes`, in order, with its value unchanged (null included).
   */
  lemma {:induction false} CopyFieldsVerbatim(entries: seq<(string, Value)>, n: nat)
    requires DistinctKeys(entries)
    requires n <= |entries|
    ensures CopyFields(entries, entries[..n]) == NonMetaEntries(entries[..n])
  {
    if n > 0 {
      var prefix := entries[..n];
      assert prefix[..n - 1] == entries[..n - 1];
      CopyFieldsVerbatim(entries, n - 1);
      var key := entries[n - 1].0;
      if key != AttributesKey {
        LookupSpec(entries, key);
        assert Lookup(entries, key) == entries[n - 1].1;
        var before := entries[..n - 1];
        assert forall k :: 0 <= k < |before| ==> before[k].0 != key;
        NonMetaEntriesKeys(before, key);
        AssignAbsent(NonMetaEntries(before), key, entries[n - 1].1);
      }
    }
  }

  /** The characters past the type and `Ref`: the trailing run of digits. */
  function TrailingDigits(s: string): (n: nat)
  {
    if |s| == 0 || !IsDigit(s[|s| - 1]) then 0 else 1 + TrailingDigits(s[..|s| - 1])
  }

  lemma {:induction false} TrailingDigitsOfReferenceId(prefix: string, d: string)
    requires AllDigits(d)
    ensures TrailingDigits(prefix + "Ref" + d) == |d|
  {
    var s := prefix + "Ref" + d;
    if |d| == 0 {
      assert s == prefix + "Ref";
      assert s[|s| - 1] == 'f';
    } else {
      assert s[..|s| - 1] == prefix + "Ref" + d[..|d| - 1];
      TrailingDigitsOfReferenceId(prefix, d[..|d| - 1]);
    }
  }

  /** A reference id determines both its object type and its position. */
  lemma ReferenceIdInjective(t1: string, n1: nat, t2: string, n2: nat)
    requires ReferenceId(t1, n1) == ReferenceId(t2, n2)
    ensures t1 == t2 && n1 == n2
  {
    var s := ReferenceId(t1, n1);
    var d1 := NatToString(n1);
    var d2 := NatToString(n2);
    TrailingDigitsOfReferenceId(t1, d1);
    TrailingDigitsOfReferenceId(t2, d2);
    assert |d1| == |d2|;
    assert s[|s| - |d1|..] == d1;
    assert s[|s| - |d2|..] == d2;
    NatToStringInjective(n1, n2);
    assert s[..|s| - |d1|] == t1 + "Ref";
    assert s[..|s| - |d2|] == t2 + "Ref";
    assert t1 == (t1 + "Ref")[..|t1|];
    assert t2 == (t2 + "Ref")[..|t2|];
  }

  /** The export has one record per result, numbered 1-based across the whole export. */
  lemma TreeShape(results: seq<Record>)
    ensures |Tree(results)| == |results|
    ensures forall i :: 0 <= i < |results| ==> Tree(results)[i].attributes.objectType == results[i].objectType
    ensures forall i, j :: 0 <= i < j < |results| ==>
              Tree(results)[i].attributes.referenceId != Tree(results)[j].attributes.referenceId
    ensures forall i :: 0 <= i < |results| ==> NoAttributesField(Tree(results)[i].fields)
  {
    var tree := Tree(results);
    forall i, j | 0 <= i < j < |results|
      ensures tree[i].attributes.referenceId != tree[j].attributes.referenceId
    {
      if tree[i].attributes.referenceId == tree[j].attributes.referenceId {
        ReferenceIdInjective(results[i].objectType, i + 1, results[j].objectType, j + 1);
      }
    }
    forall i | 0 <= i < |results| ensures NoAttributesField(tree[i].fields) {
      CopyFieldsNoAttributes(results[i].entries, results[i].entries);
    }
  }

  /** A record with distinct keys is exported with all its non-`attributes` entries, verbatim. */
  lemma TreeFieldsVerbatim(results: seq<Record>, i: nat)
    requires i < |results| && DistinctKeys(results[i].entries)
    ensures Tree(results)[i].fields == NonMetaEntries(results[i].entries)
  {
    var entries := results[i].entries;
    CopyFieldsVerbatim(entries, |entries|);
    assert entries[..|entries|] == entries;
  }

  /** The reference id is the type, `Ref`, and digits that read back as the position. */
  lemma ReferenceIdParts(objectType: string, n: nat)
    ensures ReferenceId(objectType, n)[..|objectType| + 3] == objectType + "Ref"
    ensures AllDigits(ReferenceId(objectType, n)[|objectType| + 3..])
    ensures DigitsValue(ReferenceId(objectType, n)[|objectType| + 3..]) == n
  {
    var s := ReferenceId(objectType, n);
    assert s[|objectType| + 3..] == NatToString(n);
    NatToStringRoundTrip(n);
  }

  /** Two Account records are exported as `AccountRef1` and `AccountRef2`. */
  lemma ExampleReferenceIds()
    ensures ReferenceId("Account", 1) == "AccountRef1"
    ensures ReferenceId("Account", 2) == "AccountRef2"
  {
    assert NatToString(1) == "1";
    assert NatToString(2) == "2";
  }
}
