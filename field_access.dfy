/**
 * The schema field resolver of the extended query commands: the fields of
 * a describe result whose capabilities satisfy a field-access
 * specification, joined with commas in describe order. The specification
 * is either exactly `all` or a comma-separated list of capability names
 * that must all be true for a field to be kept.
 */
module FieldAccess {
  import opened JsText
  import opened SObjects

  /** The sentinel specification that keeps every field. */
  const AllFields: string := "all"

  /** Every listed capability is true for the field (the fold of `&&` over the tokens). */
  predicate HasAll(f: FieldDescriptor, tokens: seq<string>)
  {
    forall k :: 0 <= k < |tokens| ==> Capability(f, tokens[k])
  }

  /** Whether a field is kept: the whole specification is `all`, or every comma-split token holds. */
  predicate Keeps(f: FieldDescriptor, fieldAccess: string)
  {
    fieldAccess == AllFields || HasAll(f, Split(fieldAccess, ','))
  }

  /** The names of the kept fields, in describe order. */
  function SelectedNames(fields: seq<FieldDescriptor>, fieldAccess: string): (names: seq<string>)
  {
    if |fields| == 0 then []
    else
      var last := fields[|fields| - 1];
      SelectedNames(fields[..|fields| - 1], fieldAccess)
        + (if Keeps(last, fieldAccess) then [last.name] else [])
  }

  /** The resolver's answer: the kept names joined with `,`. */
  function Resolve(fields: seq<FieldDescriptor>, fieldAccess: string): (fieldList: string)
  {
    Join(SelectedNames(fields, fieldAccess), ",")
  }

  /** The resolver for one describe collaborator, as the expansion consumes it. */
  function ResolverFor(describe: string -> seq<FieldDescriptor>, fieldAccess: string): (resolve: string -> string)
  {
    objectType => Resolve(describe(objectType), fieldAccess)
  }

  /**
   * getFields: loops over the described fields, folds `includeField`
   * across the tokens unless the specification is `all`, and collects the
   * names of the fields it keeps.
   */
  method GetFields(fields: seq<FieldDescriptor>, fieldAccess: string) returns (list: string)
    ensures list == Join(SelectedNames(fields, fieldAccess), ",")
  {
    var fieldAccesses := Split(fieldAccess, ',');
    var fieldList: seq<string> := [];
    for i := 0 to |fields|
      invariant fieldList == SelectedNames(fields[..i], fieldAccess)
    {
      var includeField := false;
      if fieldAccess == AllFields {
        includeField := true;
      } else {
        includeField := true;
        for j := 0 to |fieldAccesses|
          invariant includeField == HasAll(fields[i], fieldAccesses[..j])
        {
          includeField := includeField && Capability(fields[i], fieldAccesses[j]);
        }
        assert fieldAccesses[..|fieldAccesses|] == fieldAccesses;
      }
      assert fields[..i + 1][..i] == fields[..i];
      if includeField {
        fieldList := fieldList + [fields[i].name];
      }
    }
    assert fields[..|fields|] == fields;
    list := Join(fieldList, ",");
  }

  /** Selection distributes over concatenation: kept names stay in describe order. */
  lemma {:induction false} SelectedNamesAppend(a: seq<FieldDescriptor>, b: seq<FieldDescriptor>, fieldAccess: string)
    ensures SelectedNames(a + b, fieldAccess) == SelectedNames(a, fieldAccess) + SelectedNames(b, fieldAccess)
    decreases |b|
  {
    if |b| == 0 {
      assert a + b == a;
    } else {
      var b' := b[..|b| - 1];
      assert (a + b)[..|a + b| - 1] == a + b';
      SelectedNamesAppend(a, b', fieldAccess);
    }
  }

  /** A field's name is selected exactly when the field is kept, and nothing is invented. */
  lemma {:induction false} SelectedNamesMembers(fields: seq<FieldDescriptor>, fieldAccess: string)
    ensures |SelectedNames(fields, fieldAccess)| <= |fields|
    ensures forall i :: 0 <= i < |fields| && Keeps(fields[i], fieldAccess)
              ==> fields[i].name in SelectedNames(fields, fieldAccess)
    ensures forall n :: n in SelectedNames(fields, fieldAccess)
              ==> exists i :: 0 <= i < |fields| && fields[i].name == n && Keeps(fields[i], fieldAccess)
  {
    if |fields| > 0 {
      var init := fields[..|fields| - 1];
      SelectedNamesMembers(init, fieldAccess);
      forall i | 0 <= i < |init| ensures init[i] == fields[i] { }
    }
  }

  /** `all` keeps every field, in describe order. */
  lemma {:induction false} AllKeepsEveryName(fields: seq<FieldDescriptor>)
    ensures SelectedNames(fields, AllFields) == seq(|fields|, i requires 0 <= i < |fields| => fields[i].name)
  {
    if |fields| > 0 {
      AllKeepsEveryName(fields[..|fields| - 1]);
    }
  }

  /** A capability no field has selects nothing, so the wildcard becomes the empty string. */
  lemma {:induction false} UnknownCapabilitySelectsNothing(fields: seq<FieldDescriptor>, fieldAccess: string, token: string)
    requires fieldAccess != AllFields
    requires token in Split(fieldAccess, ',')
    requires forall i :: 0 <= i < |fields| ==> !Capability(fields[i], token)
    ensures SelectedNames(fields, fieldAccess) == []
    ensures Resolve(fields, fieldAccess) == ""
  {
    if |fields| > 0 {
      UnknownCapabilitySelectsNothing(fields[..|fields| - 1], fieldAccess, token);
    }
  }

  /** Splitting two comma-free names joined by a comma. */
  lemma SplitPair(a: string, b: string)
    requires ',' !in a && ',' !in b
    ensures Split(a + "," + b, ',') == [a, b]
  {
    SplitJoin([a, b], ',');
    JoinCons(a, [b], [',']);
    assert [a] + [b] == [a, b];
    assert Join([a, b], [',']) == a + "," + b;
  }

  /** A two-name specification keeps a field iff the field has both capabilities. */
  lemma PairKeeps(f: FieldDescriptor, first: string, second: string)
    requires ',' !in first && ',' !in second
    ensures Keeps(f, first + "," + second) <==> Capability(f, first) && Capability(f, second)
  {
    SplitPair(first, second);
    assert (first + "," + second)[|first|] == ',';
    assert ',' in first + "," + second;
    assert ',' !in AllFields;
    var tokens := Split(first + "," + second, ',');
    assert tokens == [first, second];
    assert HasAll(f, tokens) <==> Capability(f, tokens[0]) && Capability(f, tokens[1]);
  }

  /**
   * `all` is a sentinel only as the whole specification: inside a list it is
   * an ordinary capability name that the field must carry.
   */
  lemma AllInsideListIsACapability(f: FieldDescriptor, other: string)
    requires ',' !in other
    ensures Keeps(f, AllFields + "," + other) <==> Capability(f, AllFields) && Capability(f, other)
  {
    PairKeeps(f, AllFields, other);
  }

  lemma SelectedPair(a: FieldDescriptor, b: FieldDescriptor, fieldAccess: string)
    ensures SelectedNames([a, b], fieldAccess)
         == (if Keeps(a, fieldAccess) then [a.name] else []) + (if Keeps(b, fieldAccess) then [b.name] else [])
  {
    var s := (if Keeps(a, fieldAccess) then [a.name] else []);
    assert [a, b][..1] == [a];
    assert [a][..0] == [];
    assert SelectedNames([a][..0], fieldAccess) == [];
    assert SelectedNames([a], fieldAccess) == [] + s;
    assert [] + s == s;
  }

  /** A one-token specification other than `all` keeps a field iff it has that capability. */
  lemma SingleKeeps(f: FieldDescriptor, token: string)
    requires ',' !in token && token != AllFields
    ensures Keeps(f, token) <==> Capability(f, token)
  {
    assert IndexOf(token, ',') == -1;
    var tokens := Split(token, ',');
    assert tokens == [token];
    assert HasAll(f, tokens) <==> Capability(f, tokens[0]);
  }

  /**
   * Two fields where only the second has both capabilities `u` and `c`:
   * the specification `u,c` keeps only the second, `u` keeps both, in order.
   */
  lemma AndFilter(a: FieldDescriptor, b: FieldDescriptor, u: string, c: string)
    requires ',' !in u && ',' !in c && u != AllFields
    requires Capability(a, u) && !Capability(a, c)
    requires Capability(b, u) && Capability(b, c)
    ensures SelectedNames([a, b], u + "," + c) == [b.name]
    ensures SelectedNames([a, b], u) == [a.name, b.name]
  {
    PairKeeps(a, u, c);
    PairKeeps(b, u, c);
    SingleKeeps(a, u);
    SingleKeeps(b, u);
    SelectedPair(a, b, u + "," + c);
    SelectedPair(a, b, u);
  }
}
