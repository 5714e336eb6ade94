/**
 * The query generator: the expansion alone. It checks the query, expands
 * its first `*` with the fields the capability filter keeps, logs the
 * resulting query and returns it; no query is executed.
 */
module GenQuery {
  import opened Wrappers
  import opened JsText
  import opened SObjects
  import opened QueryExpansion
  import opened FieldAccess
  import opened Commands

  /** run: the malformed-query check, then the expansion through at most one describe call. */
  method Run(query: string, fieldAccess: string, describe: string -> seq<FieldDescriptor>)
    returns (r: Result<Generated, QueryError>)
    ensures r.Failure? <==> forall p: nat :: !FromAt(query, p)
    ensures r.Failure? ==> r.error == MalformedQuery(query)
    ensures r.Success? ==> Expand(query, ResolverFor(describe, fieldAccess)) == Success(r.value.query)
    ensures r.Success? ==> r.value.logged == r.value.query
    ensures r.Success? ==> r.value.calls
                           == if '*' in query then [Describe(MatchFrom(query).value.objectType)] else []
  {
    var matches := MatchFrom(query);
    if matches.None? {
      return Failure(MalformedQuery(query));
    }
    var outputQuery := query;
    var calls: seq<RemoteCall> := [];
    if IndexOf(query, '*') > -1 {
      var objectType := matches.value.objectType;
      calls := calls + [Describe(objectType)];
      var fields := GetFields(describe(objectType), fieldAccess);
      outputQuery := ReplaceFirst(query, '*', fields);
    }
    r := Success(Generated(outputQuery, outputQuery, calls));
  }

  /**
   * A `*` whose resolution selects nothing is replaced by the empty string:
   * the query is the text around the first `*`.
   */
  lemma EmptySelectionRemovesWildcard(query: string, fieldAccess: string, describe: string -> seq<FieldDescriptor>)
    requires '*' in query && MatchFrom(query).Some?
    requires SelectedNames(describe(MatchFrom(query).value.objectType), fieldAccess) == []
    ensures var k := IndexOf(query, '*');
            Expand(query, ResolverFor(describe, fieldAccess)) == Success(query[..k] + query[k + 1..])
  {
    var resolve := ResolverFor(describe, fieldAccess);
    var objectType := MatchFrom(query).value.objectType;
    assert resolve(objectType) == Resolve(describe(objectType), fieldAccess);
    ExpandWithEmptyResolution(query, resolve);
  }
}
