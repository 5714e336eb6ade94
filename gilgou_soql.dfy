/**
 * The earlier query command: the same expansion and output pipeline with
 * a narrower field resolver (only `all` and `updateable` select anything),
 * only the `csv` format besides the table, and no null substitution.
 */
module GilgouSoql {
  import opened Wrappers
  import opened JsText
  import opened SObjects
  import opened QueryExpansion
  import opened FieldAccess
  import opened Rendering
  import opened TreeExport
  import opened Commands

  /** The only capability this resolver reads. */
  const Updateable: string := "updateable"

  /** A field is kept for `all`, or for `updateable` when the field is updateable. */
  predicate SoqlKeeps(f: FieldDescriptor, fieldAccess: string)
  {
    fieldAccess == AllFields || (fieldAccess == Updateable && Capability(f, Updateable))
  }

  /** The names of the kept fields, in describe order. */
  function SoqlSelectedNames(fields: seq<FieldDescriptor>, fieldAccess: string): (names: seq<string>)
  {
    if |fields| == 0 then []
    else
      var last := fields[|fields| - 1];
      SoqlSelectedNames(fields[..|fields| - 1], fieldAccess)
        + (if SoqlKeeps(last, fieldAccess) then [last.name] else [])
  }

  /** The resolver for one describe collaborator. */
  function SoqlResolverFor(describe: string -> seq<FieldDescriptor>, fieldAccess: string): (resolve: string -> string)
  {
    objectType => Join(SoqlSelectedNames(describe(objectType), fieldAccess), ",")
  }

  /** getFields: keeps the names of the fields the specification allows. */
  method GetFields(fields: seq<FieldDescriptor>, fieldAccess: string) returns (list: string)
    ensures list == Join(SoqlSelectedNames(fields, fieldAccess), ",")
  {
    var fieldList: seq<string> := [];
    for i := 0 to |fields|
      invariant fieldList == SoqlSelectedNames(fields[..i], fieldAccess)
    {
      assert fields[..i + 1][..i] == fields[..i];
      if fieldAccess == AllFields || (fieldAccess == Updateable && Capability(fields[i], Updateable)) {
        fieldList := fieldList + [fields[i].name];
      }
    }
    assert fields[..|fields|] == fields;
    list := Join(fieldList, ",");
  }

  /** Any specification other than `all` and `updateable` selects nothing, lists included. */
  lemma {:induction false} OtherSpecSelectsNothing(fields: seq<FieldDescriptor>, fieldAccess: string)
    requires fieldAccess != AllFields && fieldAccess != Updateable
    ensures SoqlSelectedNames(fields, fieldAccess) == []
  {
    if |fields| > 0 {
      OtherSpecSelectsNothing(fields[..|fields| - 1], fieldAccess);
    }
  }

  /** On `all` and `updateable` this resolver and the capability-list filter keep the same fields. */
  lemma {:induction false} AgreesWithAndFilter(fields: seq<FieldDescriptor>, fieldAccess: string)
    requires fieldAccess == AllFields || fieldAccess == Updateable
    ensures SoqlSelectedNames(fields, fieldAccess) == SelectedNames(fields, fieldAccess)
  {
    if |fields| > 0 {
      var last := fields[|fields| - 1];
      AgreesWithAndFilter(fields[..|fields| - 1], fieldAccess);
      if fieldAccess == Updateable {
        UpdateableIsOneToken();
        SingleKeeps(last, Updateable);
      }
    }
  }

  /** `updateable` is a single capability token, not `all`. */
  lemma UpdateableIsOneToken()
    ensures ',' !in Updateable && Updateable != AllFields
  {
  }

  /** Only `csv` selects the csv delimiters; every value is written as its own string. */
  function FormatStyle(format: string): (style: Style)
  {
    if format == "csv" then Style(CsvSeparator, CsvWrapper, CsvWrapper + "\n", Verbatim)
    else Style(TableSeparator, TableStart, TableEnd + "\n", Verbatim)
  }

  /** printResults: the format switch, then the header and one line per record. */
  method PrintResults(records: seq<Record>, format: string) returns (outputStr: string)
    ensures outputStr == Text(records, FormatStyle(format))
  {
    var separator := "";
    var lineStart := "";
    var lineEnd := "";
    if format == "csv" {
      separator := CsvSeparator;
      lineStart := CsvWrapper;
      lineEnd := CsvWrapper;
    } else {
      separator := TableSeparator;
      lineStart := TableStart;
      lineEnd := TableEnd;
    }
    lineEnd := lineEnd + "\n";
    outputStr := RenderText(records, Style(separator, lineStart, lineEnd, Verbatim));
  }

  /** `bulkcsv` is not a format here: it renders as the table, like any format but `csv`. */
  lemma FormatDispatch(format: string)
    ensures format != "csv" ==> FormatStyle(format) == FormatStyle("bulkcsv")
    ensures FormatStyle("bulkcsv").separator == TableSeparator
    ensures FormatStyle(format).nullRule == Verbatim
  {
  }

  /** Absent values are not substituted: null, a missing key and the empty string print as `null`, `undefined`, ``. */
  lemma NoNullSubstitution(format: string, r: Record, key: string)
    ensures Cell(Null, FormatStyle(format).nullRule) == "null"
    ensures Cell(Undefined, FormatStyle(format).nullRule) == "undefined"
    ensures Cell(Str(""), FormatStyle(format).nullRule) == ""
    ensures (forall k :: 0 <= k < |r.entries| ==> r.entries[k].0 != key)
              ==> Cell(Lookup(r.entries, key), FormatStyle(format).nullRule) == "undefined"
  {
    AbsentCell(Null, Verbatim);
    AbsentCell(Undefined, Verbatim);
    if forall k :: 0 <= k < |r.entries| ==> r.entries[k].0 != key {
      MissingKeyCell(r, key, Verbatim);
    }
  }

  /** run: as in the extended command, with this resolver and this format switch. */
  method Run(query: string, fieldAccess: string, format: string,
             describe: string -> seq<FieldDescriptor>, execute: string -> seq<Record>)
    returns (r: Result<Outcome, QueryError>)
    ensures r.Failure? <==> forall p: nat :: !FromAt(query, p)
    ensures r.Failure? ==> r.error == MalformedQuery(query)
    ensures r.Success? ==> Expand(query, SoqlResolverFor(describe, fieldAccess)) == Success(r.value.query)
    ensures r.Success? ==> r.value.results == execute(r.value.query)
    ensures r.Success? ==> r.value.logged
                           == if format == "tree" then TreeOut(Tree(r.value.results))
                              else TextOut(Text(r.value.results, FormatStyle(format)))
    ensures r.Success? ==> r.value.calls
                           == (if '*' in query then [Describe(MatchFrom(query).value.objectType)] else [])
                              + [Execute(r.value.query)]
  {
    var matches := MatchFrom(query);
    if matches.None? {
      return Failure(MalformedQuery(query));
    }
    var outputQuery := query;
    var calls: seq<RemoteCall> := [];
    if IndexOf(query, '*') > -1 {
      var objectType := matches.value.objectType;
      calls := calls + [Describe(objectType)];
      var fields := GetFields(describe(objectType), fieldAccess);
      outputQuery := ReplaceFirst(query, '*', fields);
    }
    calls := calls + [Execute(outputQuery)];
    var soqlResults := execute(outputQuery);
    var logged: Rendered;
    if format == "tree" {
      var records := ExportResults(soqlResults);
      logged := TreeOut(records);
    } else {
      var outputStr := PrintResults(soqlResults, format);
      logged := TextOut(outputStr);
    }
    r := Success(Outcome(outputQuery, soqlResults, logged, calls));
  }
}
