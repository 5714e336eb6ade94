/**
 * The extended query command: expands the `*` of a query with the fields
 * the capability filter keeps, runs the query, and logs the records as a
 * table, as csv, as bulk csv with `#N/A` for absent values, or as a tree.
 */
module ExtQuery {
  import opened Wrappers
  import opened JsText
  import opened SObjects
  import opened QueryExpansion
  import opened FieldAccess
  import opened Rendering
  import opened TreeExport
  import opened Commands

  /** The null token of the bulk csv format. */
  const BulkNullValue: string := "#N/A"

  /** The style each format selects; `bulkcsv` falls through to the csv delimiters. */
  function FormatStyle(format: string): (style: Style)
  {
    if format == "bulkcsv" then Style(CsvSeparator, CsvWrapper, CsvWrapper + "\n", Substitute(BulkNullValue))
    else if format == "csv" then Style(CsvSeparator, CsvWrapper, CsvWrapper + "\n", Substitute(""))
    else Style(TableSeparator, TableStart, TableEnd + "\n", Substitute(""))
  }

  /** printResults: the format switch, then the header and one line per record. */
  method PrintResults(records: seq<Record>, format: string) returns (outputStr: string)
    ensures outputStr == Text(records, FormatStyle(format))
  {
    var separator := "";
    var lineStart := "";
    var lineEnd := "";
    var nullValue := "";
    if format == "bulkcsv" {
      nullValue := BulkNullValue;
    }
    if format == "bulkcsv" || format == "csv" {
      separator := CsvSeparator;
      lineStart := CsvWrapper;
      lineEnd := CsvWrapper;
    } else {
      separator := TableSeparator;
      lineStart := TableStart;
      lineEnd := TableEnd;
    }
    lineEnd := lineEnd + "\n";
    outputStr := RenderText(records, Style(separator, lineStart, lineEnd, Substitute(nullValue)));
  }

  /**
   * run: the malformed-query check, the expansion of the first `*` through
   * one describe call, the query, then the tree export or the text output.
   */
  method Run(query: string, fieldAccess: string, format: string,
             describe: string -> seq<FieldDescriptor>, execute: string -> seq<Record>)
    returns (r: Result<Outcome, QueryError>)
    ensures r.Failure? <==> forall p: nat :: !FromAt(query, p)
    ensures r.Failure? ==> r.error == MalformedQuery(query)
    ensures r.Success? ==> Expand(query, ResolverFor(describe, fieldAccess)) == Success(r.value.query)
    ensures r.Success? ==> r.value.results == execute(r.value.query)
    ensures r.Success? ==> r.value.logged
                           == if format == "tree" then TreeOut(Tree(r.value.results))
                              else TextOut(Text(r.value.results, FormatStyle(format)))
    ensures r.Success? ==> r.value.calls
                           == (if '*' in query then [Describe(MatchFrom(query).value.objectType)] else [])
                              + [Execute(r.value.query)]
  {
    var matches := MatchFrom(query);
    if matches.None? {
      return Failure(MalformedQuery(query));
    }
    var outputQuery := query;
    var calls: seq<RemoteCall> := [];
    if IndexOf(query, '*') > -1 {
      var objectType := matches.value.objectType;
      calls := calls + [Describe(objectType)];
      var fields := GetFields(describe(objectType), fieldAccess);
      outputQuery := ReplaceFirst(query, '*', fields);
    }
    calls := calls + [Execute(outputQuery)];
    var soqlResults := execute(outputQuery);
    var logged: Rendered;
    if format == "tree" {
      var records := ExportResults(soqlResults);
      logged := TreeOut(records);
    } else {
      var outputStr := PrintResults(soqlResults, format);
      logged := TextOut(outputStr);
    }
    r := Success(Outcome(outputQuery, soqlResults, logged, calls));
  }

  /**
   * `bulkcsv` is `csv` with `#N/A` for absent values; every format other than
   * the two csv ones is the table; every line ends with its wrapper and a newline.
   */
  lemma FormatDispatch(format: string)
    ensures FormatStyle("bulkcsv") == FormatStyle("csv").(nullRule := Substitute(BulkNullValue))
    ensures format != "csv" && format != "bulkcsv" ==> FormatStyle(format) == FormatStyle("table")
    ensures format == "csv" || format == "bulkcsv" ==> FormatStyle(format).separator == CsvSeparator
    ensures FormatStyle(format).nullRule.Substitute?
    ensures FormatStyle(format).nullRule.token == (if format == "bulkcsv" then BulkNullValue else "")
    ensures var e := FormatStyle(format).lineEnd; |e| >= 1 && e[|e| - 1] == '\n'
  {
  }

  /** In bulk csv no cell is empty, so every record line holds one separator-joined cell per column. */
  lemma BulkCsvLinesAreJoins(r: Record, columns: seq<string>)
    ensures RecordLine(r, columns, FormatStyle("bulkcsv"))
         == CsvWrapper + Join(RowCells(r, columns, Substitute(BulkNullValue)), CsvSeparator) + CsvWrapper + "\n"
  {
    NonEmptyTokenRow(r, columns, FormatStyle("bulkcsv"));
  }

  /** In csv and the table an absent value leaves its cell empty (not the text `null`). */
  lemma CsvNullCellIsEmpty(format: string, v: Value)
    requires format != "bulkcsv" && !IsPresent(v)
    ensures Cell(v, FormatStyle(format).nullRule) == ""
  {
    AbsentCell(v, FormatStyle(format).nullRule);
  }
}
