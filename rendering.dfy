/**
 * The text renderer of the query commands: a header line with the column
 * names, then one line per record whose cells are assembled with the
 * separator-only-after-a-non-empty-row rule. The delimiters and the
 * treatment of absent values come from a style that each command derives
 * from its output format.
 */
module Rendering {
  import opened Wrappers
  import opened JsText
  import opened SObjects

  /**
   * How a value that is not present is written: replaced by a token
   * (the `nullValue` of the extended query command) or converted as it is
   * (the command without null substitution).
   */
  datatype NullRule = Substitute(token: string) | Verbatim

  /** The delimiters of one format; `lineEnd` already carries the final newline. */
  datatype Style = Style(separator: string, lineStart: string, lineEnd: string, nullRule: NullRule)

  /** The delimiters the csv formats share. */
  const CsvSeparator: string := "\",\""
  const CsvWrapper: string := "\""

  /** The delimiters of the table format. */
  const TableSeparator: string := " | "
  const TableStart: string := "| "
  const TableEnd: string := " |"

  /** The text one value contributes to a row. */
  function Cell(v: Value, rule: NullRule): (cell: string)
  {
    match rule
    case Verbatim => ToJsString(v)
    case Substitute(token) => if IsPresent(v) then ToJsString(v) else token
  }

  /** One step of the row loop: the separator only when the row is already non-empty, then the cell. */
  function AppendCell(row: string, cell: string, separator: string): (extended: string)
  {
    (if row != "" then row + separator else row) + cell
  }

  /** The row the cell loop accumulates, from the left. */
  function AssembleRow(cells: seq<string>, separator: string): (row: string)
  {
    if |cells| == 0 then ""
    else AppendCell(AssembleRow(cells[..|cells| - 1], separator), cells[|cells| - 1], separator)
  }

  /** The cells after the leading run of empty cells. */
  function DropLeadingEmpty(cells: seq<string>): (rest: seq<string>)
    ensures |rest| == 0 || rest[0] != ""
  {
    if |cells| == 0 then []
    else if cells[0] == "" then DropLeadingEmpty(cells[1..])
    else cells
  }

  /** The columns: the first record's keys except `attributes`, none when there is no record. */
  function Columns(records: seq<Record>): (columns: seq<string>)
  {
    match First(records)
    case None => []
    case Some(r) => NonMetaKeys(Keys(r))
  }

  /** The cells of one record under the given columns; a missing key reads as `Undefined`. */
  function RowCells(r: Record, columns: seq<string>, rule: NullRule): (cells: seq<string>)
  {
    if |columns| == 0 then []
    else RowCells(r, columns[..|columns| - 1], rule) + [Cell(Lookup(r.entries, columns[|columns| - 1]), rule)]
  }

  /** A line: the content between the line wrappers. */
  function Line(content: string, style: Style): (line: string)
  {
    style.lineStart + content + style.lineEnd
  }

  /** The header line: the column names joined by the separator. */
  function Header(columns: seq<string>, style: Style): (header: string)
  {
    Line(Join(columns, style.separator), style)
  }

  /** The line of one record. */
  function RecordLine(r: Record, columns: seq<string>, style: Style): (line: string)
  {
    Line(AssembleRow(RowCells(r, columns, style.nullRule), style.separator), style)
  }

  /** The record lines, in record order. */
  function Body(records: seq<Record>, columns: seq<string>, style: Style): (body: string)
  {
    if |records| == 0 then ""
    else Body(records[..|records| - 1], columns, style) + RecordLine(records[|records| - 1], columns, style)
  }

  /** The whole rendered text: the header, then the record lines. */
  function Text(records: seq<Record>, style: Style): (text: string)
  {
    Header(Columns(records), style) + Body(records, Columns(records), style)
  }

  /**
   * The shared part of printResults: the header from the extracted field
   * list, then for every record a row built cell by cell and wrapped.
   */
  method RenderText(records: seq<Record>, style: Style) returns (outputStr: string)
    ensures outputStr == Text(records, style)
  {
    var resultFieldList := GetFieldListFromResult(First(records));
    ghost var header := Header(resultFieldList, style);
    ghost var body := "";
    outputStr := style.lineStart + Join(resultFieldList, style.separator) + style.lineEnd;
    AppendEmpty(header);
    for i := 0 to |records|
      invariant body == Body(records[..i], resultFieldList, style)
      invariant outputStr == header + body
    {
      var row := RenderRow(records[i], resultFieldList, style.nullRule, style.separator);
      ghost var line := RecordLine(records[i], resultFieldList, style);
      BodyStep(records, i, resultFieldList, style);
      Assoc(header, body, line);
      outputStr := outputStr + (style.lineStart + row + style.lineEnd);
      body := body + line;
    }
    assert records[..|records|] == records;
    assert resultFieldList == Columns(records);
  }

  /** The header alone is the header followed by the empty body. */
  lemma AppendEmpty(a: string)
    ensures a + "" == a
  {
  }

  /** Appending a line to the output is appending it to the body. */
  lemma Assoc(a: string, b: string, c: string)
    ensures (a + b) + c == a + (b + c)
  {
  }

  /** The cell loop of printResults for one record. */
  method RenderRow(r: Record, columns: seq<string>, rule: NullRule, separator: string) returns (row: string)
    ensures row == AssembleRow(RowCells(r, columns, rule), separator)
  {
    row := "";
    for j := 0 to |columns|
      invariant row == AssembleRow(RowCells(r, columns[..j], rule), separator)
    {
      ghost var before := row;
      if row != "" {
        row := row + separator;
      }
      var value := Lookup(r.entries, columns[j]);
      if rule.Verbatim? || IsPresent(value) {
        row := row + ToJsString(value);
      } else {
        row := row + rule.token;
      }
      assert row == AppendCell(before, Cell(value, rule), separator);
      RowStep(r, columns, j, rule, separator);
    }
    assert columns[..|columns|] == columns;
  }

  lemma BodyStep(records: seq<Record>, i: nat, columns: seq<string>, style: Style)
    requires i < |records|
    ensures Body(records[..i + 1], columns, style) == Body(records[..i], columns, style) + RecordLine(records[i], columns, style)
  {
    assert records[..i + 1][..i] == records[..i];
  }

  lemma RowCellsStep(r: Record, columns: seq<string>, j: nat, rule: NullRule)
    requires j < |columns|
    ensures RowCells(r, columns[..j + 1], rule) == RowCells(r, columns[..j], rule) + [Cell(Lookup(r.entries, columns[j]), rule)]
  {
    assert columns[..j + 1][..j] == columns[..j];
  }

  /** One pass of the cell loop extends the assembled row by the next column's cell. */
  lemma RowStep(r: Record, columns: seq<string>, j: nat, rule: NullRule, separator: string)
    requires j < |columns|
    ensures AssembleRow(RowCells(r, columns[..j + 1], rule), separator)
         == AppendCell(AssembleRow(RowCells(r, columns[..j], rule), separator), Cell(Lookup(r.entries, columns[j]), rule), separator)
  {
    RowCellsStep(r, columns, j, rule);
    var cells := RowCells(r, columns[..j], rule);
    assert (cells + [Cell(Lookup(r.entries, columns[j]), rule)])[..|cells|] == cells;
  }

  /** The cells line up with the columns: cell `j` renders the record's value under column `j`. */
  lemma {:induction false} RowCellsIndex(r: Record, columns: seq<string>, rule: NullRule)
    ensures |RowCells(r, columns, rule)| == |columns|
    ensures forall j :: 0 <= j < |columns| ==> RowCells(r, columns, rule)[j] == Cell(Lookup(r.entries, columns[j]), rule)
  {
    if |columns| > 0 {
      var init := columns[..|columns| - 1];
      RowCellsIndex(r, init, rule);
      forall j | 0 <= j < |init| ensures init[j] == columns[j] { }
    }
  }

  /** A present value renders as its own string, which is never empty. */
  lemma PresentCell(v: Value, rule: NullRule)
    requires IsPresent(v)
    ensures Cell(v, rule) == ToJsString(v)
    ensures Cell(v, rule) != ""
  {
    if v.Int? {
      assert |IntToString(v.i)| >= 1;
    }
  }

  /**
   * Null, undefined and the empty string render as the token when it is
   * substituted; converted as they are, null and undefined spell
   * themselves out and only the empty string stays empty.
   */
  lemma AbsentCell(v: Value, rule: NullRule)
    requires !IsPresent(v)
    ensures v == Null || v == Undefined || v == Str("")
    ensures rule.Substitute? ==> Cell(v, rule) == rule.token
    ensures rule.Verbatim? ==> Cell(v, rule) == (if v == Null then "null" else if v == Undefined then "undefined" else "")
  {
    PresentIffNotNullish(v);
  }

  /** A key the record lacks renders as the null token, or as `undefined` without substitution. */
  lemma MissingKeyCell(r: Record, key: string, rule: NullRule)
    requires forall k :: 0 <= k < |r.entries| ==> r.entries[k].0 != key
    ensures Cell(Lookup(r.entries, key), rule) == (if rule.Substitute? then rule.token else "undefined")
  {
    LookupSpec(r.entries, key);
  }

  lemma JoinAppend(parts: seq<string>, last: string, separator: string)
    requires |parts| >= 1
    ensures Join(parts + [last], separator) == Join(parts, separator) + separator + last
    decreases |parts|
  {
    if |parts| == 1 {
      assert parts + [last] == [parts[0], last];
      assert [parts[0], last][1..] == [last];
    } else {
      var rest := parts[1..];
      assert (parts + [last])[1..] == rest + [last];
      JoinAppend(rest, last, separator);
    }
  }

  lemma JoinHead(parts: seq<string>, separator: string)
    requires |parts| >= 1
    ensures Join(parts, separator)[..|parts[0]|] == parts[0]
  {
  }

  lemma {:induction false} DropLeadingEmptyAppend(cells: seq<string>, last: string)
    ensures DropLeadingEmpty(cells + [last])
         == (if DropLeadingEmpty(cells) == [] then (if last == "" then [] else [last])
             else DropLeadingEmpty(cells) + [last])
    decreases |cells|
  {
    if |cells| == 0 {
      assert [] + [last] == [last];
      assert [last][1..] == [];
    } else {
      assert (cells + [last])[0] == cells[0];
      assert (cells + [last])[1..] == cells[1..] + [last];
      if cells[0] == "" {
        DropLeadingEmptyAppend(cells[1..], last);
      }
    }
  }

  /**
   * The separator rule as a join: the row is the join of the cells that
   * follow the leading empty ones. Empty cells after the first non-empty
   * one keep their separators; leading empty cells lose theirs.
   */
  lemma {:induction false} AssembleRowIsJoin(cells: seq<string>, separator: string)
    ensures AssembleRow(cells, separator) == Join(DropLeadingEmpty(cells), separator)
  {
    if |cells| > 0 {
      var init := cells[..|cells| - 1];
      var last := cells[|cells| - 1];
      assert cells == init + [last];
      AssembleRowIsJoin(init, separator);
      DropLeadingEmptyAppend(init, last);
      JoinStep(DropLeadingEmpty(init), last, separator);
    }
  }

  /** One step of the row loop on a join whose first part is non-empty (or that is empty). */
  lemma JoinStep(d: seq<string>, last: string, separator: string)
    requires |d| == 0 || d[0] != ""
    ensures AppendCell(Join(d, separator), last, separator)
         == Join(if d == [] then (if last == "" then [] else [last]) else d + [last], separator)
  {
    if d != [] {
      JoinAppend(d, last, separator);
      JoinHead(d, separator);
      assert Join(d, separator) != "" by {
        assert |Join(d, separator)| >= |d[0]| > 0;
      }
    }
  }

  /** When no cell is empty the row is exactly the cells joined by the separator. */
  lemma NonEmptyCellsJoin(cells: seq<string>, separator: string)
    requires forall k :: 0 <= k < |cells| ==> cells[k] != ""
    ensures AssembleRow(cells, separator) == Join(cells, separator)
  {
    AssembleRowIsJoin(cells, separator);
  }

  /**
   * The column shift the separator rule causes: an empty first cell
   * contributes neither text nor separator, so the row starts with the
   * second cell.
   */
  lemma LeadingEmptyCellDropsSeparator(cell: string, separator: string)
    ensures AssembleRow(["", cell], separator) == cell
    ensures Join(["", cell], separator) == separator + cell
  {
    LeadingEmptyRow(cell, separator);
    LeadingEmptyJoin(cell, separator);
  }

  lemma LeadingEmptyRow(cell: string, separator: string)
    ensures AssembleRow(["", cell], separator) == cell
  {
    var cells := ["", cell];
    assert cells[..1] == [""];
    assert AssembleRow([""], separator) == "" by {
      assert [""][..0] == [];
    }
  }

  lemma LeadingEmptyJoin(cell: string, separator: string)
    ensures Join(["", cell], separator) == separator + cell
  {
    JoinCons("", [cell], separator);
    assert [""] + [cell] == ["", cell];
  }

  /**
   * A non-empty null token makes every cell non-empty, so each record line
   * is the plain join of its cells and has one cell per column.
   */
  lemma NonEmptyTokenRow(r: Record, columns: seq<string>, style: Style)
    requires style.nullRule.Substitute? && style.nullRule.token != ""
    ensures RecordLine(r, columns, style)
         == Line(Join(RowCells(r, columns, style.nullRule), style.separator), style)
  {
    var cells := RowCells(r, columns, style.nullRule);
    RowCellsIndex(r, columns, style.nullRule);
    forall k | 0 <= k < |cells| ensures cells[k] != "" {
      var v := Lookup(r.entries, columns[k]);
      if IsPresent(v) {
        PresentCell(v, style.nullRule);
      } else {
        AbsentCell(v, style.nullRule);
      }
    }
    NonEmptyCellsJoin(cells, style.separator);
  }

  /** No records: no `for ... in` iteration, so the text is the empty header line alone. */
  lemma TextOfNoRecords(style: Style)
    ensures Text([], style) == style.lineStart + style.lineEnd
  {
  }

  /**
   * One line per record, in order: appending a record to a non-empty result
   * appends its line, rendered under the columns of the first record.
   */
  lemma TextAppend(records: seq<Record>, r: Record, style: Style)
    requires |records| > 0
    ensures Columns(records + [r]) == Columns(records)
    ensures Text(records + [r], style) == Text(records, style) + RecordLine(r, Columns(records), style)
  {
    assert First(records + [r]) == First(records) by {
      assert (records + [r])[0] == records[0];
    }
    BodySnoc(records, r, Columns(records), style);
  }

  lemma BodySnoc(records: seq<Record>, r: Record, columns: seq<string>, style: Style)
    ensures Body(records + [r], columns, style) == Body(records, columns, style) + RecordLine(r, columns, style)
  {
    assert (records + [r])[..|records|] == records;
  }

  /** A single record gives the header then its own line. */
  lemma TextOfOneRecord(r: Record, style: Style)
    ensures Text([r], style) == Header(NonMetaKeys(Keys(r)), style) + RecordLine(r, NonMetaKeys(Keys(r)), style)
  {
    assert [r][..0] == [];
    assert First([r]) == Some(r);
    assert Body([], NonMetaKeys(Keys(r)), style) == "";
  }
}
