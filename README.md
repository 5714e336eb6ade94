# sfdx-extended-soql, modelled in Dafny

This project models the three commands of the sfdx-extended-soql Salesforce CLI plugin:

- `extsoql:query` (`src/commands/extsoql/query.ts`);
- `gilgou:soql` (`src/commands/gilgou/soql.ts`), the older variant;
- `extsoql:genquery` (`src/commands/extsoql/genquery.ts`).

All three run the same pipeline:

1. **Query expansion.** The query must contain a case-insensitive `from ` followed by an object type. That type is the possibly empty run of `[a-zA-Z0-9_]` after the first `from `. If there is no `from `, the command fails with a malformed-query error. Otherwise the first `*` of the query is replaced by the comma-joined field names that a describe of the object type selects.
2. **Field resolution.** `extsoql:query` and `extsoql:genquery` treat the field-access specification as `all`, or else as a comma-separated list of capabilities a field must all have. `gilgou:soql` recognises only `all` and `updateable`.
3. **Output.** The two querying commands execute the expanded query. They then log the records in one of two ways:
   - as text: a header of column names, then one line per record;
   - as a tree of records, each given a synthesised `referenceId`.

   The text formats are table, csv and (for `extsoql:query` only) bulk csv with `#N/A` for absent values. `extsoql:genquery` logs and returns the expanded query.

Module layout:

- `Wrappers`: `Option` and `Result`.
- `JsText`: the JavaScript string built-ins the commands rely on:
  - `indexOf` and the first-occurrence `replace` of a one-character pattern;
  - `split(',')` and `join`;
  - `String` of an integer.
- `SObjects`:
  - field values (`Str | Int | Bool | Null | Undefined`), JavaScript truthiness and the renderers' presence rule;
  - records as ordered key/value entries;
  - field descriptors as a name plus a capability map;
  - `getFieldListFromResult`.
- `QueryExpansion`: the hand-written scan for the first `from `, the captured object type, and the expansion as a `Result`. The expansion takes the field resolver as a parameter.
- `FieldAccess`: the capability-list filter (`getFields` of `extsoql:query` and `extsoql:genquery`).
- `Rendering`: the text renderer shared by both `printResults`, with the row rule: the separator is appended only when the row so far is non-empty.
- `TreeExport`: `exportResults`, including JavaScript property-assignment semantics for the copied keys.
- `Commands`: the outcome of a run.
  - `Describe` and `Execute` are the remote calls made, in order.
  - The logged text or tree.
- `ExtQuery`, `GilgouSoql`, `GenQuery`: one module per command.
  - Each holds its format switch, `printResults`, its own resolver where it differs, and `run`.
  - In `run`, the org's describe and query calls are function-typed inputs.

Every method that loops in the source loops here too, and each is proved equal to a specification function. The properties of those functions are then proved as lemmas. Examples:

- the error arises exactly when no `from ` occurs;
- only the first `*` changes;
- `all` keeps every field;
- the separator rule equals a join after dropping the leading empty cells;
- zero records give the header line alone;
- reference ids are distinct across an export.

Where the code and the program's own documentation examples disagree, the model follows the code:

- **Absent values in csv.** The csv documentation example of `extsoql:query` (query.ts:29) shows `"null"` cells. The null token of the csv format is the empty string (query.ts:134-142, 165-168), so such cells render empty.
- **Absent values in the table.** The table examples of `extsoql:query` (query.ts:19, 23) show `null` cells. The table's null token is also the empty string (query.ts:134, 143-147), so such cells render empty too.
- **Output of `gilgou:soql`.** Its examples (soql.ts:17-22) show the expanded query as the output. The log of that query is commented out (soql.ts:67); the command logs the records instead (soql.ts:73-77).

The zero-record case follows the code as well. With no records, `records[0]` is `undefined`. `for ... in` over `undefined` iterates nothing, so the output is the header line with no columns. The command does not fail.

## Model

| member | source | states |
|---|---|---|
| JsText.IndexOf | src/commands/extsoql/query.ts:73 | `indexOf('*')` is -1 exactly when there is no `*`; otherwise it is the index of the first `*` |
| JsText.ReplaceFirst | src/commands/extsoql/query.ts:78 | `replace('*', fields)` leaves a text without `*` unchanged; otherwise it puts the fields in place of the first `*` only |
| JsText.JoinSplit | src/commands/extsoql/query.ts:201 | joining the pieces of `split(',')` with `,` gives back the specification text |
| JsText.SplitJoin | src/commands/extsoql/query.ts:201 | splitting a comma-join of comma-free tokens gives back exactly those tokens |
| JsText.NatToStringRoundTrip | src/commands/extsoql/query.ts:112 | the decimal text of the position `i + 1` reads back as that number |
| JsText.NatToStringInjective | src/commands/extsoql/query.ts:112 | distinct positions have distinct decimal texts |
| JsText.IntToString | src/commands/extsoql/query.ts:166 | the text of an integer value is non-empty and starts with `-` exactly when the integer is negative; the digits (after the `-`, if any) read back as the integer's magnitude |
| SObjects.PresentIffNotNullish | src/commands/extsoql/query.ts:165 | a value is rendered as itself iff it is not null, not undefined and not the empty string; 0 and false are rendered |
| SObjects.LookupSpec | src/commands/extsoql/query.ts:164 | reading a key the record lacks gives `undefined`; otherwise it gives the value the record holds under that key |
| SObjects.GetFieldListFromResult | src/commands/extsoql/query.ts:180-189 | no record (`records[0]` undefined, query.ts:153) gives the empty list; a record gives its keys in iteration order without `attributes` (same code at soql.ts:157-166, genquery.ts:74-83) |
| SObjects.NonMetaKeysMembers | src/commands/extsoql/genquery.ts:74-83 | exactly the keys other than `attributes` are listed; keys without `attributes` come back unchanged; the list is never longer |
| SObjects.NonMetaKeysAppend | src/commands/extsoql/query.ts:182-186 | the filter works key by key: nothing is reordered |
| FieldAccess.GetFields | src/commands/extsoql/query.ts:199-223 | the result is the names of the kept fields in describe order, joined by `,`; a field is kept when the specification is exactly `all` or every split token is true for it (same code at genquery.ts:93-117) |
| FieldAccess.SelectedNamesAppend | src/commands/extsoql/genquery.ts:100-113 | selection distributes over concatenation of the describe result, so kept names stay in describe order |
| FieldAccess.SelectedNamesMembers | src/commands/extsoql/query.ts:206-219 | a field's name is selected iff the field is kept; no name is invented; at most one name per field |
| FieldAccess.AllKeepsEveryName | src/commands/extsoql/query.ts:208 | `all` selects every field name, in order |
| FieldAccess.UnknownCapabilitySelectsNothing | src/commands/extsoql/genquery.ts:105-106 | a token no field has selects nothing, so the wildcard becomes `""` |
| FieldAccess.SingleKeeps | src/commands/extsoql/query.ts:208-214 | a one-token specification other than `all` keeps a field iff that capability is true |
| FieldAccess.PairKeeps | src/commands/extsoql/query.ts:211-213 | a two-token specification keeps a field iff both capabilities are true (the AND fold) |
| FieldAccess.AllInsideListIsACapability | src/commands/extsoql/genquery.ts:102-106 | inside a list, `all` is an ordinary capability the field must have, not "no filter" |
| FieldAccess.AndFilter | src/commands/extsoql/genquery.ts:95-114 | with fields A(u) and B(u, c): `u,c` keeps only B, and `u` keeps A then B |
| QueryExpansion.MatchFrom | src/commands/extsoql/query.ts:62-65 | the match fails iff no case-insensitive `from ` occurs; on success it is at the first occurrence, and the capture is the maximal identifier run after it |
| QueryExpansion.MaximalIdentRunUnique | src/commands/extsoql/query.ts:62 | the captured object type is uniquely determined by where it starts |
| QueryExpansion.MatchFromAfter | src/commands/extsoql/query.ts:62 | text without `f`/`F`, then a `from ` keyword, an identifier run and a non-identifier character (or the end) matches at the keyword and captures the run |
| QueryExpansion.NoFromWithoutF | src/commands/extsoql/query.ts:66-71 | a query with no `f` in either case is malformed |
| QueryExpansion.Expand | src/commands/extsoql/query.ts:62-79 | the error arises iff no `from ` occurs and carries the query; without `*` the query is unchanged; otherwise the text before the first `*`, the resolved fields of the captured type and the text after it |
| QueryExpansion.ExpandWithoutWildcardIgnoresSchema | src/commands/extsoql/genquery.ts:56-62 | without `*`, the outcome does not depend on the schema, and a success returns the input |
| QueryExpansion.ExpandKeepsLaterWildcards | src/commands/extsoql/query.ts:78 | only the first `*` changes: the prefix is kept and has no `*`, the fields follow, and the rest (later `*` included) is kept |
| QueryExpansion.ExpandWithEmptyResolution | src/commands/extsoql/genquery.ts:61 | a `*` that resolves to `""` is simply removed |
| QueryExpansion.ExampleObjectType | src/commands/extsoql/query.ts:65 | `select *, * from Account` captures `Account` at position 12 |
| QueryExpansion.ExampleFirstWildcardOnly | src/commands/extsoql/query.ts:73-78 | `select *, * from Account` expands to `select <fields>, * from Account` |
| QueryExpansion.ExampleMalformed | src/commands/extsoql/query.ts:66-71 | `select * Account` fails with its own text |
| QueryExpansion.ExampleUpperCaseKeyword | src/commands/extsoql/query.ts:62 | `FROM` matches, since the pattern ignores case |
| QueryExpansion.ExampleNoWordBoundary | src/commands/extsoql/query.ts:62 | `selectfrom x` captures `x`: there is no word-boundary test |
| QueryExpansion.ExampleEmptyObjectType | src/commands/extsoql/query.ts:62 | `select Id from (x)` matches with an empty object type |
| Rendering.RenderText | src/commands/extsoql/query.ts:152-172 | the output is the header of the extracted columns followed by each record's line, in record order |
| Rendering.RenderRow | src/commands/extsoql/query.ts:159-169 | the row loop equals the left fold of "separator if non-empty, then cell" over the record's cells |
| Rendering.RowCellsIndex | src/commands/extsoql/query.ts:164 | there is one cell per column, and cell `j` renders the record's value under column `j` |
| Rendering.PresentCell | src/commands/extsoql/query.ts:165-166 | a present value renders as its own text, which is never empty |
| Rendering.AbsentCell | src/commands/extsoql/query.ts:167-168 | an absent value is null, undefined or `""`, and renders as the null token (or as `null`/`undefined`/`""` without substitution) |
| Rendering.MissingKeyCell | src/commands/extsoql/query.ts:164 | a column the record lacks renders as the null token, or as `undefined` without substitution |
| Rendering.AssembleRowIsJoin | src/commands/extsoql/query.ts:160-162 | the row is the join of the cells that follow the leading empty ones |
| Rendering.NonEmptyCellsJoin | src/commands/extsoql/query.ts:159-169 | when no cell is empty, the row is the plain join of the cells |
| Rendering.LeadingEmptyCellDropsSeparator | src/commands/extsoql/query.ts:160-162 | an empty first cell loses its separator: the row is the second cell, where a join would be separator plus cell |
| Rendering.NonEmptyTokenRow | src/commands/extsoql/query.ts:159-169 | with a non-empty null token, every record line is the wrapped join of all its cells |
| Rendering.TextOfNoRecords | src/commands/extsoql/query.ts:153-156 | zero records (`records[0]` undefined) give the empty header line only |
| Rendering.TextAppend | src/commands/extsoql/query.ts:156-172 | a further record adds exactly its own line at the end, under the first record's columns |
| Rendering.TextOfOneRecord | src/commands/extsoql/query.ts:153-172 | one record gives the header of its keys, then its line |
| TreeExport.ExportResults | src/commands/extsoql/query.ts:103-122 | each result yields one tree record, in order, with the type, reference id `type + "Ref" + (i+1)` and the copied keys (same code at soql.ts:88-107) |
| TreeExport.CopyRecordFields | src/commands/extsoql/query.ts:115-119 | the key loop assigns every key except `attributes`, in iteration order, with the value the record holds |
| TreeExport.AssignAbsent | src/commands/extsoql/query.ts:117 | assigning a new key appends it |
| TreeExport.AssignKeys | src/commands/extsoql/query.ts:117 | assignment adds no key except the assigned one |
| TreeExport.CopyFieldsNoAttributes | src/commands/gilgou/soql.ts:100-104 | no exported field is keyed `attributes` |
| TreeExport.CopyFieldsVerbatim | src/commands/extsoql/query.ts:115-119 | with distinct keys, the copy is every non-`attributes` entry in order with its value unchanged, null included |
| TreeExport.ReferenceIdInjective | src/commands/gilgou/soql.ts:97 | a reference id determines its object type and its position |
| TreeExport.ReferenceIdParts | src/commands/extsoql/query.ts:112 | a reference id is the type, `Ref`, and digits reading back as the 1-based position |
| TreeExport.TreeShape | src/commands/gilgou/soql.ts:88-107 | one record per result; each type is copied; reference ids are pairwise distinct across the export; no field is `attributes` |
| TreeExport.TreeFieldsVerbatim | src/commands/extsoql/query.ts:115-119 | a record with distinct keys has all its non-`attributes` entries exported verbatim |
| TreeExport.ExampleReferenceIds | src/commands/extsoql/query.ts:112 | two Account records get `AccountRef1` and `AccountRef2` |
| ExtQuery.PrintResults | src/commands/extsoql/query.ts:130-175 | the output is the text of the records in the style the format selects |
| ExtQuery.FormatDispatch | src/commands/extsoql/query.ts:135-150 | bulkcsv is csv with `#N/A`; every other format is the table; csv formats use `","`; the null token is `#N/A` only for bulkcsv; every line end finishes with a newline |
| ExtQuery.BulkCsvLinesAreJoins | src/commands/extsoql/query.ts:136-142 | in bulk csv, every record line is `"` + cells joined by `","` + `"` and a newline, one cell per column |
| ExtQuery.CsvNullCellIsEmpty | src/commands/extsoql/query.ts:165-168 | outside bulk csv, an absent value renders as the empty cell |
| ExtQuery.Run | src/commands/extsoql/query.ts:55-97 | fails exactly on a malformed query, with its text; otherwise it executes the expansion and logs the tree or the text; calls are a describe only when there is a `*`, then the query |
| GilgouSoql.GetFields | src/commands/gilgou/soql.ts:174-193 | the names of the fields kept by `all`, or by `updateable` when updateable, in describe order, joined by `,` |
| GilgouSoql.OtherSpecSelectsNothing | src/commands/gilgou/soql.ts:181-186 | any other specification, a list included, selects nothing |
| GilgouSoql.AgreesWithAndFilter | src/commands/gilgou/soql.ts:181-186 | on `all` and `updateable`, the selection equals the capability-list filter's |
| GilgouSoql.PrintResults | src/commands/gilgou/soql.ts:115-152 | the output is the text of the records in this command's style |
| GilgouSoql.FormatDispatch | src/commands/gilgou/soql.ts:119-130 | only `csv` gets the csv delimiters; bulkcsv renders as the table; no format substitutes null |
| GilgouSoql.NoNullSubstitution | src/commands/gilgou/soql.ts:145 | null renders as `null`, a missing key as `undefined`, and the empty string as empty |
| GilgouSoql.Run | src/commands/gilgou/soql.ts:41-83 | as `ExtQuery.Run`, with this command's resolver and format switch |
| GenQuery.Run | src/commands/extsoql/genquery.ts:39-69 | fails exactly on a malformed query, even without `*`; otherwise it returns and logs the expansion; the only call is a describe, made only when there is a `*` |
| GenQuery.EmptySelectionRemovesWildcard | src/commands/extsoql/genquery.ts:61 | when the filter selects nothing, the first `*` is replaced by `""` |

## Left out

- The CLI scaffolding is not modelled: flag declarations, messages, `SfdxCommand`, and the `|| 'all'` / `|| ''` defaults (query.ts:56-58). `Run` takes the query, the field-access specification and the format as given.
- In the malformed-query error, the message text is not modelled; the error carries the query.
- The org connection is replaced by inputs:
  - `conn.describe` and `conn.query` are function inputs of `Run`;
  - the promise plumbing is dropped;
  - the log of `Describe`/`Execute` calls stands for the effects.
- `ux.log` is modelled as the `logged` value. `JSON.stringify` of the tree is modelled as the structured records. The returned object is the `Outcome`.
- The unused `writeFile` helper (query.ts:225-234) is not modelled, because it only does file I/O.
- The `matches.length < 2` guard is not modelled, because a successful match always has its capture group and the branch cannot fire.
- Values are limited to strings, integers, booleans, null and undefined. Not modelled:
  - `String` of floats;
  - integers of magnitude 1e21 or more, and integers a JavaScript number cannot represent exactly;
  - nested relationship objects (`[object Object]`).
- `$` replacement patterns of `String.prototype.replace` are not modelled. The field list is inserted verbatim, as it is whenever field names contain no `$`.
- Capabilities are booleans, and a capability missing from the descriptor reads as false. A token that names a non-boolean descriptor property (such as `name`) is not modelled.
- The order of `for ... in` is taken to be the order of a record's entries. JavaScript's ordering of integer-like keys is not modelled.
- Records with repeated keys cannot occur in JavaScript. For them the model still follows property-assignment semantics (the copy) and first-entry reads (the lookup). The verbatim-copy lemmas ask for distinct keys.
- Every result record carries `attributes.type`. The crash of `exportResults` on a record without `attributes` is not modelled.
- The copy of `getFieldListFromResult` in genquery.ts (74-83) is not modelled on its own: its `run` never calls it, and it is identical to the shared `SObjects.GetFieldListFromResult`.
- Regular expressions in general are not modelled. Only the specific pattern `/from ([a-zA-Z0-9_]*)/i` is scanned for, with ASCII case folding.
