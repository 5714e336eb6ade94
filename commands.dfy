/**
 * What a command run produces: the query it sent, the records the query
 * API returned, what it logged, and the remote calls it made, in order.
 * The describe and query calls themselves are inputs of each run.
 */
module Commands {
  import opened SObjects
  import opened TreeExport

  /** The logged output: rendered text, or the structured tree export. */
  datatype Rendered = TextOut(text: string) | TreeOut(records: seq<TreeRecord>)

  /** A call to the org: a describe of an object type, or the execution of a query. */
  datatype RemoteCall = Describe(objectType: string) | Execute(query: string)

  /** A successful run of a querying command. */
  datatype Outcome = Outcome(query: string, results: seq<Record>, logged: Rendered, calls: seq<RemoteCall>)

  /** A successful run of the query generator: the query it returns and the line it logs. */
  datatype Generated = Generated(query: string, logged: string, calls: seq<RemoteCall>)
}
