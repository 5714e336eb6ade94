/**
 * The wildcard expansion every command runs first: match the pattern
 * `/from ([a-zA-Z0-9_]*)/i`, fail on a query without it, and when the
 * query contains a `*` replace the first `*` with the field list resolved
 * for the captured object type.
 */
module QueryExpansion {
  import opened Wrappers
  import opened JsText

  /** The error a command throws for a query without a `from` clause; it carries the query. */
  datatype QueryError = MalformedQuery(query: string)

  /** A character of the class `[a-zA-Z0-9_]`. */
  predicate IsIdentChar(c: char)
  {
    'a' <= c <= 'z' || 'A' <= c <= 'Z' || '0' <= c <= '9' || c == '_'
  }

  /** Folding of ASCII upper case to lower case, which is all the `i` flag does for these characters. */
  function LowerAscii(c: char): (lower: char)
  {
    if 'A' <= c <= 'Z' then (c as int + 32) as char else c
  }

  /** The literal `from ` starts at `p`, letters in any case, followed by exactly one space. */
  predicate FromAt(q: string, p: nat)
  {
    p + 5 <= |q|
    && LowerAscii(q[p]) == 'f' && LowerAscii(q[p + 1]) == 'r'
    && LowerAscii(q[p + 2]) == 'o' && LowerAscii(q[p + 3]) == 'm'
    && q[p + 4] == ' '
  }

  /** `t` is the longest run of identifier characters starting at `i` (possibly empty). */
  predicate IsMaximalIdentRun(q: string, i: nat, t: string)
  {
    i + |t| <= |q|
    && q[i..i + |t|] == t
    && (forall k :: 0 <= k < |t| ==> IsIdentChar(t[k]))
    && (i + |t| == |q| || !IsIdentChar(q[i + |t|]))
  }

  /** The leftmost position at or after `p` where `from ` starts. */
  function ScanFrom(q: string, p: nat): (r: Option<nat>)
    requires p <= |q|
    ensures r.Some? ==> p <= r.value && FromAt(q, r.value)
    ensures r.Some? ==> forall p': nat :: p <= p' < r.value ==> !FromAt(q, p')
    ensures r.None? ==> forall p': nat :: p <= p' ==> !FromAt(q, p')
    decreases |q| - p
  {
    if p + 5 > |q| then None
    else if FromAt(q, p) then Some(p)
    else ScanFrom(q, p + 1)
  }

  /** The end of the run of identifier characters that starts at `i`. */
  function IdentEnd(q: string, i: nat): (e: nat)
    requires i <= |q|
    ensures i <= e <= |q|
    ensures forall k :: i <= k < e ==> IsIdentChar(q[k])
    ensures e == |q| || !IsIdentChar(q[e])
    decreases |q| - i
  {
    if i == |q| || !IsIdentChar(q[i]) then i else IdentEnd(q, i + 1)
  }

  /** A successful match: where `from ` starts, and capture group 1. */
  datatype FromClause = FromClause(at: nat, objectType: string)

  /**
   * `query.match(/from ([a-zA-Z0-9_]*)/i)`: the first case-insensitive
   * `from `, and the greedy, possibly empty, identifier run after it.
   */
  function MatchFrom(q: string): (m: Option<FromClause>)
    ensures m.None? <==> forall p: nat :: !FromAt(q, p)
    ensures m.Some? ==> FromAt(q, m.value.at)
    ensures m.Some? ==> forall p: nat :: p < m.value.at ==> !FromAt(q, p)
    ensures m.Some? ==> IsMaximalIdentRun(q, m.value.at + 5, m.value.objectType)
  {
    match ScanFrom(q, 0)
    case None => None
    case Some(p) =>
      var e := IdentEnd(q, p + 5);
      Some(FromClause(p, q[p + 5..e]))
  }

  /** The captured run is determined by where it starts: the characterisation is exact. */
  lemma MaximalIdentRunUnique(q: string, i: nat, t1: string, t2: string)
    requires IsMaximalIdentRun(q, i, t1) && IsMaximalIdentRun(q, i, t2)
    ensures t1 == t2
  {
    IdentEndOfRun(q, i, |t1|);
    IdentEndOfRun(q, i, |t2|);
  }

  /** A maximal run starting at `i` ends where IdentEnd says. */
  lemma {:induction false} IdentEndOfRun(q: string, i: nat, n: nat)
    requires i + n <= |q|
    requires forall k :: i <= k < i + n ==> IsIdentChar(q[k])
    requires i + n == |q| || !IsIdentChar(q[i + n])
    ensures IdentEnd(q, i) == i + n
    decreases n
  {
    if n > 0 {
      IdentEndOfRun(q, i + 1, n - 1);
    }
  }

  /**
   * The expansion step of `run`. `resolve` stands for the field resolver
   * applied to the object type (one describe call and the capability
   * filter); it is only consulted when the query contains a `*`.
   */
  function Expand(query: string, resolve: string -> string): (r: Result<string, QueryError>)
    ensures r.Failure? <==> forall p: nat :: !FromAt(query, p)
    ensures r.Failure? ==> r.error == MalformedQuery(query)
    ensures r.Success? && '*' !in query ==> r.value == query
    ensures r.Success? && '*' in query ==>
              var k := IndexOf(query, '*');
              r.value == query[..k] + resolve(MatchFrom(query).value.objectType) + query[k + 1..]
  {
    var matches := MatchFrom(query);
    if matches.None? then Failure(MalformedQuery(query))
    else if IndexOf(query, '*') > -1 then
      Success(ReplaceFirst(query, '*', resolve(matches.value.objectType)))
    else Success(query)
  }

  /** A `*` that resolves to nothing is removed: the query is the text around it. */
  lemma ExpandWithEmptyResolution(query: string, resolve: string -> string)
    requires '*' in query && MatchFrom(query).Some?
    requires resolve(MatchFrom(query).value.objectType) == ""
    ensures var k := IndexOf(query, '*');
            Expand(query, resolve) == Success(query[..k] + query[k + 1..])
  {
    var k := IndexOf(query, '*');
    EmptyMiddle(query[..k], query[k + 1..]);
  }

  /** Replacing by the empty string is removing. */
  lemma EmptyMiddle(a: string, b: string)
    ensures a + "" + b == a + b
  {
    assert a + "" == a;
  }

  /** Without a `*` the schema is never consulted: any two resolvers give the same outcome. */
  lemma ExpandWithoutWildcardIgnoresSchema(query: string, resolve1: string -> string, resolve2: string -> string)
    requires '*' !in query
    ensures Expand(query, resolve1) == Expand(query, resolve2)
    ensures Expand(query, resolve1).Success? ==> Expand(query, resolve1).value == query
  {
  }

  /**
   * Only the first `*` is replaced: the text before it contains no `*`,
   * and everything after it, later `*` characters included, is kept as it was.
   */
  lemma {:induction false} ExpandKeepsLaterWildcards(query: string, resolve: string -> string)
    requires Expand(query, resolve).Success? && '*' in query
    ensures var k := IndexOf(query, '*');
            var fields := resolve(MatchFrom(query).value.objectType);
            var out := Expand(query, resolve).value;
            && out[..k] == query[..k] && '*' !in out[..k]
            && out[k..k + |fields|] == fields
            && out[k + |fields|..] == query[k + 1..]
            && |out| == |query| - 1 + |fields|
  {
    var k := IndexOf(query, '*');
    var fields := resolve(MatchFrom(query).value.objectType);
    var out := Expand(query, resolve).value;
    assert out == query[..k] + fields + query[k + 1..];
    assert out[..k] == query[..k];
    assert out[k..k + |fields|] == fields;
    assert out[k + |fields|..] == query[k + 1..];
  }

  /**
   * A query whose text before `from ` holds no `f` in either case matches at
   * the end of that text and captures the identifier run that follows.
   */
  lemma MatchFromAfter(pre: string, kw: string, t: string, post: string)
    requires 'f' !in pre && 'F' !in pre
    requires |kw| == 5 && FromAt(kw, 0)
    requires forall k :: 0 <= k < |t| ==> IsIdentChar(t[k])
    requires |post| == 0 || !IsIdentChar(post[0])
    ensures MatchFrom(pre + kw + t + post) == Some(FromClause(|pre|, t))
  {
    KeywordAt(pre, kw, t, post);
    NoFromInPrefix(pre, kw, t, post);
    RunAfter(pre + kw, t, post);
    MatchAt(pre + kw + t + post, |pre|, t);
  }

  /** The match is pinned down by the first keyword position and the run after it. */
  lemma MatchAt(q: string, i: nat, t: string)
    requires FromAt(q, i)
    requires forall p: nat :: p < i ==> !FromAt(q, p)
    requires IsMaximalIdentRun(q, i + 5, t)
    ensures MatchFrom(q) == Some(FromClause(i, t))
  {
    var m := MatchFrom(q);
    assert m.value.at == i;
    MaximalIdentRunUnique(q, i + 5, t, m.value.objectType);
  }

  lemma KeywordAt(pre: string, kw: string, t: string, post: string)
    requires |kw| == 5 && FromAt(kw, 0)
    ensures FromAt(pre + kw + t + post, |pre|)
  {
    var q := pre + kw + t + post;
    forall k | 0 <= k < 5 ensures q[|pre| + k] == kw[k] { }
  }

  lemma NoFromInPrefix(pre: string, kw: string, t: string, post: string)
    requires 'f' !in pre && 'F' !in pre
    ensures forall p: nat :: p < |pre| ==> !FromAt(pre + kw + t + post, p)
  {
    var q := pre + kw + t + post;
    forall p: nat | p < |pre| ensures !FromAt(q, p) {
      assert q[p] == pre[p];
    }
  }

  lemma RunAfter(x: string, t: string, post: string)
    requires forall k :: 0 <= k < |t| ==> IsIdentChar(t[k])
    requires |post| == 0 || !IsIdentChar(post[0])
    ensures IsMaximalIdentRun(x + t + post, |x|, t)
  {
    var q := x + t + post;
    assert q[|x|..|x| + |t|] == t;
    if |post| > 0 {
      assert q[|x| + |t|] == post[0];
    }
  }

  /** A query with no `f` in either case has no `from ` clause. */
  lemma NoFromWithoutF(q: string)
    requires 'f' !in q && 'F' !in q
    ensures MatchFrom(q).None?
  {
    forall p: nat | p + 5 <= |q| ensures !FromAt(q, p) {
      assert q[p] in q;
    }
  }

  lemma AccountIsIdentifier()
    ensures forall k :: 0 <= k < |"Account"| ==> IsIdentChar("Account"[k])
  {
  }

  lemma AccountQueryParts()
    ensures "select *, * from Account" == "select *, * " + "from " + "Account" + ""
    ensures "select *, * from Account" == "select " + "*" + ", * from Account"
    ensures 'f' !in "select *, * " && 'F' !in "select *, * "
  {
  }

  lemma AccountWildcardIndex()
    ensures IndexOf("select *, * from Account", '*') == 7
  {
    AccountQueryParts();
    IndexOfAfterPrefix("select ", '*', ", * from Account");
  }

  lemma AccountQuerySlices()
    ensures "select *, * from Account"[..7] == "select "
    ensures "select *, * from Account"[8..] == ", * from Account"
  {
    AccountQueryParts();
  }

  /** `select *, * from Account`: the object type is `Account`. */
  lemma ExampleObjectType()
    ensures MatchFrom("select *, * from Account") == Some(FromClause(12, "Account"))
  {
    AccountQueryParts();
    AccountIsIdentifier();
    MatchFromAfter("select *, * ", "from ", "Account", "");
  }

  /** `select *, * from Account`: only the first wildcard is replaced. */
  lemma ExampleFirstWildcardOnly(resolve: string -> string)
    ensures Expand("select *, * from Account", resolve)
         == Success("select " + resolve("Account") + ", * from Account")
  {
    ExampleObjectType();
    AccountWildcardIndex();
    AccountQuerySlices();
  }

  /** `select * Account` has no `from ` and is rejected with its own text. */
  lemma ExampleMalformed(resolve: string -> string)
    ensures Expand("select * Account", resolve) == Failure(MalformedQuery("select * Account"))
  {
    assert 'f' !in "select * Account" && 'F' !in "select * Account";
    NoFromWithoutF("select * Account");
  }

  lemma UpperCaseQueryParts()
    ensures "SELECT Id FROM Lead" == "SELECT Id " + "FROM " + "Lead" + ""
    ensures 'f' !in "SELECT Id " && 'F' !in "SELECT Id "
    ensures FromAt("FROM ", 0)
    ensures forall k :: 0 <= k < |"Lead"| ==> IsIdentChar("Lead"[k])
  {
  }

  /** The keyword matches in any letter case. */
  lemma ExampleUpperCaseKeyword()
    ensures MatchFrom("SELECT Id FROM Lead") == Some(FromClause(10, "Lead"))
  {
    UpperCaseQueryParts();
    MatchFromAfter("SELECT Id ", "FROM ", "Lead", "");
  }

  lemma GluedQueryParts()
    ensures "selectfrom x" == "select" + "from " + "x" + ""
    ensures 'f' !in "select" && 'F' !in "select"
    ensures FromAt("from ", 0)
    ensures forall k :: 0 <= k < |"x"| ==> IsIdentChar("x"[k])
  {
  }

  /** There is no word-boundary test before `from`. */
  lemma ExampleNoWordBoundary()
    ensures MatchFrom("selectfrom x") == Some(FromClause(6, "x"))
  {
    GluedQueryParts();
    MatchFromAfter("select", "from ", "x", "");
  }

  lemma EmptyRunQueryParts()
    ensures "select Id from (x)" == "select Id " + "from " + "" + "(x)"
    ensures 'f' !in "select Id " && 'F' !in "select Id "
    ensures FromAt("from ", 0)
    ensures !IsIdentChar("(x)"[0])
  {
  }

  /** The captured object type may be empty; the match still succeeds. */
  lemma ExampleEmptyObjectType()
    ensures MatchFrom("select Id from (x)") == Some(FromClause(10, ""))
  {
    EmptyRunQueryParts();
    MatchFromAfter("select Id ", "from ", "", "(x)");
  }
}
