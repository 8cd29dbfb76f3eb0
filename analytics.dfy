/**
 * The analytics batch: split the SQL file into statements, run each one,
 * record its row and column counts under the name `query<i>`, and count the
 * queries in the summary. Running a statement is a parameter `execute`;
 * CSV export, timings and the JSON file are outside the model.
 */
module Analytics {
  import opened Text

  // -----------------------------------------------------------------------
  // Decimal numerals, for the names query1, query2, ...

  function DigitChar(d: nat): (c: char)
    requires d < 10
    ensures IsDigit(c)
  {
    ('0' as int + d) as char
  }

  function DigitValue(c: char): nat
    requires IsDigit(c)
  {
    c as int - '0' as int
  }

  /** A natural number written in decimal, without leading zeros. */
  function Decimal(n: nat): (s: string)
    ensures |s| >= 1
    ensures forall k :: 0 <= k < |s| ==> IsDigit(s[k])
    ensures n < 10 ==> |s| == 1
    ensures n >= 10 ==> s[0] != '0'
    decreases n
  {
    if n < 10 then [DigitChar(n)] else Decimal(n / 10) + [DigitChar(n % 10)]
  }

  function ParseDecimal(s: string): nat
    requires forall k :: 0 <= k < |s| ==> IsDigit(s[k])
    decreases |s|
  {
    if s == [] then 0 else ParseDecimal(s[..|s| - 1]) * 10 + DigitValue(s[|s| - 1])
  }

  /** Reading the numeral back gives the number. */
  lemma {:induction false} ParseDecimalOfDecimal(n: nat)
    ensures ParseDecimal(Decimal(n)) == n
    decreases n
  {
    var s := Decimal(n);
    if n < 10 {
      assert s[..0] == [];
    } else {
      ParseDecimalOfDecimal(n / 10);
      assert s[..|s| - 1] == Decimal(n / 10);
    }
  }

  /** `f"query{i}"`. */
  function QueryName(i: nat): (name: string)
    ensures |name| > 5 && name[..5] == "query"
    ensures name[5..] == Decimal(i)
    ensures ParseDecimal(name[5..]) == i
    ensures i >= 10 ==> name[5] != '0'
  {
    ParseDecimalOfDecimal(i);
    "query" + Decimal(i)
  }

  /** Different numbers give different query names. */
  lemma QueryNameInjective(i: nat, j: nat)
    ensures QueryName(i) == QueryName(j) ==> i == j
  {
    assert Decimal(i) == QueryName(i)[5..];
    assert Decimal(j) == QueryName(j)[5..];
    ParseDecimalOfDecimal(i);
    ParseDecimalOfDecimal(j);
  }

  // -----------------------------------------------------------------------
  // The results dictionary

  /** What a query returned: the size of its frame. */
  datatype QueryOutput = QueryOutput(rows: nat, columns: nat)

  /** A dictionary in insertion order. */
  type Results = seq<(string, QueryOutput)>

  function Keys(d: Results): (ks: seq<string>)
    ensures |ks| == |d|
    ensures forall k :: 0 <= k < |d| ==> ks[k] == d[k].0
  {
    seq(|d|, k requires 0 <= k < |d| => d[k].0)
  }

  /** `d[key] = value`: overwrite in place when the key is present,
      otherwise append. */
  function Assign(d: Results, key: string, value: QueryOutput): Results
    decreases |d|
  {
    if d == [] then [(key, value)]
    else if d[0].0 == key then [(key, value)] + d[1..]
    else [d[0]] + Assign(d[1..], key, value)
  }

  lemma KeysCons(x: (string, QueryOutput), d: Results)
    ensures Keys([x] + d) == [x.0] + Keys(d)
  {
  }

  /** A new key is appended at the end. */
  lemma {:induction false} AssignNew(d: Results, key: string, value: QueryOutput)
    requires key !in Keys(d)
    ensures Assign(d, key, value) == d + [(key, value)]
    decreases |d|
  {
    if d != [] {
      KeysCons(d[0], d[1..]);
      assert [d[0]] + d[1..] == d;
      AssignNew(d[1..], key, value);
      assert [d[0]] + (d[1..] + [(key, value)]) == d + [(key, value)];
    }
  }

  /** Where a key first occurs in a list of keys. */
  function IndexOf(ks: seq<string>, key: string): (j: nat)
    requires key in ks
    ensures j < |ks| && ks[j] == key
    ensures forall k :: 0 <= k < j ==> ks[k] != key
    decreases |ks|
  {
    if ks[0] == key then 0
    else
      assert ks == [ks[0]] + ks[1..];
      1 + IndexOf(ks[1..], key)
  }

  /** A present key keeps its place and gets the new value: only the entry
      at the key's position is replaced. */
  lemma {:induction false} AssignExisting(d: Results, key: string, value: QueryOutput)
    requires key in Keys(d)
    ensures var j := IndexOf(Keys(d), key);
      Assign(d, key, value) == d[..j] + [(key, value)] + d[j + 1..]
    decreases |d|
  {
    assert Keys(d)[0] == d[0].0;
    if d[0].0 != key {
      IndexOfTail(d, key);
      AssignExisting(d[1..], key, value);
      AssignSkip(d, key, value, IndexOf(Keys(d[1..]), key));
    }
  }

  /** Past a first entry with another key, the key's position moves by one. */
  lemma IndexOfTail(d: Results, key: string)
    requires key in Keys(d) && d[0].0 != key
    ensures key in Keys(d[1..])
    ensures IndexOf(Keys(d), key) == 1 + IndexOf(Keys(d[1..]), key)
  {
    var ks := Keys(d);
    assert ks[1..] == Keys(d[1..]);
    assert ks == [ks[0]] + ks[1..];
  }

  /** Assigning past a first entry with another key keeps that entry. */
  lemma AssignSkip(d: Results, key: string, value: QueryOutput, j: nat)
    requires d != [] && d[0].0 != key && j < |d| - 1
    requires Assign(d[1..], key, value) == d[1..][..j] + [(key, value)] + d[1..][j + 1..]
    ensures Assign(d, key, value) == d[..j + 1] + [(key, value)] + d[j + 2..]
  {
    var rest := d[1..];
    assert Assign(d, key, value) == [d[0]] + Assign(rest, key, value);
    assert d[..j + 1] == [d[0]] + rest[..j];
    assert d[j + 2..] == rest[j + 1..];
  }

  datatype Summary = Summary(queriesExecuted: nat, queryResults: Results)

  /** `generate_summary`: the number of entries and the entries. */
  function GenerateSummary(results: Results): (s: Summary)
    ensures s.queriesExecuted == |results| && s.queryResults == results
  {
    Summary(|results|, results)
  }

  /** The results the loop builds from the first queries. */
  ghost predicate NamedInOrder(results: Results, queries: seq<string>, execute: string -> QueryOutput) {
    |results| == |queries|
    && forall k :: 0 <= k < |results| ==> results[k] == (QueryName(k + 1), execute(queries[k]))
  }

  /** `main`: run every statement of the SQL text in order. */
  method RunAnalytics(sqlText: string, execute: string -> QueryOutput) returns (summary: Summary)
    ensures var queries := SplitQueries(sqlText);
      && NamedInOrder(summary.queryResults, queries, execute)
      && summary.queriesExecuted == |queries|
  {
    var queries := SplitQueries(sqlText);
    var results: Results := [];
    var i := 0;
    while i < |queries|
      invariant 0 <= i <= |queries|
      invariant NamedInOrder(results, queries[..i], execute)
    {
      var name := QueryName(i + 1);
      NameIsNew(results, queries[..i], execute);
      NamedStep(results, queries, i, execute);
      AssignNew(results, name, execute(queries[i]));
      results := Assign(results, name, execute(queries[i]));
      i := i + 1;
    }
    assert queries[..i] == queries;
    summary := GenerateSummary(results);
  }

  /** The name of the next query is not yet a key. */
  lemma NameIsNew(results: Results, queries: seq<string>, execute: string -> QueryOutput)
    requires NamedInOrder(results, queries, execute)
    ensures QueryName(|queries| + 1) !in Keys(results)
  {
    forall k | 0 <= k < |results| ensures Keys(results)[k] != QueryName(|queries| + 1) {
      QueryNameInjective(k + 1, |queries| + 1);
    }
  }

  /** Appending the next query's entry extends the loop's invariant. */
  lemma NamedStep(results: Results, queries: seq<string>, i: nat, execute: string -> QueryOutput)
    requires i < |queries| && NamedInOrder(results, queries[..i], execute)
    ensures NamedInOrder(results + [(QueryName(i + 1), execute(queries[i]))], queries[..i + 1], execute)
  {
    var r := results + [(QueryName(i + 1), execute(queries[i]))];
    assert forall k :: 0 <= k < i ==> r[k] == results[k] && queries[..i + 1][k] == queries[..i][k];
  }

  /** The result names are pairwise different, so the dictionary holds one
      entry per query. */
  lemma NamesDistinct(results: Results, queries: seq<string>, execute: string -> QueryOutput)
    requires NamedInOrder(results, queries, execute)
    ensures forall a, b :: 0 <= a < b < |results| ==> results[a].0 != results[b].0
  {
    forall a, b | 0 <= a < b < |results| ensures results[a].0 != results[b].0 {
      QueryNameInjective(a + 1, b + 1);
    }
  }

  /** Splitting inverts joining: a file of statements separated by ';',
      each already stripped and non-empty, gives back exactly those
      statements, in order. */
  lemma SplitQueriesOfJoin(qs: seq<string>)
    requires qs != []
    requires forall k :: 0 <= k < |qs| ==> qs[k] != "" && IsStripped(qs[k]) && ';' !in qs[k]
    ensures SplitQueries(Join(qs)) == qs
  {
    SplitJoinStatements(qs);
  }

  lemma {:induction false} SplitJoinStatements(qs: seq<string>)
    requires forall k :: 0 <= k < |qs| ==> qs[k] != "" && IsStripped(qs[k]) && ';' !in qs[k]
    ensures qs != [] ==> NonBlankStripped(Split(Join(qs))) == qs
    decreases |qs|
  {
    if |qs| > 1 {
      var rest := Join(qs[1..]);
      SplitJoinStatements(qs[1..]);
      assert NonBlankStripped(Split(rest)) == qs[1..];
      SplitSeparated(qs[0], rest);
      assert Join(qs) == qs[0] + ";" + rest;
      NonBlankStrippedAppend([qs[0]], Split(rest));
      StripStripped(qs[0]);
      NonBlankStrippedSingle(qs[0]);
      assert NonBlankStripped([qs[0]]) == [qs[0]];
      assert [qs[0]] + qs[1..] == qs;
    } else if |qs| == 1 {
      SplitNoSep(qs[0]);
      NonBlankStrippedSingle(qs[0]);
      StripStripped(qs[0]);
    }
  }

  lemma {:induction false} SplitNoSep(s: string)
    requires ';' !in s
    ensures Split(s) == [s]
  {
    if s != [] {
      assert forall c :: c in s[1..] ==> c in s;
      SplitNoSep(s[1..]);
      assert [s[0]] + s[1..] == s;
    }
  }

  lemma {:induction false} SplitSeparated(a: string, b: string)
    requires ';' !in a
    ensures Split(a + ";" + b) == [a] + Split(b)
    decreases |a|
  {
    if a == [] {
      assert a + ";" + b == [';'] + b;
      assert ([';'] + b)[1..] == b;
    } else {
      assert (a + ";" + b)[1..] == a[1..] + ";" + b;
      SplitSeparated(a[1..], b);
      assert [a[0]] + a[1..] == a;
    }
  }
}
