/**
 * The two evidence formatters of the recommendation agent. Both walk
 * `zip(queries, results.values())`: the i-th query labels the i-th dict
 * value, whatever the dict's keys are, and pairs beyond the shorter of the
 * two are dropped.
 */
module EvidenceFormat {
  import opened Text
  import opened Dicts

  /** Python's `zip(a, b)`: the positional pairs, as many as the shorter input has. */
  function Zip<A, B>(a: seq<A>, b: seq<B>): (r: seq<(A, B)>)
    ensures |r| == if |a| <= |b| then |a| else |b|
    ensures forall i :: 0 <= i < |r| ==> r[i] == (a[i], b[i])
  {
    var n := if |a| <= |b| then |a| else |b|;
    seq(n, i requires 0 <= i < n => (a[i], b[i]))
  }

  /** The pairs' labels are the first elements of the left-hand input. */
  lemma ZipKeys<A, B>(a: seq<A>, b: seq<B>)
    ensures Keys(Zip(a, b)) == a[..|Zip(a, b)|]
  {
  }

  // ---------------------------------------------------------------------
  // `_format_alumni_results`
  // ---------------------------------------------------------------------

  function QueryLine(query: string): string {
    "Query: " + query
  }

  function ResultLine(result: string): string {
    "  - " + result
  }

  /** The `"  - r"` line of every result, in order. */
  function ResultLines(results: seq<string>): (lines: seq<string>)
    ensures |lines| == |results|
    ensures forall i :: 0 <= i < |results| ==> lines[i] == ResultLine(results[i])
  {
    seq(|results|, i requires 0 <= i < |results| => ResultLine(results[i]))
  }

  /** `formatted_results` after the first `|pairs|` pairs: a query line, then its result lines. */
  function AlumniLines(pairs: seq<(string, seq<string>)>): seq<string>
    decreases |pairs|
  {
    if pairs == [] then []
    else
      var n := |pairs| - 1;
      AlumniLines(pairs[..n]) + [QueryLine(pairs[n].0)] + ResultLines(pairs[n].1)
  }

  /** What `_format_alumni_results(alumni_profiles, queries)` returns. */
  function AlumniText(alumniProfiles: seq<(string, seq<string>)>, queries: seq<string>): string {
    Join(AlumniLines(Zip(queries, Values(alumniProfiles))), "\n")
  }

  /** `_format_alumni_results`: one query line and one line per result, for each positional pair. */
  method FormatAlumniResults(alumniProfiles: seq<(string, seq<string>)>, queries: seq<string>)
    returns (text: string)
    ensures text == AlumniText(alumniProfiles, queries)
  {
    var pairs := Zip(queries, Values(alumniProfiles));
    var formattedResults: seq<string> := [];
    var i := 0;
    while i < |pairs|
      invariant i <= |pairs|
      invariant formattedResults == AlumniLines(pairs[..i])
    {
      var (query, results) := pairs[i];
      formattedResults := formattedResults + [QueryLine(query)];
      var j := 0;
      while j < |results|
        invariant j <= |results|
        invariant formattedResults == AlumniLines(pairs[..i]) + [QueryLine(query)] + ResultLines(results[..j])
      {
        formattedResults := formattedResults + [ResultLine(results[j])];
        j := j + 1;
      }
      assert results[..j] == results;
      assert pairs[..i + 1][..i] == pairs[..i];
      i := i + 1;
    }
    assert pairs[..i] == pairs;
    text := Join(formattedResults, "\n");
  }

  /** A line that begins with `"Query: "`: a label line. */
  predicate IsLabel(line: string) {
    |line| >= 7 && line[..7] == "Query: "
  }

  /** The label lines among `lines`, in order. */
  function Labels(lines: seq<string>): seq<string>
    decreases |lines|
  {
    if lines == [] then []
    else (if IsLabel(lines[0]) then [lines[0]] else []) + Labels(lines[1..])
  }

  /** The query line of every query, in order. */
  function QueryLines(queries: seq<string>): (lines: seq<string>)
    ensures |lines| == |queries|
    ensures forall i :: 0 <= i < |queries| ==> lines[i] == QueryLine(queries[i])
  {
    seq(|queries|, i requires 0 <= i < |queries| => QueryLine(queries[i]))
  }

  lemma {:induction false} LabelsAppend(a: seq<string>, b: seq<string>)
    ensures Labels(a + b) == Labels(a) + Labels(b)
    decreases |a|
  {
    if a == [] {
      assert a + b == b;
    } else {
      assert (a + b)[1..] == a[1..] + b;
      LabelsAppend(a[1..], b);
    }
  }

  /** A result line is never taken for a label. */
  lemma {:induction false} ResultLinesUnlabelled(results: seq<string>)
    ensures Labels(ResultLines(results)) == []
    decreases |results|
  {
    if results != [] {
      var lines := ResultLines(results);
      assert lines[0][0] == ' ';
      assert lines[1..] == ResultLines(results[1..]);
      ResultLinesUnlabelled(results[1..]);
    }
  }

  /** The lines of one pair hold exactly one label: its query line. */
  lemma PairLabels(query: string, results: seq<string>)
    ensures Labels([QueryLine(query)] + ResultLines(results)) == [QueryLine(query)]
  {
    var lines := [QueryLine(query)] + ResultLines(results);
    assert lines[1..] == ResultLines(results);
    ResultLinesUnlabelled(results);
    assert IsLabel(lines[0]) by {
      assert QueryLine(query)[..7] == "Query: ";
    }
  }

  /** The query lines of a list with one more query. */
  lemma QueryLinesSnoc(queries: seq<string>, query: string)
    ensures QueryLines(queries + [query]) == QueryLines(queries) + [QueryLine(query)]
  {
  }

  /** The label lines are the query lines of the pairs' own labels, in pair order. */
  lemma {:induction false} AlumniLabels(pairs: seq<(string, seq<string>)>)
    ensures Labels(AlumniLines(pairs)) == QueryLines(Keys(pairs))
    decreases |pairs|
  {
    if pairs != [] {
      var n := |pairs| - 1;
      var init := pairs[..n];
      var tail := [QueryLine(pairs[n].0)] + ResultLines(pairs[n].1);
      AlumniLabels(init);
      assert AlumniLines(pairs) == AlumniLines(init) + tail;
      LabelsAppend(AlumniLines(init), tail);
      PairLabels(pairs[n].0, pairs[n].1);
      KeysPrefix(pairs, n);
      assert Keys(pairs) == Keys(init) + [pairs[n].0];
      QueryLinesSnoc(Keys(init), pairs[n].0);
    }
  }

  /**
   * The alumni evidence is labelled by the first `min(|queries|, |profiles|)`
   * queries, in order, and never by the dict's keys.
   */
  lemma AlumniLabelledByPosition(alumniProfiles: seq<(string, seq<string>)>, queries: seq<string>)
    ensures var m := if |queries| <= |alumniProfiles| then |queries| else |alumniProfiles|;
      Labels(AlumniLines(Zip(queries, Values(alumniProfiles)))) == QueryLines(queries[..m])
  {
    var pairs := Zip(queries, Values(alumniProfiles));
    AlumniLabels(pairs);
    ZipKeys(queries, Values(alumniProfiles));
  }

  /** The number of lines the pairs give: one per query plus one per result. */
  function LineCount(pairs: seq<(string, seq<string>)>): nat
    decreases |pairs|
  {
    if pairs == [] then 0 else LineCount(pairs[..|pairs| - 1]) + 1 + |pairs[|pairs| - 1].1|
  }

  lemma {:induction false} AlumniLinesCount(pairs: seq<(string, seq<string>)>)
    ensures |AlumniLines(pairs)| == LineCount(pairs)
    decreases |pairs|
  {
    if pairs != [] {
      AlumniLinesCount(pairs[..|pairs| - 1]);
    }
  }

  /** No query and no result of the pairs contains a newline. */
  predicate SingleLine(pairs: seq<(string, seq<string>)>) {
    forall i :: 0 <= i < |pairs| ==>
      '\n' !in pairs[i].0 && forall j :: 0 <= j < |pairs[i].1| ==> '\n' !in pairs[i].1[j]
  }

  lemma {:induction false} AlumniLinesSingle(pairs: seq<(string, seq<string>)>)
    requires SingleLine(pairs)
    ensures forall k :: 0 <= k < |AlumniLines(pairs)| ==> '\n' !in AlumniLines(pairs)[k]
    decreases |pairs|
  {
    if pairs != [] {
      var n := |pairs| - 1;
      assert SingleLine(pairs[..n]) by {
        forall i | 0 <= i < n ensures pairs[..n][i] == pairs[i] { }
      }
      AlumniLinesSingle(pairs[..n]);
      var rs := pairs[n].1;
      assert '\n' !in QueryLine(pairs[n].0);
      forall j | 0 <= j < |rs| ensures '\n' !in ResultLine(rs[j]) {
        assert '\n' !in rs[j];
      }
    }
  }

  /**
   * When no query or result spans lines, the alumni evidence has exactly
   * `sum(1 + len(results))` lines over the positional pairs, and splitting
   * it on newlines gives back the formatted lines.
   */
  lemma AlumniLineSplit(alumniProfiles: seq<(string, seq<string>)>, queries: seq<string>)
    requires Zip(queries, Values(alumniProfiles)) != []
    requires SingleLine(Zip(queries, Values(alumniProfiles)))
    ensures Split(AlumniText(alumniProfiles, queries), "\n") == AlumniLines(Zip(queries, Values(alumniProfiles)))
    ensures |Split(AlumniText(alumniProfiles, queries), "\n")| == LineCount(Zip(queries, Values(alumniProfiles)))
  {
    var pairs := Zip(queries, Values(alumniProfiles));
    var lines := AlumniLines(pairs);
    AlumniLinesCount(pairs);
    AlumniLinesSingle(pairs);
    assert lines != [];
    SplitJoinChar(lines, '\n');
  }

  // ---------------------------------------------------------------------
  // `_format_internet_results`
  // ---------------------------------------------------------------------

  function InternetBlock(query: string, result: string): string {
    "Query: " + query + "\nResult: " + result
  }

  /** The block of every pair, in order. */
  function InternetBlocks(pairs: seq<(string, string)>): (blocks: seq<string>)
    ensures |blocks| == |pairs|
    ensures forall i :: 0 <= i < |pairs| ==> blocks[i] == InternetBlock(pairs[i].0, pairs[i].1)
  {
    seq(|pairs|, i requires 0 <= i < |pairs| => InternetBlock(pairs[i].0, pairs[i].1))
  }

  /** What `_format_internet_results(internet_results, queries)` returns. */
  function InternetText(internetResults: seq<(string, string)>, queries: seq<string>): string {
    Join(InternetBlocks(Zip(queries, Values(internetResults))), "\n\n")
  }

  /** `_format_internet_results`: one `Query/Result` block per positional pair. */
  method FormatInternetResults(internetResults: seq<(string, string)>, queries: seq<string>)
    returns (text: string)
    ensures text == InternetText(internetResults, queries)
  {
    var pairs := Zip(queries, Values(internetResults));
    var formattedResults: seq<string> := [];
    var i := 0;
    while i < |pairs|
      invariant i <= |pairs|
      invariant formattedResults == InternetBlocks(pairs[..i])
    {
      var (query, result) := pairs[i];
      formattedResults := formattedResults + [InternetBlock(query, result)];
      i := i + 1;
    }
    assert pairs[..i] == pairs;
    text := Join(formattedResults, "\n\n");
  }

  /** The internet evidence is empty exactly when there is no positional pair. */
  lemma InternetTextEmpty(internetResults: seq<(string, string)>, queries: seq<string>)
    ensures InternetText(internetResults, queries) == "" <==> queries == [] || internetResults == []
  {
    var blocks := InternetBlocks(Zip(queries, Values(internetResults)));
    if blocks != [] {
      JoinNonEmpty(blocks, "\n\n");
    }
  }
}
