/**
 * Labelling evidence by position goes wrong whenever the query list and the
 * result dict do not line up one to one. The internet dict drops every
 * question whose search failed, and the alumni dict holds a repeated query
 * once; the formatters below label each dict value by its own key instead.
 */
module EvidenceFindings {
  import opened Dicts
  import opened Text
  import opened Fusion
  import opened InternetSearch
  import opened EvidenceFormat

  /**
   * As written: when the first of two searches fails, the second question's
   * answer is printed under the first question.
   */
  lemma InternetMislabel()
    ensures InternetResults([("q1", Raised("timeout")), ("q2", Answered("a2"))]) == [("q2", "a2")]
    ensures InternetText([("q2", "a2")], ["q1", "q2"]) == "Query: q1\nResult: a2"
  {
    var searches := [("q1", Raised("timeout")), ("q2", Answered("a2"))];
    assert searches[..1][..0] == [];
    assert Collected(searches[..1]) == [];
    assert Collected(searches) == [("q2", "a2")];
    var pairs := [("q2", "a2")];
    assert pairs[..0] == [];
    assert Zip(["q1", "q2"], Values(pairs)) == [("q1", "a2")];
  }

  /**
   * As written: with the query list `[a, a, b]` the alumni dict has the keys
   * `a` and `b`, and the results of `b` are printed under `a` (the text is
   * these lines joined by newlines).
   */
  lemma AlumniMislabel()
    ensures AlumniLines(Zip(["a", "a", "b"], Values([("a", ["x"]), ("b", ["y"])]))) ==
      [QueryLine("a"), ResultLine("x"), QueryLine("a"), ResultLine("y")]
  {
    var profiles := [("a", ["x"]), ("b", ["y"])];
    var pairs := [("a", ["x"]), ("a", ["y"])];
    assert Values(profiles) == [["x"], ["y"]];
    assert Zip(["a", "a", "b"], Values(profiles)) == pairs;
    MislabelledLines();
  }

  lemma MislabelledLines()
    ensures AlumniLines([("a", ["x"]), ("a", ["y"])]) == [QueryLine("a"), ResultLine("x"), QueryLine("a"), ResultLine("y")]
  {
    var pairs := [("a", ["x"]), ("a", ["y"])];
    assert pairs[..1] == [("a", ["x"])] && pairs[..1][..0] == [];
    assert ResultLines(["x"]) == [ResultLine("x")];
    assert ResultLines(["y"]) == [ResultLine("y")];
    assert AlumniLines(pairs[..1]) == [QueryLine("a"), ResultLine("x")];
  }

  /** Corrected: the internet evidence labels every answer with the dict's own question. */
  function InternetTextByKey(internetResults: seq<(string, string)>): string {
    Join(InternetBlocks(internetResults), "\n\n")
  }

  /** Corrected `_format_internet_results`: one block per dict item. */
  method FormatInternetResultsByKey(internetResults: seq<(string, string)>) returns (text: string)
    ensures text == InternetTextByKey(internetResults)
  {
    var formattedResults: seq<string> := [];
    var i := 0;
    while i < |internetResults|
      invariant i <= |internetResults|
      invariant formattedResults == InternetBlocks(internetResults[..i])
    {
      var (question, answer) := internetResults[i];
      formattedResults := formattedResults + [InternetBlock(question, answer)];
      i := i + 1;
    }
    assert internetResults[..i] == internetResults;
    text := Join(formattedResults, "\n\n");
  }

  /**
   * Every answered question gets one block, and each block shows a question
   * together with an answer its own search returned.
   */
  lemma InternetBlocksByKey(searches: seq<(string, QnaOutcome)>)
    ensures var insights := InternetResults(searches);
      var blocks := InternetBlocks(insights);
      |blocks| == |insights| &&
      forall i :: 0 <= i < |blocks| ==>
        exists j :: 0 <= j < |searches| && AnsweredAt(searches, j, insights[i].0) &&
          blocks[i] == InternetBlock(searches[j].0, searches[j].1.context)
  {
    var insights := InternetResults(searches);
    var blocks := InternetBlocks(insights);
    forall i | 0 <= i < |blocks|
      ensures exists j :: (0 <= j < |searches| && AnsweredAt(searches, j, insights[i].0) &&
        blocks[i] == InternetBlock(searches[j].0, searches[j].1.context))
    {
      GetMember(insights, i);
      InternetResultsGet(searches, insights[i].0);
    }
  }

  /** Corrected: the alumni evidence labels every result list with the dict's own query. */
  function AlumniTextByKey(alumniProfiles: seq<(string, seq<string>)>): string {
    Join(AlumniLines(alumniProfiles), "\n")
  }

  /**
   * Over the dict `perform_searches` returns, the corrected alumni evidence is
   * labelled by every distinct searched query once, in order of first
   * appearance, however often a query was repeated.
   */
  lemma AlumniLabelsByKey(results: seq<(RunKey, seq<Node>)>)
    ensures Labels(AlumniLines(SearchResults(results))) == QueryLines(Dedup(QueriesOf(results)))
  {
    AlumniLabels(SearchResults(results));
    SearchResultsOf(results, "");
  }
}
