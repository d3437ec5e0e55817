/**
 * `perform_internet_searches`: every question is sent to the question-answer
 * search after a staggered delay, failed or empty answers are dropped, and
 * the rest become a question -> answer dict.
 */
module InternetSearch {
  import opened Wrappers
  import opened Dicts

  /** What one `qna_search` call came to: the returned context, or an exception. */
  datatype QnaOutcome = Answered(context: string) | Raised(message: string)

  /** The call returned without raising and its context is truthy (a non-empty string). */
  predicate Answers(outcome: QnaOutcome) {
    outcome.Answered? && outcome.context != ""
  }

  /** `search_question` is called for question `i` with `delay_seconds = i * 0.5`. */
  function StaggerDelay(i: nat): real {
    i as real * 0.5
  }

  /** The delays of `n` questions, in question order. */
  function StaggerDelays(n: nat): (ds: seq<real>)
    ensures |ds| == n
    ensures forall i :: 0 <= i < n ==> ds[i] == StaggerDelay(i)
  {
    seq(n, i requires 0 <= i < n => StaggerDelay(i))
  }

  /** The first question goes out at once and each later one half a second after the one before. */
  lemma StaggerSchedule(n: nat)
    ensures n > 0 ==> StaggerDelays(n)[0] == 0.0
    ensures forall i :: 0 <= i < n - 1 ==> StaggerDelays(n)[i + 1] == StaggerDelays(n)[i] + 0.5
    ensures forall i, j :: 0 <= i < j < n ==> StaggerDelays(n)[i] < StaggerDelays(n)[j]
  {
  }

  /**
   * `search_question`: `{"question": q, "answer": context}` when the search
   * answered, `None` when it raised or returned an empty context.
   */
  function SearchQuestion(question: string, outcome: QnaOutcome): (r: Option<(string, string)>)
    ensures r.Some? <==> Answers(outcome)
    ensures r.Some? ==> r.value.0 == question
  {
    if Answers(outcome) then Some((question, outcome.context)) else None
  }

  /**
   * `all_results`: the gathered results that are not `None`, as
   * `(question, answer)` pairs, in question order. Each search is given as
   * its question and the outcome of its call.
   */
  function Collected(searches: seq<(string, QnaOutcome)>): (pairs: seq<(string, string)>)
    ensures |pairs| <= |searches|
    decreases |searches|
  {
    if searches == [] then []
    else
      var n := |searches| - 1;
      var r := SearchQuestion(searches[n].0, searches[n].1);
      Collected(searches[..n]) + (if r.Some? then [r.value] else [])
  }

  /** `{res['question']: res['answer'] for res in all_results}` */
  function InternetResults(searches: seq<(string, QnaOutcome)>): (d: seq<(string, string)>)
    ensures IsDict(d)
    ensures |d| <= |searches|
  {
    FromPairs(Collected(searches))
  }

  /** Search `i` asked `question` and answered. */
  predicate AnsweredAt(searches: seq<(string, QnaOutcome)>, i: nat, question: string)
    requires i < |searches|
  {
    searches[i].0 == question && Answers(searches[i].1)
  }

  /** The last search overrides the entry of its question exactly when it answered. */
  lemma InternetResultsLast(searches: seq<(string, QnaOutcome)>, question: string)
    requires searches != []
    ensures var n := |searches| - 1;
      Get(InternetResults(searches), question) ==
        if AnsweredAt(searches, n, question) then Some(searches[n].1.context)
        else Get(InternetResults(searches[..n]), question)
  {
    var n := |searches| - 1;
    var before := Collected(searches[..n]);
    var r := SearchQuestion(searches[n].0, searches[n].1);
    if r.Some? {
      var pairs := Collected(searches);
      assert pairs == before + [r.value];
      assert pairs[..|pairs| - 1] == before;
      if searches[n].0 == question {
        GetPutSame(FromPairs(before), question, r.value.1);
      } else {
        GetPutOther(FromPairs(before), searches[n].0, r.value.1, question);
      }
    } else {
      assert Collected(searches) == before;
    }
  }

  /** The answer of the last search of `question` that answered, if any. */
  function LastAnswer(searches: seq<(string, QnaOutcome)>, question: string): Option<string>
    decreases |searches|
  {
    if searches == [] then None
    else
      var n := |searches| - 1;
      if AnsweredAt(searches, n, question) then Some(searches[n].1.context)
      else LastAnswer(searches[..n], question)
  }

  /** The dict's entry for a question is its last answer. */
  lemma {:induction false} InternetResultsLastAnswer(searches: seq<(string, QnaOutcome)>, question: string)
    ensures Get(InternetResults(searches), question) == LastAnswer(searches, question)
    decreases |searches|
  {
    if searches != [] {
      InternetResultsLast(searches, question);
      InternetResultsLastAnswer(searches[..|searches| - 1], question);
    }
  }

  /** A last answer exists iff some search of the question answered, and it is the latest such answer. */
  lemma {:induction false} LastAnswerOf(searches: seq<(string, QnaOutcome)>, question: string)
    ensures LastAnswer(searches, question).None? <==>
      forall i :: 0 <= i < |searches| ==> !AnsweredAt(searches, i, question)
    ensures LastAnswer(searches, question).Some? ==>
      exists i :: 0 <= i < |searches| && AnsweredAt(searches, i, question) &&
        searches[i].1.context == LastAnswer(searches, question).value &&
        forall j :: i < j < |searches| ==> !AnsweredAt(searches, j, question)
    decreases |searches|
  {
    if searches != [] {
      var n := |searches| - 1;
      var prefix := searches[..n];
      LastAnswerOf(prefix, question);
      assert forall i :: 0 <= i < n ==> (AnsweredAt(prefix, i, question) <==> AnsweredAt(searches, i, question)) by {
        forall i | 0 <= i < n ensures prefix[i] == searches[i] { }
      }
      if !AnsweredAt(searches, n, question) && LastAnswer(prefix, question).Some? {
        var i :| 0 <= i < n && AnsweredAt(prefix, i, question) &&
          prefix[i].1.context == LastAnswer(prefix, question).value &&
          forall j :: i < j < n ==> !AnsweredAt(prefix, j, question);
        assert prefix[i] == searches[i];
      }
    }
  }

  /**
   * A question has an entry exactly when one of its searches answered, and
   * the entry is the answer of the last search of it that answered (a
   * repeated question keeps its last answer).
   */
  lemma InternetResultsGet(searches: seq<(string, QnaOutcome)>, question: string)
    ensures Get(InternetResults(searches), question).None? <==>
      forall i :: 0 <= i < |searches| ==> !AnsweredAt(searches, i, question)
    ensures Get(InternetResults(searches), question).Some? ==>
      exists i :: 0 <= i < |searches| && AnsweredAt(searches, i, question) &&
        searches[i].1.context == Get(InternetResults(searches), question).value &&
        forall j :: i < j < |searches| ==> !AnsweredAt(searches, j, question)
  {
    InternetResultsLastAnswer(searches, question);
    LastAnswerOf(searches, question);
  }

  /** The dict lists each answered question once, in order of its first answer. */
  lemma {:induction false} InternetResultsKeys(searches: seq<(string, QnaOutcome)>)
    ensures Keys(InternetResults(searches)) == Dedup(Keys(Collected(searches)))
  {
    FromPairsKeys(Collected(searches));
  }

  /** A search that raised or came back empty adds nothing to the dict. */
  lemma DroppedSearch(searches: seq<(string, QnaOutcome)>, question: string, outcome: QnaOutcome)
    requires !Answers(outcome)
    ensures InternetResults(searches + [(question, outcome)]) == InternetResults(searches)
  {
    var s := searches + [(question, outcome)];
    assert s[..|s| - 1] == searches;
    assert SearchQuestion(question, outcome).None?;
    assert Collected(s) == Collected(searches) + [];
    assert Collected(s) == Collected(searches);
  }
}
