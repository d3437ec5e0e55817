/**
 * `RecommendationAgent.generate_recommendations`: format the search evidence,
 * prepare the response schema, ask the language model, validate its reply,
 * and report progress along the way. The model call is an outcome given as
 * input: a reply, a timeout, or an exception.
 */
module RecommendationAgent {
  import opened Wrappers
  import opened Dicts
  import opened JsonValues
  import opened JsonSchema
  import opened ResponseModel
  import opened EvidenceFormat
  import opened Fusion

  /** `search_results["queries"]`. */
  datatype SearchQueries = SearchQueries(databaseQueries: seq<string>, internetQueries: seq<string>)

  /** The `search_results` dict the agent reads: the queries and the two result dicts. */
  datatype SearchBundle = SearchBundle(
    queries: SearchQueries,
    alumniProfiles: seq<(string, seq<string>)>,
    internetInsights: seq<(string, string)>)

  /** One `(message, progress)` call of the status callback. */
  datatype StatusUpdate = StatusUpdate(message: string, progress: real)

  /** What the chat-completion call came to within its 90-second limit. */
  datatype LlmOutcome =
    | Replied(decoded: Result<Json>)   // the reply text, decoded as JSON (or the decoding error)
    | TimedOut
    | Raised(message: string)

  /** What the model sees: the student summary and the two evidence texts, with the schema it must follow. */
  datatype Request = Request(context: string, alumniEvidence: string, internetEvidence: string, schema: Json)

  datatype Sources = Sources(alumniCount: nat, internetCount: nat)

  datatype Metadata = Metadata(queries: SearchQueries, sources: Sources)

  /** The dict `generate_recommendations` returns. */
  datatype Outcome =
    | Recommended(timestamp: string, studentSummary: string, recommendations: seq<Recommendation>, metadata: Metadata)
    | Errored(error: string, timestamp: string)

  /** The `status` entry of the returned dict. */
  function Status(outcome: Outcome): (s: string)
    ensures s == "success" <==> outcome.Recommended?
    ensures s == "error" <==> outcome.Errored?
  {
    if outcome.Recommended? then "success" else "error"
  }

  const Formatting := StatusUpdate("Formatting results for analysis...", 0.3)
  const Generating := StatusUpdate("Generating recommendations...", 0.4)
  const Processing := StatusUpdate("Processing LLM response...", 0.8)
  const Finalizing := StatusUpdate("Finalizing recommendations...", 0.9)
  const TimeoutMessage := "Recommendation generation timed out"

  /** The update the outer handler sends for an exception with text `message`. */
  function ErrorUpdate(message: string): StatusUpdate {
    StatusUpdate("Error: " + message, 1.0)
  }

  // ---------------------------------------------------------------------
  // The metadata counts
  // ---------------------------------------------------------------------

  /** The total length of some lists. */
  function Total(lists: seq<seq<string>>): nat
    decreases |lists|
  {
    if lists == [] then 0 else Total(lists[..|lists| - 1]) + |lists[|lists| - 1]|
  }

  /** `alumni_count`: the number of results over all queries. */
  function AlumniCount(alumniProfiles: seq<(string, seq<string>)>): nat {
    Total(Values(alumniProfiles))
  }

  /** `internet_count`: the number of internet entries. */
  function InternetCount(internetInsights: seq<(string, string)>): nat {
    |internetInsights|
  }

  /** The formatted alumni evidence has one line per pair and one per result. */
  lemma {:induction false} LineCountTotal(pairs: seq<(string, seq<string>)>)
    ensures LineCount(pairs) == |pairs| + Total(Values(pairs))
    decreases |pairs|
  {
    if pairs != [] {
      var n := |pairs| - 1;
      LineCountTotal(pairs[..n]);
      assert Values(pairs)[..n] == Values(pairs[..n]);
    }
  }

  /**
   * When there are at least as many database queries as alumni entries, the
   * formatted alumni evidence has `alumni_count` result lines besides one
   * query line per entry.
   */
  lemma AlumniCountLines(alumniProfiles: seq<(string, seq<string>)>, queries: seq<string>)
    requires |alumniProfiles| <= |queries|
    ensures LineCount(Zip(queries, Values(alumniProfiles))) == |alumniProfiles| + AlumniCount(alumniProfiles)
  {
    var pairs := Zip(queries, Values(alumniProfiles));
    var vs := Values(alumniProfiles);
    LineCountTotal(pairs);
    assert |pairs| == |vs|;
    assert Values(pairs) == vs by {
      forall i | 0 <= i < |vs| ensures Values(pairs)[i] == vs[i] {
        assert pairs[i] == (queries[i], vs[i]);
      }
    }
  }

  /** Lists of at most `bound` items each hold at most `bound` items per list in total. */
  lemma {:induction false} TotalBound(lists: seq<seq<string>>, bound: nat)
    requires forall i :: 0 <= i < |lists| ==> |lists[i]| <= bound
    ensures Total(lists) <= bound * |lists|
    decreases |lists|
  {
    if lists != [] {
      var n := |lists| - 1;
      TotalBound(lists[..n], bound);
    }
  }

  /**
   * For alumni evidence built by the search agent, `alumni_count` is at most
   * five per distinct database query.
   */
  lemma AlumniCountBound(results: seq<(RunKey, seq<Node>)>)
    ensures AlumniCount(SearchResults(results)) <= SearchTopK * |Dedup(QueriesOf(results))|
  {
    var d := SearchResults(results);
    SearchResultsOf(results, "");
    forall i | 0 <= i < |d| ensures |Values(d)[i]| <= SearchTopK {
      var query := d[i].0;
      SearchResultsOf(results, query);
      assert query in Dedup(QueriesOf(results)) by {
        assert Keys(d)[i] == query;
      }
      GetMember(d, i);
    }
    TotalBound(Values(d), SearchTopK);
  }

  // ---------------------------------------------------------------------
  // Progress and outcome
  // ---------------------------------------------------------------------

  /** The updates the client receives: all of them with a callback set, none without. */
  function Shown(hasCallback: bool, updates: seq<StatusUpdate>): seq<StatusUpdate> {
    if hasCallback then updates else []
  }

  /**
   * The outcome of `generate_recommendations` and the full list of status
   * updates it issues, in order.
   */
  function Generation(bundle: SearchBundle, studentSummary: string, rawSchema: Json, llm: LlmOutcome, now: string)
    : (Outcome, seq<StatusUpdate>)
  {
    match PrepareJsonSchema(rawSchema)
    case Failure(e) => (Errored(e, now), [Formatting, Generating, ErrorUpdate(e)])
    case Success(_) =>
      var (outcome, later) := Reply(bundle, studentSummary, llm, now);
      (outcome, [Formatting, Generating] + later)
  }

  /** The outcome once the request is sent, and the updates issued from then on. */
  function Reply(bundle: SearchBundle, studentSummary: string, llm: LlmOutcome, now: string)
    : (Outcome, seq<StatusUpdate>)
  {
    match llm
    case TimedOut => (Errored(TimeoutMessage, now), [StatusUpdate(TimeoutMessage, 1.0)])
    case Raised(e) => (Errored(e, now), [ErrorUpdate(e)])
    case Replied(decoded) =>
      var parsed := if decoded.Success? then ParseResponse(decoded.value) else Failure(decoded.error);
      match parsed
      case Failure(e) => (Errored(e, now), [Processing, ErrorUpdate(e)])
      case Success(response) =>
        var sources := Sources(AlumniCount(bundle.alumniProfiles), InternetCount(bundle.internetInsights));
        (Recommended(now, studentSummary, response.recommendations, Metadata(bundle.queries, sources)),
         [Processing, Finalizing])
  }

  /** The progress values of some updates, in order. */
  function Progress(updates: seq<StatusUpdate>): (ps: seq<real>)
    ensures |ps| == |updates|
    ensures forall i :: 0 <= i < |updates| ==> ps[i] == updates[i].progress
  {
    seq(|updates|, i requires 0 <= i < |updates| => updates[i].progress)
  }

  /**
   * Progress only goes forward, starts at 0.3 then 0.4, and ends at 1.0
   * exactly when the outcome is an error (at 0.9 otherwise).
   */
  lemma ProgressOrder(bundle: SearchBundle, studentSummary: string, rawSchema: Json, llm: LlmOutcome, now: string)
    ensures var (outcome, updates) := Generation(bundle, studentSummary, rawSchema, llm, now);
      var ps := Progress(updates);
      |ps| >= 3 && ps[0] == 0.3 && ps[1] == 0.4 &&
      (forall i, j :: 0 <= i < j < |ps| ==> ps[i] < ps[j]) &&
      (ps[|ps| - 1] == 1.0 <==> outcome.Errored?) &&
      (outcome.Recommended? ==> ps[|ps| - 1] == 0.9)
  {
  }

  /**
   * Recommendations come back exactly when the schema is prepared and the
   * reply validates; then the progress is 0.3, 0.4, 0.8, 0.9, the
   * recommendations are the validated ones and the counts are those of the
   * search results.
   */
  lemma SuccessPath(bundle: SearchBundle, studentSummary: string, rawSchema: Json, llm: LlmOutcome, now: string)
    ensures var (outcome, updates) := Generation(bundle, studentSummary, rawSchema, llm, now);
      outcome.Recommended? <==>
        PrepareJsonSchema(rawSchema).Success? && llm.Replied? && llm.decoded.Success? &&
        ParseResponse(llm.decoded.value).Success?
    ensures var (outcome, updates) := Generation(bundle, studentSummary, rawSchema, llm, now);
      outcome.Recommended? ==>
        Progress(updates) == [0.3, 0.4, 0.8, 0.9] &&
        outcome.recommendations == ParseResponse(llm.decoded.value).value.recommendations &&
        outcome.studentSummary == studentSummary &&
        outcome.metadata.queries == bundle.queries &&
        outcome.metadata.sources.alumniCount == AlumniCount(bundle.alumniProfiles) &&
        outcome.metadata.sources.internetCount == |bundle.internetInsights|
  {
  }

  /**
   * A timed-out call reports the fixed timeout message both as the last
   * update, at 1.0, and as the error, and never reaches 0.8.
   */
  lemma TimeoutPath(bundle: SearchBundle, studentSummary: string, rawSchema: Json, now: string)
    requires PrepareJsonSchema(rawSchema).Success?
    ensures var (outcome, updates) := Generation(bundle, studentSummary, rawSchema, TimedOut, now);
      outcome == Errored(TimeoutMessage, now) &&
      updates[|updates| - 1] == StatusUpdate(TimeoutMessage, 1.0) &&
      0.8 !in Progress(updates)
  {
  }

  /**
   * Any other failure (schema preparation, the call itself, or validation)
   * returns the exception text as the error and reports it, prefixed by
   * `"Error: "`, as the last update at 1.0.
   */
  lemma FailurePath(bundle: SearchBundle, studentSummary: string, rawSchema: Json, llm: LlmOutcome, now: string)
    requires !(PrepareJsonSchema(rawSchema).Success? && llm.TimedOut?)
    ensures var (outcome, updates) := Generation(bundle, studentSummary, rawSchema, llm, now);
      outcome.Errored? ==>
        updates[|updates| - 1] == ErrorUpdate(outcome.error) &&
        outcome.timestamp == now
  {
  }

  /** `_update_status`: an update reaches the client, after the earlier ones, only when a callback is set. */
  method UpdateStatus(sent: seq<StatusUpdate>, hasCallback: bool, update: StatusUpdate)
    returns (r: seq<StatusUpdate>)
    ensures r == sent + Shown(hasCallback, [update])
  {
    r := sent;
    if hasCallback {
      r := r + [update];
    }
  }

  /**
   * `generate_recommendations`: the outcome and shown updates are those of
   * `Generation`, and the request sent, when the schema could be prepared,
   * carries the summary, both formatted evidence texts and the schema.
   */
  method GenerateRecommendations(
    bundle: SearchBundle, studentSummary: string, hasCallback: bool,
    rawSchema: Json, llm: LlmOutcome, now: string)
    returns (outcome: Outcome, updates: seq<StatusUpdate>, request: Option<Request>)
    ensures outcome == Generation(bundle, studentSummary, rawSchema, llm, now).0
    ensures updates == Shown(hasCallback, Generation(bundle, studentSummary, rawSchema, llm, now).1)
    ensures request.Some? <==> PrepareJsonSchema(rawSchema).Success?
    ensures request.Some? ==> request.value == Request(
      studentSummary,
      AlumniText(bundle.alumniProfiles, bundle.queries.databaseQueries),
      InternetText(bundle.internetInsights, bundle.queries.internetQueries),
      PrepareJsonSchema(rawSchema).value)
  {
    request := None;
    updates := UpdateStatus([], hasCallback, Formatting);
    var alumniText := FormatAlumniResults(bundle.alumniProfiles, bundle.queries.databaseQueries);
    var internetText := FormatInternetResults(bundle.internetInsights, bundle.queries.internetQueries);
    updates := UpdateStatus(updates, hasCallback, Generating);
    var schema := PrepareJsonSchema(rawSchema);
    if schema.Failure? {
      updates := UpdateStatus(updates, hasCallback, ErrorUpdate(schema.error));
      outcome := Errored(schema.error, now);
      assert Generation(bundle, studentSummary, rawSchema, llm, now) ==
        (outcome, [Formatting, Generating, ErrorUpdate(schema.error)]);
      return;
    }
    request := Some(Request(studentSummary, alumniText, internetText, schema.value));
    var later;
    outcome, later := AwaitReply(bundle, studentSummary, hasCallback, llm, now);
    updates := updates + later;
    ghost var reply := Reply(bundle, studentSummary, llm, now);
    assert Generation(bundle, studentSummary, rawSchema, llm, now) == (reply.0, [Formatting, Generating] + reply.1);
  }

  /** The part of `generate_recommendations` after the request is sent: wait, validate, report. */
  method AwaitReply(bundle: SearchBundle, studentSummary: string, hasCallback: bool, llm: LlmOutcome, now: string)
    returns (outcome: Outcome, updates: seq<StatusUpdate>)
    ensures outcome == Reply(bundle, studentSummary, llm, now).0
    ensures updates == Shown(hasCallback, Reply(bundle, studentSummary, llm, now).1)
  {
    match llm {
      case TimedOut =>
        updates := UpdateStatus([], hasCallback, StatusUpdate(TimeoutMessage, 1.0));
        outcome := Errored(TimeoutMessage, now);
      case Raised(e) =>
        updates := UpdateStatus([], hasCallback, ErrorUpdate(e));
        outcome := Errored(e, now);
      case Replied(decoded) =>
        updates := UpdateStatus([], hasCallback, Processing);
        var parsed := if decoded.Success? then ParseResponse(decoded.value) else Failure(decoded.error);
        if parsed.Failure? {
          updates := UpdateStatus(updates, hasCallback, ErrorUpdate(parsed.error));
          outcome := Errored(parsed.error, now);
        } else {
          updates := UpdateStatus(updates, hasCallback, Finalizing);
          var sources := Sources(AlumniCount(bundle.alumniProfiles), InternetCount(bundle.internetInsights));
          outcome := Recommended(now, studentSummary, parsed.value.recommendations, Metadata(bundle.queries, sources));
        }
    }
  }
}
