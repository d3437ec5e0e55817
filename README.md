# Pathway advisor: a verified model of its data shaping

The advisor turns a student's intake form into five academic-pathway
recommendations. The form is rendered as context and summarised by a
language model. The summary is turned into database and internet search
queries. The database hits of a dense and a sparse retriever are fused by
reciprocal rank. The internet answers are collected into a question-to-answer
dict. Both kinds of evidence are formatted into a prompt, and the model's
JSON reply is validated against a strict response schema. The session rows
are stored in a database, and the web page normalises each recommendation's
type label.

This project models the deterministic parts of that pipeline in Dafny and
proves what they guarantee. Each source file has its own module.

- **Search agent** (`Fusion`, `QueryParsing`, `InternetSearch`, with `Sorting`
  and `Dicts`).
  - Fusion groups the retriever runs by query and scores each distinct
    content by `1/(rank + 60)` over one merged pool sorted by descending
    score. It keeps the `top_k` best, in a stable order.
  - The loops that fill the dicts are methods proved equal to specification
    functions.
  - Query parsing is modelled on Python's `strip`, `split` and `join` (`Text`).
  - The internet aggregation drops failed and empty answers.
  - Python dicts are insertion-ordered sequences of pairs (`Dicts`).
- **Recommendation agent** (`EvidenceFormat`, `JsonSchema`, `ResponseModel`,
  `RecommendationAgent`).
  - Covers the two evidence formatters, the schema rewrite over a JSON
    datatype (`JsonValues`), and the Pydantic response models as a strict
    parser with its serialiser.
  - Covers the progress updates and the outcome of `generate_recommendations`,
    with the language-model call as an input.
- **Profile agent** (`ProfileAgent`): `format_context` as a loop proved
  against its specification, the `StudentInfo` field set, and the
  strip/error-wrap of the summary.
- **Database helpers** (`SessionStore`, `Uuids`).
  - A `Database` class holds the two tables as maps keyed by session UUID,
    with transactional failure.
  - Python's `uuid.UUID` parsing and `str` formatting are in `Uuids`.
- **Recommendation page** (`RecommendationPage`): the case-insensitive type
  normalisation and the field-preserving map.
- **Findings** (`EvidenceFindings`, parts of `SessionStore`): three
  discrepancies between the code and its evident intent. Each has an
  as-written member, a counterexample and a corrected member.

The outputs of the language model, the Tavily search and the retrievers are
parameters. So are the clock (`now`) and `uuid4` (`freshId`). Commit failures
are a `commitError` parameter.

## Model

| member | source | states |
|---|---|---|
| QueryParsing.ParseDatabaseQueries | backend/agents/search_agent.py:30 | every database query is non-empty and already stripped |
| QueryParsing.KeepNonBlank | backend/agents/search_agent.py:30 | definition of the `if line.strip()` filter with each kept line stripped; its properties are in KeepNonBlankClean, KeepNonBlankExactly and KeepNonBlankAppend |
| QueryParsing.KeepNonBlankClean | backend/agents/search_agent.py:30 | the comprehension keeps only non-empty, stripped lines |
| QueryParsing.KeepNonBlankExactly | backend/agents/search_agent.py:30 | a stripped line is kept iff it is non-empty, and every kept query is the strip of some non-blank line |
| QueryParsing.KeepNonBlankAppend | backend/agents/search_agent.py:30 | the filter distributes over concatenation, so order is kept |
| QueryParsing.KeepNonBlankSingle | backend/agents/search_agent.py:30 | one line is kept, stripped, exactly when it is not blank |
| QueryParsing.DatabaseQueriesAreNonBlankLines | backend/agents/search_agent.py:30 | stripping the whole reply first makes no difference: the result is the non-blank lines of the raw reply, stripped |
| QueryParsing.LeadingSpaceIrrelevant | backend/agents/search_agent.py:30 | a leading whitespace character never changes the parsed queries |
| QueryParsing.TrailingSpaceIrrelevant | backend/agents/search_agent.py:30 | a trailing whitespace character never changes the parsed queries |
| QueryParsing.TrailingNewlineIrrelevant | backend/agents/search_agent.py:30 | a trailing newline only adds a blank line, which is dropped |
| QueryParsing.TrailingBlankIrrelevant | backend/agents/search_agent.py:30 | trailing non-newline whitespace is stripped from the last line |
| QueryParsing.StripStartIrrelevant | backend/agents/search_agent.py:30 | the outer left strip changes nothing in the result |
| QueryParsing.StripEndIrrelevant | backend/agents/search_agent.py:30 | the outer right strip changes nothing in the result |
| QueryParsing.CleanLinesRoundTrip | backend/agents/search_agent.py:30 | clean single-line queries joined by newlines parse back to the same list |
| QueryParsing.KeepCleanLines | backend/agents/search_agent.py:30 | a list of clean lines passes the filter unchanged |
| QueryParsing.ParseInternetQueries | backend/agents/search_agent.py:36 | at least one query; no non-empty query begins or ends with `"` |
| QueryParsing.InternetQueriesKeepEverySegment | backend/agents/search_agent.py:36 | one query per `"\n\n"`-separated segment of the stripped reply; none dropped, each the segment with `"` stripped |
| QueryParsing.BlankReply | backend/agents/search_agent.py:30-36 | a blank reply gives no database queries and a single empty internet query |
| Fusion.RrfTermValue | backend/agents/search_agent.py:60-83 | the term added at position `rank` is `1/(rank + 60)` |
| Fusion.SliceTo | backend/agents/search_agent.py:96 | Python's `[:k]`: a prefix of length `min(k, n)`, or `max(0, n + k)` for negative `k` |
| Fusion.QueriesOfPrefix | backend/agents/search_agent.py:65 | the queries of the runs seen so far grow by one per run |
| Fusion.GroupKeys | backend/agents/search_agent.py:64-68 | `query_groups` holds each query once, in order of first appearance |
| Fusion.GroupPool | backend/agents/search_agent.py:64-68 | a query's pool is the concatenation of all its runs' node lists, in dict order |
| Fusion.PoolOfAbsent | backend/agents/search_agent.py:64-68 | a query with no run has an empty pool |
| Fusion.GroupingStep | backend/agents/search_agent.py:66-68 | one setdefault-then-extend step of the loop matches the grouping function on one more run |
| Fusion.GroupByQueryNext | backend/agents/search_agent.py:66-68 | one grouping step is `d[q] = d.get(q, []) + nodes` |
| Fusion.GroupRuns | backend/agents/search_agent.py:64-68 | the grouping loop computes the grouping function |
| Fusion.GroupByQuery | backend/agents/search_agent.py:64-68 | definition of `query_groups`: the runs of each query concatenated in dict order, keyed in first-appearance order; its properties are in GroupKeys, GroupPool and GroupRuns |
| Fusion.FusedScoresKeys | backend/agents/search_agent.py:79-83 | `fused_scores` has one entry per distinct content, in order of first appearance in the sorted pool |
| Fusion.TextToNodeKeys | backend/agents/search_agent.py:79-80 | `text_to_node` has the same keys |
| Fusion.FusedScoreOf | backend/agents/search_agent.py:76-83 | a content's fused score is the sum of `1/(rank + 60)` over every position it occupies in the pool sorted by descending score (missing score read as 0.0) |
| Fusion.Ranked | backend/agents/search_agent.py:76-78 | definition of the pool sorted by descending score, a missing score read as 0.0; its properties are in Sorting.SortDesc and Sorting.SortDescStable |
| Fusion.FusedScores | backend/agents/search_agent.py:76-83 | definition of `fused_scores` after the scoring loop; its properties are in FusedScoreOf and FusedScoresKeys |
| Fusion.RrfScoreAbsent | backend/agents/search_agent.py:76-83 | a content absent from the pool scores 0 |
| Fusion.TextToNodeOf | backend/agents/search_agent.py:80 | `text_to_node[text]` is the last node with that content in the sorted pool |
| Fusion.TextToNode | backend/agents/search_agent.py:76-80 | definition of `text_to_node` after the scoring loop; its properties are in TextToNodeOf and TextToNodeKeys |
| Fusion.LastWith | backend/agents/search_agent.py:80 | the last node with a content exists iff the content occurs, and it occurs at the last such position |
| Fusion.AccumulateStep | backend/agents/search_agent.py:81-83 | one `fused_scores[text] += 1/(rank + k)` step extends the sum by the current position |
| Fusion.FusedScoresStep | backend/agents/search_agent.py:79-83 | the dict after one more position is a put of the extended sum |
| Fusion.RrfScoreStep | backend/agents/search_agent.py:83 | the sum over one more position adds its term only for its own content |
| Fusion.TextToNodeStep | backend/agents/search_agent.py:80 | `text_to_node` after one more position is a put of that node |
| Fusion.ScoringStep | backend/agents/search_agent.py:81-83 | the code's initialise-then-add step matches the scoring function on one more position |
| Fusion.FusedScoresNext | backend/agents/search_agent.py:81-83 | one scoring step is `d[t] = d.get(t, 0) + 1/(rank + k)` |
| Fusion.ScorePositions | backend/agents/search_agent.py:72-83 | the scoring loop fills both dicts exactly as the specification functions say |
| Fusion.Rebuild | backend/agents/search_agent.py:91-94 | each reranked content becomes its `text_to_node` node, carrying its fused score |
| Fusion.RebuildNodes | backend/agents/search_agent.py:91-94 | the rebuild loop computes the rebuild function |
| Fusion.FuseGroup | backend/agents/search_agent.py:72-96 | one query's fusion (score, sort, rebuild, slice) equals its specification |
| Fusion.FusionRanking | backend/agents/search_agent.py:85-88 | definition of `reranked_results`, the scored items sorted by descending fused score; its properties are in RankingEntry, RankingStable, RankingLength and RankingHas |
| Fusion.FuseOne | backend/agents/search_agent.py:71-96 | definition of one query's fused list; its properties are in FuseOneAt, FuseOneScores, FuseOneDistinct, FuseOneOrdered, FuseOneLength and FuseOneTopK |
| Fusion.FuseResultsPerQuery | backend/agents/search_agent.py:55-98 | the whole method equals grouping followed by per-query fusion |
| Fusion.FuseAll | backend/agents/search_agent.py:55-98 | definition of `query_fusion_results`; its properties are in FuseAllQueries and FuseAllPools |
| Fusion.RankingEntry | backend/agents/search_agent.py:86-88 | every ranking entry is a pool content with its fused score |
| Fusion.RankingKeysKnown | backend/agents/search_agent.py:93 | the lookup `text_to_node[text]` never fails |
| Fusion.RankingIsDict | backend/agents/search_agent.py:86-88 | `dict(sorted(...))` has distinct keys |
| Fusion.RankingStable | backend/agents/search_agent.py:86-88 | within equal fused scores the ranking keeps `fused_scores`' order (stable sort) |
| Fusion.RankingLength | backend/agents/search_agent.py:86-88 | the ranking has one entry per distinct content |
| Fusion.RankingHas | backend/agents/search_agent.py:86-88 | every pool content is ranked |
| Fusion.DedupContents | backend/agents/search_agent.py:79-81 | the distinct sorted-pool contents are exactly the pool's contents |
| Fusion.FuseOneAt | backend/agents/search_agent.py:91-96 | the i-th fused node is the last pool node of the i-th ranked content, with its score replaced by the fused score |
| Fusion.FuseOneScores | backend/agents/search_agent.py:94 | every returned node carries its content's fused score |
| Fusion.FuseOneFromPool | backend/agents/search_agent.py:91-93 | every returned node is a pool node apart from its score |
| Fusion.FuseOneDistinct | backend/agents/search_agent.py:79-81 | a query's fused list has no duplicate content |
| Fusion.FuseOneOrdered | backend/agents/search_agent.py:86-88 | the fused list is ordered by non-increasing fused score |
| Fusion.FuseOneLength | backend/agents/search_agent.py:96 | its length is `min(top_k, number of distinct contents)` |
| Fusion.CutOff | backend/agents/search_agent.py:96 | a content left out was ranked at or after the cut |
| Fusion.FuseOneTopK | backend/agents/search_agent.py:86-96 | a content left out scores no higher than any content kept |
| Fusion.FuseGroups | backend/agents/search_agent.py:71-96 | definition of `query_fusion_results` built by the per-query loop; its properties are in FuseGroupsKeys and FuseGroupsGet |
| Fusion.FuseGroupsKeys | backend/agents/search_agent.py:71-96 | `query_fusion_results` has exactly the grouped queries |
| Fusion.FuseGroupsGet | backend/agents/search_agent.py:71-96 | each query maps to the fusion of its own pool |
| Fusion.FuseAllQueries | backend/agents/search_agent.py:64-96 | every query of a results-dict key is in the output, once, in order of first appearance |
| Fusion.FuseAllPools | backend/agents/search_agent.py:64-96 | a query's output is the fusion of the concatenation of its runs |
| Fusion.ContentsOf | backend/agents/search_agent.py:125 | the content projection keeps length and order |
| Fusion.ContentLists | backend/agents/search_agent.py:124-127 | definition of the `formatted_results` comprehension, one entry per fused query; its properties are in ContentListsGet |
| Fusion.ContentListsGet | backend/agents/search_agent.py:124-127 | the projection keeps the dict's keys and maps each list to its contents |
| Fusion.SearchResults | backend/agents/search_agent.py:119-127 | definition of the dict `perform_searches` returns: fusion with `similarity_top_k=5`, then the content projection; its properties are in SearchResultsOf |
| Fusion.SearchResultsOf | backend/agents/search_agent.py:119-127 | each searched query lists `min(5, distinct contents)` distinct contents of its own runs |
| Fusion.MergedPoolRanks | backend/agents/search_agent.py:76-83 | dense 0.9 "A" and sparse 0.8 "B" fuse to A at 1/60 and B at 1/61 (a rank in the merged pool, not per retriever) |
| Fusion.ExampleGroups | backend/agents/search_agent.py:64-68 | the example's two runs group under one query |
| Fusion.ExampleRanked | backend/agents/search_agent.py:77 | the example pool sorts by descending score |
| Fusion.ExampleScores | backend/agents/search_agent.py:83 | the example's sums are 1/60 and 1/61 |
| Fusion.ExampleDicts | backend/agents/search_agent.py:79-83 | the example's `fused_scores` and `text_to_node` |
| Fusion.ExampleRanking | backend/agents/search_agent.py:86-88 | the example's ranking |
| Fusion.ExampleRebuild | backend/agents/search_agent.py:91-94 | the example's rebuilt nodes |
| Fusion.ExampleFused | backend/agents/search_agent.py:96 | the example's fused list |
| Sorting.InsertPos | backend/agents/search_agent.py:77 | the insertion point lies after every strictly larger key and before no larger one |
| Sorting.Insert | backend/agents/search_agent.py:77 | insertion makes the sequence one longer |
| Sorting.InsertMultiset | backend/agents/search_agent.py:77 | insertion adds exactly the inserted element and keeps every other one (multiset) |
| Sorting.WithKeyInsert | backend/agents/search_agent.py:77 | inserting an element puts it ahead of the elements with its key and leaves the order of every key group unchanged |
| Sorting.InsertSorted | backend/agents/search_agent.py:77 | insertion keeps descending order |
| Sorting.SortDesc | backend/agents/search_agent.py:77-87 | `sorted(reverse=True)` gives a descending permutation of its input |
| Sorting.SortDescStable | backend/agents/search_agent.py:77-87 | the sort is stable: the elements with equal keys keep their input order |
| Sorting.SortDescDistinct | backend/agents/search_agent.py:87 | sorting keeps distinctness |
| Sorting.SortDescKeysDistinct | backend/agents/search_agent.py:86-88 | sorting a dict's items keeps the keys distinct |
| InternetSearch.StaggerDelays | backend/agents/search_agent.py:161-163 | question i is searched after `i * 0.5` seconds |
| InternetSearch.StaggerSchedule | backend/agents/search_agent.py:162 | the first delay is 0, each next one is 0.5 s later, and the delays strictly increase |
| InternetSearch.SearchQuestion | backend/agents/search_agent.py:140-157 | a result exists iff the search answered without raising and its answer is truthy, and it carries its question |
| InternetSearch.Collected | backend/agents/search_agent.py:159-166 | at most one result per search, so a question searched twice can give two pairs |
| InternetSearch.InternetResults | backend/agents/search_agent.py:169 | the map has distinct keys and no more entries than questions |
| InternetSearch.InternetResultsLast | backend/agents/search_agent.py:165-169 | the last search overwrites its question's entry exactly when it answered and leaves every other entry alone |
| InternetSearch.InternetResultsLastAnswer | backend/agents/search_agent.py:153-169 | each question's entry is its last answer |
| InternetSearch.LastAnswerOf | backend/agents/search_agent.py:153-169 | a last answer exists iff some search of the question answered, and no later search of it answered |
| InternetSearch.InternetResultsGet | backend/agents/search_agent.py:153-169 | a question has an entry iff one of its searches answered, and the entry is that question's last answer |
| InternetSearch.InternetResultsKeys | backend/agents/search_agent.py:169 | the keys are the answered questions, in order of first answer |
| InternetSearch.DroppedSearch | backend/agents/search_agent.py:153-165 | a failed or empty search leaves the map unchanged |
| Dicts.GetKeys | backend/agents/search_agent.py:66 | `k in d` iff `d.get(k)` finds a value |
| Dicts.PutKeys | backend/agents/search_agent.py:67-80 | `d[k] = v` keeps the keys in place and appends a new key at the end |
| Dicts.PutDict | backend/agents/search_agent.py:67-80 | `d[k] = v` keeps the keys distinct |
| Dicts.GetPutSame | backend/agents/search_agent.py:80 | after `d[k] = v`, `d[k]` is `v` |
| Dicts.GetPutOther | backend/agents/search_agent.py:80 | `d[k] = v` leaves every other key as it was |
| Dicts.FromPairs | backend/agents/search_agent.py:169 | a comprehension over pairs builds a dict no longer than its input |
| Dicts.FromPairsKeys | backend/agents/search_agent.py:169 | its keys are the pairs' keys deduplicated, in order of first appearance |
| Dicts.Dedup | backend/agents/search_agent.py:66-67 | first occurrences: distinct, and the same elements as the input |
| Dicts.PutNew | backend/agents/search_agent.py:67 | a new key is appended |
| Dicts.SetDefaultThenPut | backend/agents/search_agent.py:66-83 | after `if k not in d: d[k] = default`, `d[k]` reads `d.get(k, default)`, and a following write is a single write |
| Text.Strip | backend/agents/search_agent.py:30 | Python's `str.strip()`: the result neither begins nor ends with whitespace |
| Text.StripEmpty | backend/agents/profile_agent.py:22 | `value.strip()` is empty iff the value is all whitespace |
| Text.StripIdempotent | backend/agents/profile_agent.py:53 | stripping twice is stripping once |
| Text.StripSlice | backend/agents/profile_agent.py:53 | the stripped text is a slice of the original |
| Text.StripChars | backend/agents/search_agent.py:36 | `strip('"')`: no `"` at either end |
| Text.Split | backend/agents/search_agent.py:30-36 | definition of Python's `str.split(sep)` for a non-empty separator, at least one part; its properties are in JoinSplit and SplitJoinChar |
| Text.Join | backend/agents/recommendation_agent.py:98-105 | definition of Python's `sep.join(parts)`; its properties are in JoinSplit and SplitJoinChar |
| Text.Replace | backend/agents/profile_agent.py:23 | definition of Python's `str.replace(old, new)` as `new.join(s.split(old))`; its property is in ReplaceChar |
| Text.JoinSplit | backend/agents/search_agent.py:36 | joining the parts of a split gives back the text |
| Text.SplitJoinChar | backend/agents/recommendation_agent.py:98 | splitting the join of newline-free lines gives back the lines |
| Text.Lower | frontend/app/recommendation/page.tsx:45 | `toLowerCase()` maps each letter to lower case, length kept |
| Text.LowerIdempotent | frontend/app/recommendation/page.tsx:45 | lower-casing twice is lower-casing once |
| Text.Title | backend/agents/profile_agent.py:23 | `str.title()` keeps the length |
| Text.TitleFromChars | backend/agents/profile_agent.py:23 | `str.title()` upper-cases a letter after a non-letter and lower-cases one after a letter |
| Text.ReplaceChar | backend/agents/profile_agent.py:23 | `replace('_', ' ')` maps each underscore to a space |
| EvidenceFormat.Zip | backend/agents/recommendation_agent.py:94-103 | `zip` gives the positional pairs, as many as the shorter input |
| EvidenceFormat.ZipKeys | backend/agents/recommendation_agent.py:94 | the labels of the pairs are the first queries |
| EvidenceFormat.ResultLines | backend/agents/recommendation_agent.py:96-97 | one `"  - r"` line per result, in order |
| EvidenceFormat.FormatAlumniResults | backend/agents/recommendation_agent.py:91-98 | the nested loop builds one query line and then its result lines per positional pair, joined by newlines |
| EvidenceFormat.AlumniText | backend/agents/recommendation_agent.py:91-98 | definition of the alumni evidence text; its properties are in AlumniLabelledByPosition and AlumniLineSplit |
| EvidenceFormat.QueryLines | backend/agents/recommendation_agent.py:95 | one `"Query: q"` line per query |
| EvidenceFormat.LabelsAppend | backend/agents/recommendation_agent.py:95-97 | the label lines distribute over concatenation |
| EvidenceFormat.ResultLinesUnlabelled | backend/agents/recommendation_agent.py:97 | a result line is never a label line |
| EvidenceFormat.AlumniLabels | backend/agents/recommendation_agent.py:94-97 | the label lines are the pairs' queries, in order |
| EvidenceFormat.AlumniLabelledByPosition | backend/agents/recommendation_agent.py:94 | the labels are the first `min(len(queries), len(profiles))` queries, never the dict keys |
| EvidenceFormat.AlumniLinesCount | backend/agents/recommendation_agent.py:95-97 | one line per pair plus one per result |
| EvidenceFormat.AlumniLinesSingle | backend/agents/recommendation_agent.py:95-97 | single-line inputs give single-line lines |
| EvidenceFormat.AlumniLineSplit | backend/agents/recommendation_agent.py:94-98 | for single-line inputs the text splits back into exactly `sum(1 + len(results))` lines |
| EvidenceFormat.InternetBlocks | backend/agents/recommendation_agent.py:104 | one `"Query: q\nResult: r"` block per pair |
| EvidenceFormat.FormatInternetResults | backend/agents/recommendation_agent.py:100-105 | the loop builds one block per positional pair, joined by blank lines |
| EvidenceFormat.InternetText | backend/agents/recommendation_agent.py:100-105 | definition of the internet evidence text; its properties are in InternetTextEmpty and the findings module |
| EvidenceFormat.InternetTextEmpty | backend/agents/recommendation_agent.py:100-105 | the text is empty iff there is no positional pair |
| JsonSchema.TightenFields | backend/agents/recommendation_agent.py:117-118 | the recursion reaches every value of a dict, keys and order kept |
| JsonSchema.TightenObj | backend/agents/recommendation_agent.py:113-118 | a dict with `properties` gains `additionalProperties: false`, and its values are rewritten |
| JsonSchema.Tighten | backend/agents/recommendation_agent.py:112-118 | definition of `set_additional_properties_false` on values; its properties are in TightenCloses, TightenIdempotent and TightenScope |
| JsonSchema.TightenFieldsGet | backend/agents/recommendation_agent.py:117-118 | each key's value is the rewrite of its old value |
| JsonSchema.PutClosed | backend/agents/recommendation_agent.py:116 | writing a rewritten value keeps the dict's values rewritten |
| JsonSchema.TightenCloses | backend/agents/recommendation_agent.py:113-120 | after the rewrite every dict with `properties` that is reachable through dict values has `additionalProperties = false` |
| JsonSchema.PutSameValue | backend/agents/recommendation_agent.py:116 | writing a key's own value changes nothing |
| JsonSchema.TightenClosed | backend/agents/recommendation_agent.py:113-120 | a schema already closed is left unchanged |
| JsonSchema.TightenIdempotent | backend/agents/recommendation_agent.py:113-120 | applying the rewrite again changes nothing |
| JsonSchema.TightenScope | backend/agents/recommendation_agent.py:113-118 | non-dicts (lists included) are untouched, and a dict without `properties` gains no key |
| JsonSchema.NameList | backend/agents/recommendation_agent.py:110 | the property names, in order, as strings |
| JsonSchema.PrepareJsonSchema | backend/agents/recommendation_agent.py:107-124 | it succeeds iff the schema is a dict whose `properties` is a dict (else the subscript or `.keys()` raises) |
| JsonSchema.PreparedSchema | backend/agents/recommendation_agent.py:107-124 | the wrapper holds the name and the closed schema, whose `required` lists exactly the top-level property names in order |
| ResponseModel.Shape | backend/agents/recommendation_agent.py:27 | a record is accepted iff it is an object with exactly the declared keys (all required, `extra="forbid"`) |
| ResponseModel.StringField | backend/agents/recommendation_agent.py:10-25 | a `str` field is accepted iff it holds a string |
| ResponseModel.IntField | backend/agents/recommendation_agent.py:46-49 | an `int` field is accepted iff it holds an integer |
| ResponseModel.StringsJson | backend/agents/recommendation_agent.py:18-21 | a list of strings, of any length |
| ResponseModel.StringListField | backend/agents/recommendation_agent.py:18-41 | a `List[str]` field is accepted iff it is a list of strings of any length |
| ResponseModel.StringDictJson | backend/agents/recommendation_agent.py:34-37 | a `Dict[str, str]` as a JSON object |
| ResponseModel.StringDictField | backend/agents/recommendation_agent.py:34-37 | a `Dict[str, str]` field is accepted iff every value is a string |
| ResponseModel.ParseQuickView | backend/agents/recommendation_agent.py:9-27 | accepted only with exactly the four fields, each as parsed |
| ResponseModel.ParseDetailedView | backend/agents/recommendation_agent.py:29-43 | accepted only with exactly the three fields, each as parsed |
| ResponseModel.ParseRecommendation | backend/agents/recommendation_agent.py:45-63 | accepted only with exactly the four fields, nested views parsed strictly |
| ResponseModel.ParseRecommendationList | backend/agents/recommendation_agent.py:66-69 | a list is accepted iff every item is, of any length |
| ResponseModel.ParseResponse | backend/agents/recommendation_agent.py:65-71 | accepted only as an object whose single key is `recommendations` |
| ResponseModel.RecommendationListJson | backend/agents/recommendation_agent.py:66-69 | one JSON item per recommendation |
| ResponseModel.StringListRoundTrip | backend/agents/recommendation_agent.py:18-21 | a serialised string list parses back to itself |
| ResponseModel.StringDictRoundTrip | backend/agents/recommendation_agent.py:34-37 | a serialised string dict parses back to itself |
| ResponseModel.QuickViewRoundTrip | backend/agents/recommendation_agent.py:9-27 | a serialised QuickView parses back to itself |
| ResponseModel.DetailedViewRoundTrip | backend/agents/recommendation_agent.py:29-43 | a serialised DetailedView parses back to itself |
| ResponseModel.RecommendationRoundTrip | backend/agents/recommendation_agent.py:45-63 | a serialised Recommendation parses back to itself |
| ResponseModel.RecommendationListRoundTrip | backend/agents/recommendation_agent.py:66-69 | a serialised list of any length parses back to itself |
| ResponseModel.ResponseRoundTrip | backend/agents/recommendation_agent.py:65-71 | a serialised response parses back to itself |
| ResponseModel.QuickViewAccepted | backend/agents/recommendation_agent.py:9-27 | a `QuickView` object validates iff it has exactly the four keys, in any order, with strings, a string list and a string |
| ResponseModel.DetailedViewAccepted | backend/agents/recommendation_agent.py:29-43 | a `DetailedView` object validates iff it has exactly the three keys, in any order, with a string, a string dict and a string list |
| ResponseModel.RecommendationAccepted | backend/agents/recommendation_agent.py:45-63 | a `Recommendation` validates iff it has exactly its four keys, an integer id, a string type and two valid views |
| ResponseModel.ResponseAccepted | backend/agents/recommendation_agent.py:65-71 | a response validates iff its only key `recommendations` holds a list whose every item is a valid recommendation, of any length |
| ResponseModel.QuickViewAnyOrder | backend/agents/recommendation_agent.py:9-27 | a `QuickView` whose keys arrive in reverse order validates to the same value |
| ResponseModel.ExtraKeyRejected | backend/agents/recommendation_agent.py:71 | adding any unknown top-level key makes parsing fail |
| RecommendationAgent.Status | backend/agents/recommendation_agent.py:165-191 | status is `"success"` iff recommendations were produced, `"error"` otherwise |
| RecommendationAgent.LineCountTotal | backend/agents/recommendation_agent.py:172 | the alumni lines are one per pair plus the summed result counts |
| RecommendationAgent.Total | backend/agents/recommendation_agent.py:172 | definition of the `sum(len(v) for v in …)` the counts use; its properties are in LineCountTotal and TotalBound |
| RecommendationAgent.AlumniCount | backend/agents/recommendation_agent.py:172 | definition of `alumni_count`; its properties are in SuccessPath, AlumniCountLines and AlumniCountBound |
| RecommendationAgent.InternetCount | backend/agents/recommendation_agent.py:173 | definition of `internet_count`, `len(internet_insights)`; its property is in SuccessPath |
| RecommendationAgent.AlumniCountLines | backend/agents/recommendation_agent.py:172 | with enough queries, `alumni_count` is the number of result lines in the alumni evidence |
| RecommendationAgent.TotalBound | backend/agents/recommendation_agent.py:172 | a sum of bounded lengths is bounded |
| RecommendationAgent.AlumniCountBound | backend/agents/recommendation_agent.py:172 | `alumni_count` over fused results is at most 5 per distinct query |
| RecommendationAgent.Progress | backend/agents/recommendation_agent.py:86-89 | the progress values of the updates, in order |
| RecommendationAgent.ProgressOrder | backend/agents/recommendation_agent.py:129-194 | progress starts 0.3, 0.4 and strictly increases; it ends at 1.0 iff the outcome is an error and at 0.9 on success |
| RecommendationAgent.SuccessPath | backend/agents/recommendation_agent.py:145-176 | success iff the schema prepares, the model replies in time and the reply parses; then progress is 0.3, 0.4, 0.8, 0.9 and the result carries the parsed recommendations, the queries and both counts |
| RecommendationAgent.TimeoutPath | backend/agents/recommendation_agent.py:178-184 | a timeout returns the exact timeout message, ends with it at 1.0 and never reports 0.8 |
| RecommendationAgent.FailurePath | backend/agents/recommendation_agent.py:186-194 | any other failure ends with `"Error: " + message` at 1.0 and returns that message |
| RecommendationAgent.UpdateStatus | backend/agents/recommendation_agent.py:86-89 | an update is sent iff a callback is set |
| RecommendationAgent.GenerateRecommendations | backend/agents/recommendation_agent.py:126-194 | the method's outcome and updates are the specification's; the prompt carries the two formatted evidences and the prepared schema |
| RecommendationAgent.Generation | backend/agents/recommendation_agent.py:126-194 | definition of the outcome and the status updates in order; its properties are in ProgressOrder, SuccessPath, TimeoutPath and FailurePath |
| RecommendationAgent.AwaitReply | backend/agents/recommendation_agent.py:147-184 | the reply handling matches its specification |
| RecommendationAgent.Reply | backend/agents/recommendation_agent.py:147-184 | definition of the outcome and updates once the request is sent; its properties are in SuccessPath, TimeoutPath and FailurePath |
| ProfileAgent.Items | backend/agents/profile_agent.py:7-16 | the keys of `StudentInfo.dict()` are the eight field names, in declaration order |
| ProfileAgent.StudentInfoFields | backend/agents/profile_agent.py:7-16 | exactly eight distinct fields, with their values in order, so `dict()` has distinct keys |
| ProfileAgent.FieldLabelChars | backend/agents/profile_agent.py:23 | the label has the field's length; each character is the field's with `_` read as a space, title-cased |
| ProfileAgent.FieldLabel | backend/agents/profile_agent.py:23 | definition of `field.replace('_', ' ').title()`; its properties are in FieldLabelChars |
| ProfileAgent.FormatContext | backend/agents/profile_agent.py:18-25 | the loop computes the context specification |
| ProfileAgent.ContextText | backend/agents/profile_agent.py:18-25 | definition of `format_context`'s result; its properties are in ContextTextEmpty and ContextPartsKept |
| ProfileAgent.ContextParts | backend/agents/profile_agent.py:20-24 | definition of `context_parts`; its properties are in ContextPartsKept and Parts |
| ProfileAgent.KeptItems | backend/agents/profile_agent.py:22 | the kept items are items with a non-blank value |
| ProfileAgent.KeptItemsAppend | backend/agents/profile_agent.py:21-22 | the filter keeps input order |
| ProfileAgent.KeptItemsComplete | backend/agents/profile_agent.py:22 | an item is kept iff its value is not empty or whitespace-only |
| ProfileAgent.Parts | backend/agents/profile_agent.py:24 | each part is label + `":\n"` + value verbatim + `"\n"` |
| ProfileAgent.ContextPartsKept | backend/agents/profile_agent.py:20-24 | the parts are exactly the kept items' parts, in field order |
| ProfileAgent.ContextTextEmpty | backend/agents/profile_agent.py:20-25 | the context is `""` iff every field is blank |
| ProfileAgent.ProfileSummary | backend/agents/profile_agent.py:43-56 | the summary succeeds iff the completion does |
| ProfileAgent.ProfileContext | backend/agents/profile_agent.py:45-46 | definition of the context the summary prompt carries, `format_context(student_info.dict())`; its property is in ProfileContextEmpty |
| ProfileAgent.ProfileContextEmpty | backend/agents/profile_agent.py:45-46 | the context sent is empty exactly when all eight answers are blank |
| ProfileAgent.ProfileSummaryShape | backend/agents/profile_agent.py:53-56 | a summary is the completion's stripped slice with no whitespace at its ends; a failure message is the prefix followed by the original error |
| Uuids.UuidText | backend/database/db.py:108 | `str(uuid)` is 36 characters |
| Uuids.UuidTextChars | backend/database/db.py:108 | hyphens at 8, 13, 18, 23, lower-case hex digits elsewhere |
| Uuids.UuidTextDigits | backend/database/db.py:108 | removing the hyphens gives back the 32 digits |
| Uuids.ParseUuid | backend/database/db.py:60 | the model accepts exactly the texts that leave 32 ASCII hex digits once the `urn:`/`uuid:` prefix, the braces and the hyphens are removed, and reads them as the UUID's value |
| Uuids.ParseUuidText | backend/database/db.py:98-108 | parsing the string form gives back the UUID |
| Uuids.ParseUuidHex | backend/database/db.py:98 | the bare 32-digit form parses to the same UUID |
| SessionStore.Resolve | backend/database/db.py:60 | a UUID key is used as is; a string key resolves iff it parses |
| SessionStore.Upsert | backend/database/db.py:62-83 | after the upsert the table holds one row for the id and the same other ids |
| SessionStore.UpsertRows | backend/database/db.py:69-83 | the row holds the new values, with the update time or the insert default; other rows unchanged |
| SessionStore.Lookup | backend/database/db.py:91-114 | a lookup fails iff the key does not parse, and finds a record iff the id has a row |
| SessionStore.LookupForms | backend/database/db.py:98 | the string, bare-hex and UUID forms of an id address the same record |
| SessionStore.LookupReportsId | backend/database/db.py:108 | a found record's id string parses back to the looked-up id |
| SessionStore.SaveThenLookup | backend/database/db.py:69-83 | with the corrected insert stamp, a saved row reads back with exactly the saved values and time |
| SessionStore.StaleInsertStamp | backend/database/models.py:33 | a new row inserted as written is stamped with the import time, not the save time |
| SessionStore.Database.constructor | backend/database/models.py:11-33 | both tables start empty |
| SessionStore.Database.Valid | backend/database/models.py:29 | definition of the foreign-key invariant: every recommendation row belongs to a student session; every Database method keeps it |
| SessionStore.Database.SaveSession | backend/database/db.py:34-47 | success iff the new id is free and the commit succeeds; the new row holds the form and summary; a failure changes nothing |
| SessionStore.Database.SaveRecommendationSession | backend/database/db.py:50-88 | success iff the id parses, references a student session, and the commit succeeds; then one row per id, updated or inserted; a failure rolls back |
| SessionStore.Database.SaveRecommendationSessionFixed | backend/database/db.py:50-88 | as above, with every saved row stamped with the save time |
| SessionStore.Database.Store | backend/database/db.py:58-88 | the shared check-then-update-or-insert with rollback |
| SessionStore.Database.GetRecommendationSession | backend/database/db.py:91-116 | the method returns the table lookup |
| RecommendationPage.NormalizeCases | frontend/app/recommendation/page.tsx:44-56 | alumni, trend and figure map to Alumni, Trend and Inspiration; everything else maps to Alumni |
| RecommendationPage.NormalizeRecommendationType | frontend/app/recommendation/page.tsx:44-56 | definition of the `switch` on the lower-cased type; its properties are in NormalizeCases and NormalizeCaseInsensitive |
| RecommendationPage.NormalizeCaseInsensitive | frontend/app/recommendation/page.tsx:45 | the label depends only on the lower-cased type |
| RecommendationPage.NormalizeExamples | frontend/app/recommendation/page.tsx:45-54 | "FIGURE" is Inspiration, "Trend" is Trend, "notable figure" is Alumni |
| RecommendationPage.NormalizeAll | frontend/app/recommendation/page.tsx:82-86 | the map keeps the list's length |
| RecommendationPage.NormalizeAllFields | frontend/app/recommendation/page.tsx:82-86 | the map keeps length, order and every field but the type, which becomes one of the three labels |
| EvidenceFindings.InternetMislabel | backend/agents/recommendation_agent.py:103 | when q1 fails and q2 answers, the answer to q2 is labelled q1 |
| EvidenceFindings.AlumniMislabel | backend/agents/recommendation_agent.py:94 | with a repeated database query, the results of "b" are labelled with the repeated query |
| EvidenceFindings.MislabelledLines | backend/agents/recommendation_agent.py:95-97 | the lines of the mislabelled pairing |
| EvidenceFindings.FormatInternetResultsByKey | backend/agents/recommendation_agent.py:100-105 | the corrected formatter loops over the dict's items |
| EvidenceFindings.InternetTextByKey | backend/agents/recommendation_agent.py:100-105 | definition of the corrected internet evidence, one block per dict item; its properties are in InternetBlocksByKey |
| EvidenceFindings.AlumniTextByKey | backend/agents/recommendation_agent.py:91-98 | definition of the corrected alumni evidence, one group per dict item; its properties are in AlumniLabelsByKey |
| EvidenceFindings.InternetBlocksByKey | backend/agents/search_agent.py:153-169 | corrected: every block pairs a question with an answer that question's own search returned |
| EvidenceFindings.AlumniLabelsByKey | backend/agents/search_agent.py:124-127 | corrected: the alumni labels are the distinct searched queries, each once, in order |

## Left out

- The language-model, Tavily and retriever calls are parameters: the completion text, a `QnaOutcome` per question, and the runs per `(query, retriever)` key. The prompt templates are not part of this model.
- `run_queries` and the rest of `perform_searches` (retriever setup, `asyncio.gather`, `dict(results)`) are not modelled: fusion starts from the results dict as a sequence of distinct-keyed runs.
- asyncio scheduling (`gather`, `sleep`, `run_in_executor`, `wait_for` timeouts): only the `i * 0.5` delay values and the reply outcome (reply, timeout, exception) are kept.
- Scores are exact `real`s rather than IEEE doubles, so float rounding cannot break a tie differently.
- The JSON text decoding done by `parse_raw`, and Pydantic's `model_json_schema`, are inputs: a decoded `Json` value (or a decode error) and the raw schema value.
- JsonSchema.PrepareJsonSchema: the in-place mutation is modelled on values, so aliasing between schema parts is not captured.
- Fusion.Rebuild: the in-place `.score` assignment at backend/agents/search_agent.py:94 is modelled on values (`node.(score := …)`). The program also changes the node objects held in the input results dict, which the model does not capture; `perform_searches` never reads that dict again.
- ResponseModel.ParseRecommendation: Pydantic's lax coercions (numeric strings or integral floats to `int`, and so on) are not modelled. The model accepts only JSON integers and strings. Only the first error is reported, not Pydantic's list. The error texts (such as "Extra inputs are not permitted" or "title: Field required") are this model's own wording. They stand in for `str(ValidationError)`, a multi-line report that names the model and lists every error. In JsonSchema.PrepareJsonSchema a missing `properties` key gives `'properties'`, which is what `str(KeyError)` prints. The texts for a schema that is not a dict, and for a `properties` value without `keys()`, are this model's wording for the `TypeError` and `AttributeError` the program raises. So the exception text that RecommendationAgent.FailurePath reports is the model's wording, not the program's.
- ResponseModel.IntField: accepts only a JSON integer, a narrower set than Pydantic's lax `int`.
- Uuids.ParseUuid: `int(hex, 16)` accepts more than 32 ASCII hex digits, and the model rejects those extra texts. It tolerates surrounding whitespace, underscores and a sign. It accepts a `0x`/`0X` base prefix, so `"0x"` followed by 30 zeros is the nil UUID. It also accepts non-ASCII decimal digits such as U+0660. For those texts SessionStore.Resolve reports a badly formed id where the program goes on.
- Text.Lower: only ASCII letters change case, and the same holds for Text.Title. The three expected labels and the field names are ASCII.
- RecommendationAgent.GenerateRecommendations: a status callback that itself raises is not modelled, and neither are the `print` calls. A malformed `search_results` dict (a `KeyError`) is excluded by the typed `SearchBundle` input.
- Inputs that stand for Python dicts are sequences of pairs, and the model takes their keys to be distinct without requiring it. These are the alumni and internet results in `SearchBundle` and the members of a decoded JSON object. RecommendationAgent.InternetCount is `len(dict)` only under that reading. For a JSON object with a repeated key, `Get` finds the first value where `json.loads` keeps the last.
- The `timestamp` fields are `isoformat` strings supplied as the parameter `now`. `uuid4` is the parameter `freshId`.
- The SQLAlchemy engine, sessions, `refresh` and `init_db` are not modelled. The concurrent race between the existence check and the insert is not modelled. Student rows are keyed by session UUID; the integer primary keys are not modelled.
- The page's WebSocket handling, `localStorage` caching and the `console.warn` call are not modelled.

## Findings

| source | as written | input that shows it | evidently intended | confidence | as-written member | corrected member |
|---|---|---|---|---|---|---|
| backend/agents/recommendation_agent.py:103 | internet answers are labelled by position in the query list, but failed searches are dropped from the answers dict | questions `["q1", "q2"]`, q1 raises, q2 answers `"a2"`: the evidence reads `Query: q1` / `Result: a2` | each answer labelled with its own question (the dict key) | high, not executed | EvidenceFindings.InternetMislabel | EvidenceFindings.InternetBlocksByKey |
| backend/agents/recommendation_agent.py:94 | alumni results are labelled by position in the query list, but repeated queries collapse into one dict entry | database queries `["a", "a", "b"]` with results `{a: [x], b: [y]}`: the results of `b` appear under `Query: a` | each result list labelled with its own query | medium, not executed | EvidenceFindings.AlumniMislabel | EvidenceFindings.AlumniLabelsByKey |
| backend/database/models.py:33 | `default=datetime.utcnow()` is called once when the module is imported, so every inserted recommendation row gets the import time | a first save at any time after start-up: the row's timestamp is the import time | the insert time, like the update path at backend/database/db.py:74 and `StudentSession` at models.py:19 | high, not executed | SessionStore.StaleInsertStamp | SessionStore.Database.SaveRecommendationSessionFixed |
