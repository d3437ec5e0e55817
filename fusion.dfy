/**
 * Reciprocal Rank Fusion as `fuse_results_per_query` performs it. Each
 * retriever run is keyed by `(query, retriever index)`. The runs of one query
 * are pooled, the pool is sorted by retriever score, and every content string
 * is scored by summing `1 / (rank + 60)` over the positions it occupies in
 * that one sorted pool. The contents are then ranked by that fused score and
 * the first `top_k` are kept.
 *
 * The specification functions below follow the loops of the source one
 * dictionary at a time; `FuseGroup` and `FuseResultsPerQuery` are those loops,
 * proved equal to them.
 */
module Fusion {
  import opened Wrappers
  import opened Dicts
  import opened Sorting

  /** A retrieved node: its identity, its text and the retriever's score, if any. */
  datatype Node = Node(nodeId: string, content: string, score: Option<real>)

  /** The key of one retriever run: the query and the retriever's index. */
  type RunKey = (string, int)

  /** The rank constant `k` of the fusion formula. */
  const RrfK: real := 60.0

  /** `x.score or 0.0`: a node without a score sorts as if it scored zero. */
  function RankKey(n: Node): real {
    if n.score.Some? then n.score.value else 0.0
  }

  /** The fused score of a `(content, score)` entry. */
  function ScoreOf(entry: (string, real)): real {
    entry.1
  }

  /**
   * `1.0 / d`. The `delay` steps only postpone the division: a proof that
   * needs the quotient unfolds it, while proofs that merely carry the value
   * through the dicts never see a nonlinear term.
   */
  function Reciprocal(d: real, delay: nat): (r: real)
    requires d > 0.0
    ensures r > 0.0
    decreases delay
  {
    if delay == 0 then 1.0 / d else Reciprocal(d, delay - 1)
  }

  /** What one occurrence at position `rank` of the sorted pool contributes. */
  function RrfTerm(rank: nat): (r: real)
    ensures r > 0.0
  {
    Reciprocal(rank as real + RrfK, 1)
  }

  /** The term is `1 / (rank + k)`. */
  lemma RrfTermValue(rank: nat)
    ensures RrfTerm(rank) == 1.0 / (rank as real + RrfK)
  {
  }

  function Min(a: int, b: int): int {
    if a <= b then a else b
  }

  function Max(a: int, b: int): int {
    if a >= b then a else b
  }

  /** Python's `s[:k]`: a negative `k` counts from the end. */
  function SliceTo<T>(s: seq<T>, k: int): (r: seq<T>)
    ensures |r| == if k >= 0 then Min(k, |s|) else Max(0, |s| + k)
    ensures r == s[..|r|]
  {
    if k >= 0 then s[..Min(k, |s|)] else s[..Max(0, |s| + k)]
  }

  /** The content strings of `nodes`, in order. */
  function ContentsOf(nodes: seq<Node>): (cs: seq<string>)
    ensures |cs| == |nodes|
    ensures forall i :: 0 <= i < |nodes| ==> cs[i] == nodes[i].content
  {
    seq(|nodes|, i requires 0 <= i < |nodes| => nodes[i].content)
  }

  /** The set of distinct content strings among `nodes`. */
  function Contents(nodes: seq<Node>): set<string> {
    set n | n in nodes :: n.content
  }

  // ---------------------------------------------------------------------
  // Grouping the retriever runs by query
  // ---------------------------------------------------------------------

  /** The query of every run, in order. */
  function QueriesOf(results: seq<(RunKey, seq<Node>)>): (qs: seq<string>)
    ensures |qs| == |results|
    ensures forall i :: 0 <= i < |results| ==> qs[i] == results[i].0.0
  {
    seq(|results|, i requires 0 <= i < |results| => results[i].0.0)
  }

  /** The concatenation, in order, of the node lists of every run of `query`. */
  function PoolOf(results: seq<(RunKey, seq<Node>)>, query: string): seq<Node>
    decreases |results|
  {
    if results == [] then []
    else
      var n := |results| - 1;
      PoolOf(results[..n], query) + (if results[n].0.0 == query then results[n].1 else [])
  }

  /**
   * The `query_groups` dict after the first `|results|` runs: each query has
   * an entry from its first run on, holding the pool of its runs so far.
   */
  function GroupByQuery(results: seq<(RunKey, seq<Node>)>): (groups: seq<(string, seq<Node>)>)
    ensures IsDict(groups)
    decreases |results|
  {
    if results == [] then []
    else
      var n := |results| - 1;
      var groups := GroupByQuery(results[..n]);
      var query := results[n].0.0;
      PutDict(groups, query, PoolOf(results, query));
      Put(groups, query, PoolOf(results, query))
  }

  // ---------------------------------------------------------------------
  // Fusing the pool of one query
  // ---------------------------------------------------------------------

  /** `sorted(nodes_with_scores, key=lambda x: x.score or 0.0, reverse=True)` */
  function Ranked(pool: seq<Node>): seq<Node> {
    SortDesc(pool, RankKey)
  }

  /**
   * The `fused_scores` dict after the first `|ranked|` positions: each content
   * has an entry from its first occurrence on, holding the fusion formula's
   * sum over the positions seen so far.
   */
  function FusedScores(ranked: seq<Node>): (d: seq<(string, real)>)
    ensures IsDict(d)
    decreases |ranked|
  {
    if ranked == [] then []
    else
      var n := |ranked| - 1;
      var d := FusedScores(ranked[..n]);
      var text := ranked[n].content;
      PutDict(d, text, RrfScore(ranked, text));
      Put(d, text, RrfScore(ranked, text))
  }

  /** The `text_to_node` dict: for each content, the node seen last. */
  function TextToNode(ranked: seq<Node>): (d: seq<(string, Node)>)
    ensures IsDict(d)
    decreases |ranked|
  {
    if ranked == [] then []
    else
      var n := |ranked| - 1;
      PutDict(TextToNode(ranked[..n]), ranked[n].content, ranked[n]);
      Put(TextToNode(ranked[..n]), ranked[n].content, ranked[n])
  }

  /** The fusion formula: the sum of `1 / (rank + 60)` over every position of `text`. */
  function RrfScore(ranked: seq<Node>, text: string): real
    decreases |ranked|
  {
    if ranked == [] then 0.0
    else
      var n := |ranked| - 1;
      RrfScore(ranked[..n], text) + (if ranked[n].content == text then RrfTerm(n) else 0.0)
  }

  /** Position `j` holds `text` and no later position does. */
  predicate IsLastWith(ranked: seq<Node>, j: nat, text: string)
    requires j < |ranked|
  {
    ranked[j].content == text && forall j' :: j < j' < |ranked| ==> ranked[j'].content != text
  }

  /** When the last node does not hold `text`, the last position holding it is the same in the prefix. */
  lemma IsLastWithInit(ranked: seq<Node>, text: string)
    requires ranked != [] && ranked[|ranked| - 1].content != text
    ensures text in ContentsOf(ranked) <==> text in ContentsOf(ranked[..|ranked| - 1])
    ensures forall j :: 0 <= j < |ranked| - 1 && IsLastWith(ranked[..|ranked| - 1], j, text) ==>
      ranked[..|ranked| - 1][j] == ranked[j] && IsLastWith(ranked, j, text)
  {
    var n := |ranked| - 1;
    var prefix := ranked[..n];
    assert ContentsOf(ranked) == ContentsOf(prefix) + [ranked[n].content];
    forall j | 0 <= j < n && IsLastWith(prefix, j, text)
      ensures prefix[j] == ranked[j] && IsLastWith(ranked, j, text)
    {
      forall j' | j < j' < |ranked| ensures ranked[j'].content != text {
        if j' < n {
          assert prefix[j'] == ranked[j'];
        }
      }
    }
  }

  /** The last node of `ranked` whose content is `text`, if there is one. */
  function LastWith(ranked: seq<Node>, text: string): (r: Option<Node>)
    ensures r.None? <==> text !in ContentsOf(ranked)
    ensures r.Some? ==> exists j :: 0 <= j < |ranked| && ranked[j] == r.value && IsLastWith(ranked, j, text)
    decreases |ranked|
  {
    if ranked == [] then None
    else
      var n := |ranked| - 1;
      if ranked[n].content == text then Some(ranked[n])
      else
        IsLastWithInit(ranked, text);
        LastWith(ranked[..n], text)
  }

  /** `sorted(fused_scores.items(), key=lambda x: x[1], reverse=True)` */
  function FusionRanking(pool: seq<Node>): seq<(string, real)> {
    SortDesc(FusedScores(Ranked(pool)), ScoreOf)
  }

  /** The `reranked_nodes` list: each ranked content's node, carrying its fused score. */
  function Rebuild(reranked: seq<(string, real)>, textToNode: seq<(string, Node)>): (nodes: seq<Node>)
    requires forall i :: 0 <= i < |reranked| ==> Get(textToNode, reranked[i].0).Some?
    ensures |nodes| == |reranked|
    ensures forall i :: 0 <= i < |reranked| ==>
      nodes[i] == Get(textToNode, reranked[i].0).value.(score := Some(reranked[i].1))
    decreases |reranked|
  {
    if reranked == [] then []
    else
      var n := |reranked| - 1;
      var node := Get(textToNode, reranked[n].0).value;
      Rebuild(reranked[..n], textToNode) + [node.(score := Some(reranked[n].1))]
  }

  /** The fused list of one query: `reranked_nodes[:similarity_top_k]`. */
  function FuseOne(pool: seq<Node>, topK: int): seq<Node> {
    RankingKeysKnown(pool);
    SliceTo(Rebuild(FusionRanking(pool), TextToNode(Ranked(pool))), topK)
  }

  /** The `query_fusion_results` dict built from the groups in order. */
  function FuseGroups(groups: seq<(string, seq<Node>)>, topK: int): seq<(string, seq<Node>)>
    decreases |groups|
  {
    if groups == [] then []
    else
      var n := |groups| - 1;
      Put(FuseGroups(groups[..n], topK), groups[n].0, FuseOne(groups[n].1, topK))
  }

  /** The result of `fuse_results_per_query(results_dict, top_k)`. */
  function FuseAll(results: seq<(RunKey, seq<Node>)>, topK: int): seq<(string, seq<Node>)> {
    FuseGroups(GroupByQuery(results), topK)
  }

  // ---------------------------------------------------------------------
  // The dictionaries of one pool
  // ---------------------------------------------------------------------

  lemma ContentsOfPrefix(ranked: seq<Node>, n: nat)
    requires n < |ranked|
    ensures ContentsOf(ranked[..n + 1]) == ContentsOf(ranked[..n]) + [ranked[n].content]
    ensures ContentsOf(ranked[..n + 1])[..n] == ContentsOf(ranked[..n])
  {
  }

  /** `fused_scores` has one entry per distinct content, in order of first appearance. */
  lemma {:induction false} FusedScoresKeys(ranked: seq<Node>)
    ensures Keys(FusedScores(ranked)) == Dedup(ContentsOf(ranked))
    decreases |ranked|
  {
    if ranked != [] {
      var n := |ranked| - 1;
      FusedScoresKeys(ranked[..n]);
      assert ranked[..n + 1] == ranked;
      PutKeys(FusedScores(ranked[..n]), ranked[n].content, RrfScore(ranked, ranked[n].content));
      ContentsOfPrefix(ranked, n);
    }
  }

  /** `text_to_node` has the same keys as `fused_scores`. */
  lemma {:induction false} TextToNodeKeys(ranked: seq<Node>)
    ensures Keys(TextToNode(ranked)) == Dedup(ContentsOf(ranked))
    decreases |ranked|
  {
    if ranked != [] {
      var n := |ranked| - 1;
      TextToNodeKeys(ranked[..n]);
      assert ranked[..n + 1] == ranked;
      TextToNodeStep(ranked, n);
      PutKeys(TextToNode(ranked[..n]), ranked[n].content, ranked[n]);
      ContentsOfPrefix(ranked, n);
    }
  }

  /** A content that never occurs scores zero. */
  lemma {:induction false} RrfScoreAbsent(ranked: seq<Node>, text: string)
    requires text !in ContentsOf(ranked)
    ensures RrfScore(ranked, text) == 0.0
    decreases |ranked|
  {
    if ranked != [] {
      var n := |ranked| - 1;
      assert ranked[..n + 1] == ranked;
      ContentsOfPrefix(ranked, n);
      RrfScoreAbsent(ranked[..n], text);
    }
  }

  /** The fused score stored for a content is the fusion formula's sum. */
  lemma {:induction false} FusedScoreOf(ranked: seq<Node>, text: string)
    ensures Get(FusedScores(ranked), text) ==
      if text in ContentsOf(ranked) then Some(RrfScore(ranked, text)) else None
    decreases |ranked|
  {
    if ranked != [] {
      var n := |ranked| - 1;
      var prefix := ranked[..n];
      var d0 := FusedScores(prefix);
      var t := ranked[n].content;
      assert ranked[..n + 1] == ranked;
      ContentsOfPrefix(ranked, n);
      if t == text {
        GetPutSame(d0, t, RrfScore(ranked, t));
      } else {
        FusedScoreOf(prefix, text);
        GetPutOther(d0, t, RrfScore(ranked, t), text);
      }
    }
  }

  /** The node kept for a content is the last node with that content. */
  lemma {:induction false} TextToNodeOf(ranked: seq<Node>, text: string)
    ensures Get(TextToNode(ranked), text) == LastWith(ranked, text)
    decreases |ranked|
  {
    if ranked != [] {
      var n := |ranked| - 1;
      TextToNodeOf(ranked[..n], text);
      if ranked[n].content == text {
        GetPutSame(TextToNode(ranked[..n]), text, ranked[n]);
      } else {
        GetPutOther(TextToNode(ranked[..n]), ranked[n].content, ranked[n], text);
      }
    }
  }

  /** Every entry of the ranking is a pooled content carrying its fused score. */
  lemma RankingEntry(pool: seq<Node>, i: nat)
    requires i < |FusionRanking(pool)|
    ensures FusionRanking(pool)[i].0 in ContentsOf(Ranked(pool))
    ensures FusionRanking(pool)[i].1 == RrfScore(Ranked(pool), FusionRanking(pool)[i].0)
  {
    var ranked := Ranked(pool);
    var d := FusedScores(ranked);
    var e := FusionRanking(pool)[i];
    assert e in multiset(d);
    var a :| 0 <= a < |d| && d[a] == e;
    GetMember(d, a);
    FusedScoreOf(ranked, e.0);
  }

  lemma RankingKeysKnown(pool: seq<Node>)
    ensures forall i :: 0 <= i < |FusionRanking(pool)| ==>
      Get(TextToNode(Ranked(pool)), FusionRanking(pool)[i].0).Some?
  {
    var ranked := Ranked(pool);
    TextToNodeKeys(ranked);
    forall i | 0 <= i < |FusionRanking(pool)|
      ensures Get(TextToNode(ranked), FusionRanking(pool)[i].0).Some?
    {
      RankingEntry(pool, i);
      GetKeys(TextToNode(ranked), FusionRanking(pool)[i].0);
    }
  }

  // ---------------------------------------------------------------------
  // What a query's fused list is
  // ---------------------------------------------------------------------

  /** Entry `i` of the fused list is the last pooled node of the `i`-th ranked content, rescored. */
  lemma FuseOneAt(pool: seq<Node>, topK: int, i: nat)
    requires i < |FuseOne(pool, topK)|
    ensures i < |FusionRanking(pool)|
    ensures LastWith(Ranked(pool), FusionRanking(pool)[i].0).Some?
    ensures FuseOne(pool, topK)[i] ==
      LastWith(Ranked(pool), FusionRanking(pool)[i].0).value.(score := Some(FusionRanking(pool)[i].1))
    ensures FuseOne(pool, topK)[i].content == FusionRanking(pool)[i].0
  {
    var ranking := FusionRanking(pool);
    RankingKeysKnown(pool);
    TextToNodeOf(Ranked(pool), ranking[i].0);
    var node := LastWith(Ranked(pool), ranking[i].0).value;
    var j :| 0 <= j < |Ranked(pool)| && Ranked(pool)[j] == node && IsLastWith(Ranked(pool), j, ranking[i].0);
  }

  /** Every returned node carries its fused score: the fusion formula over the sorted pool. */
  lemma FuseOneScores(pool: seq<Node>, topK: int)
    ensures forall i :: 0 <= i < |FuseOne(pool, topK)| ==>
      FuseOne(pool, topK)[i].score == Some(RrfScore(Ranked(pool), FuseOne(pool, topK)[i].content))
  {
    forall i | 0 <= i < |FuseOne(pool, topK)|
      ensures FuseOne(pool, topK)[i].score == Some(RrfScore(Ranked(pool), FuseOne(pool, topK)[i].content))
    {
      FuseOneAt(pool, topK, i);
      RankingEntry(pool, i);
    }
  }

  /** Two nodes that differ at most in their score. */
  predicate SameNode(a: Node, b: Node) {
    a.nodeId == b.nodeId && a.content == b.content
  }

  /** Apart from its score, every returned node is one of the query's input nodes. */
  lemma FuseOneFromPool(pool: seq<Node>, topK: int)
    ensures forall i :: 0 <= i < |FuseOne(pool, topK)| ==>
      exists j :: 0 <= j < |pool| && SameNode(pool[j], FuseOne(pool, topK)[i])
  {
    var out := FuseOne(pool, topK);
    forall i | 0 <= i < |out| ensures exists j :: 0 <= j < |pool| && SameNode(pool[j], out[i]) {
      FuseOneAt(pool, topK, i);
      var ranked := Ranked(pool);
      var node := LastWith(ranked, FusionRanking(pool)[i].0).value;
      var a :| 0 <= a < |ranked| && ranked[a] == node && IsLastWith(ranked, a, FusionRanking(pool)[i].0);
      assert node in multiset(pool);
      var j :| 0 <= j < |pool| && pool[j] == node;
      assert SameNode(pool[j], out[i]);
    }
  }

  /** The fusion ranking has one entry per distinct content. */
  lemma RankingIsDict(pool: seq<Node>)
    ensures IsDict(FusionRanking(pool))
  {
    SortDescKeysDistinct(FusedScores(Ranked(pool)), ScoreOf);
  }

  /** No content occurs twice in a query's fused list. */
  lemma FuseOneDistinct(pool: seq<Node>, topK: int)
    ensures Distinct(ContentsOf(FuseOne(pool, topK)))
  {
    var out := FuseOne(pool, topK);
    var ranking := FusionRanking(pool);
    RankingIsDict(pool);
    forall i, j | 0 <= i < j < |out| ensures ContentsOf(out)[i] != ContentsOf(out)[j] {
      FuseOneAt(pool, topK, i);
      FuseOneAt(pool, topK, j);
      assert Keys(ranking)[i] != Keys(ranking)[j];
    }
  }

  /** A query's fused list is ordered by non-increasing fused score. */
  lemma FuseOneOrdered(pool: seq<Node>, topK: int)
    ensures forall i :: 0 <= i < |FuseOne(pool, topK)| ==> FuseOne(pool, topK)[i].score.Some?
    ensures forall i, j :: 0 <= i < j < |FuseOne(pool, topK)| ==>
      FuseOne(pool, topK)[i].score.value >= FuseOne(pool, topK)[j].score.value
  {
    var out := FuseOne(pool, topK);
    var ranking := FusionRanking(pool);
    forall i | 0 <= i < |out| ensures out[i].score == Some(ranking[i].1) {
      FuseOneAt(pool, topK, i);
    }
    assert SortedDesc(ranking, ScoreOf);
  }

  /** The first occurrences of the sorted pool's contents are the pool's distinct contents. */
  lemma DedupContents(pool: seq<Node>)
    ensures (set x | x in Dedup(ContentsOf(Ranked(pool)))) == Contents(pool)
  {
    var ranked := Ranked(pool);
    var cs := ContentsOf(ranked);
    var keys := Dedup(cs);
    forall x | x in Contents(pool) ensures x in keys {
      var n :| n in pool && n.content == x;
      assert n in multiset(ranked);
      var a :| 0 <= a < |ranked| && ranked[a] == n;
      assert cs[a] == x;
    }
    forall x | x in keys ensures x in Contents(pool) {
      var a :| 0 <= a < |cs| && cs[a] == x;
      assert ranked[a] in multiset(pool);
    }
  }

  /** The ranking holds exactly the distinct pooled contents. */
  lemma RankingLength(pool: seq<Node>)
    ensures |FusionRanking(pool)| == |Contents(pool)|
  {
    var ranked := Ranked(pool);
    FusedScoresKeys(ranked);
    DistinctCard(Dedup(ContentsOf(ranked)));
    DedupContents(pool);
  }

  /** A query keeps `min(top_k, number of distinct contents)` nodes. */
  lemma FuseOneLength(pool: seq<Node>, topK: int)
    requires topK >= 0
    ensures |FuseOne(pool, topK)| == Min(topK, |Contents(pool)|)
  {
    RankingLength(pool);
  }

  /** Every pooled content has a place in the ranking. */
  lemma RankingHas(pool: seq<Node>, text: string) returns (b: nat)
    requires text in Contents(pool)
    ensures b < |FusionRanking(pool)| && FusionRanking(pool)[b].0 == text
  {
    var ranked := Ranked(pool);
    var ranking := FusionRanking(pool);
    var d := FusedScores(ranked);
    assert text in Keys(d) by {
      DedupContents(pool);
      FusedScoresKeys(ranked);
    }
    var a :| 0 <= a < |d| && Keys(d)[a] == text;
    assert d[a] in multiset(d);
    assert d[a] in ranking;
    b :| 0 <= b < |ranking| && ranking[b] == d[a];
  }

  /** A pooled content missing from the fused list is ranked after the cut. */
  lemma CutOff(pool: seq<Node>, topK: int, text: string) returns (b: nat)
    requires text in Contents(pool)
    requires text !in ContentsOf(FuseOne(pool, topK))
    ensures |FuseOne(pool, topK)| <= b < |FusionRanking(pool)|
    ensures FusionRanking(pool)[b].0 == text
  {
    var ranking := FusionRanking(pool);
    var out := FuseOne(pool, topK);
    b := RankingHas(pool, text);
    forall k | 0 <= k < |out| ensures ranking[k].0 != text {
      FuseOneAt(pool, topK, k);
      assert ContentsOf(out)[k] == ranking[k].0;
    }
  }

  /** A pooled content that was cut off scores no higher than any content that was kept. */
  lemma FuseOneTopK(pool: seq<Node>, topK: int, text: string, i: nat)
    requires text in Contents(pool)
    requires text !in ContentsOf(FuseOne(pool, topK))
    requires i < |FuseOne(pool, topK)|
    ensures RrfScore(Ranked(pool), text) <= RrfScore(Ranked(pool), FuseOne(pool, topK)[i].content)
  {
    var ranking := FusionRanking(pool);
    var b := CutOff(pool, topK, text);
    assert ScoreOf(ranking[i]) >= ScoreOf(ranking[b]);
    FuseOneAt(pool, topK, i);
    RankingEntry(pool, i);
    RankingEntry(pool, b);
  }

  /**
   * Ties keep their order: among contents with equal fused score, the ranking
   * lists them as `fused_scores` does, which is the order of first appearance
   * in the score-sorted pool.
   */
  lemma RankingStable(pool: seq<Node>, v: real)
    ensures WithKey(FusionRanking(pool), ScoreOf, v) == WithKey(FusedScores(Ranked(pool)), ScoreOf, v)
    ensures Keys(FusedScores(Ranked(pool))) == Dedup(ContentsOf(Ranked(pool)))
  {
    SortDescStable(FusedScores(Ranked(pool)), ScoreOf, v);
    FusedScoresKeys(Ranked(pool));
  }

  // ---------------------------------------------------------------------
  // Grouping and the whole result dict
  // ---------------------------------------------------------------------

  lemma QueriesOfPrefix(results: seq<(RunKey, seq<Node>)>, n: nat)
    requires n < |results|
    ensures QueriesOf(results[..n + 1]) == QueriesOf(results[..n]) + [results[n].0.0]
    ensures QueriesOf(results[..n + 1])[..n] == QueriesOf(results[..n])
  {
  }

  /** A query without runs has an empty pool. */
  lemma {:induction false} PoolOfAbsent(results: seq<(RunKey, seq<Node>)>, query: string)
    requires query !in QueriesOf(results)
    ensures PoolOf(results, query) == []
    decreases |results|
  {
    if results != [] {
      var n := |results| - 1;
      assert results[..n + 1] == results;
      QueriesOfPrefix(results, n);
      PoolOfAbsent(results[..n], query);
    }
  }

  /** `query_groups` lists every query once, in order of first appearance. */
  lemma {:induction false} GroupKeys(results: seq<(RunKey, seq<Node>)>)
    ensures Keys(GroupByQuery(results)) == Dedup(QueriesOf(results))
    decreases |results|
  {
    if results != [] {
      var n := |results| - 1;
      var q := results[n].0.0;
      GroupKeys(results[..n]);
      assert results[..n + 1] == results;
      PutKeys(GroupByQuery(results[..n]), q, PoolOf(results, q));
      QueriesOfPrefix(results, n);
    }
  }

  /** A query's group is the concatenation of its runs' node lists, in dict order. */
  lemma {:induction false} GroupPool(results: seq<(RunKey, seq<Node>)>, query: string)
    ensures Get(GroupByQuery(results), query) ==
      if query in QueriesOf(results) then Some(PoolOf(results, query)) else None
    decreases |results|
  {
    if results != [] {
      var n := |results| - 1;
      var prefix := results[..n];
      var g0 := GroupByQuery(prefix);
      var q := results[n].0.0;
      assert results[..n + 1] == results;
      QueriesOfPrefix(results, n);
      if q == query {
        GetPutSame(g0, q, PoolOf(results, q));
      } else {
        GroupPool(prefix, query);
        GetPutOther(g0, q, PoolOf(results, q), query);
        assert PoolOf(results, query) == PoolOf(prefix, query);
      }
    }
  }

  /** `query_fusion_results` has the groups' keys, in the same order. */
  lemma {:induction false} FuseGroupsKeys(groups: seq<(string, seq<Node>)>, topK: int)
    requires IsDict(groups)
    ensures Keys(FuseGroups(groups, topK)) == Keys(groups)
    decreases |groups|
  {
    if groups != [] {
      var n := |groups| - 1;
      DictLast(groups);
      FuseGroupsKeys(groups[..n], topK);
      PutKeys(FuseGroups(groups[..n], topK), groups[n].0, FuseOne(groups[n].1, topK));
    }
  }

  /** Each query of `query_fusion_results` holds the fusion of its group. */
  lemma {:induction false} FuseGroupsGet(groups: seq<(string, seq<Node>)>, topK: int, query: string)
    requires IsDict(groups)
    ensures Get(FuseGroups(groups, topK), query) ==
      if Get(groups, query).Some? then Some(FuseOne(Get(groups, query).value, topK)) else None
    decreases |groups|
  {
    if groups != [] {
      var n := |groups| - 1;
      var prefix := groups[..n];
      var last := groups[n];
      var fused := FuseOne(last.1, topK);
      DictLast(groups);
      FuseGroupsGet(prefix, topK, query);
      assert Get(groups, query) == if last.0 == query then Some(last.1) else Get(prefix, query) by {
        DictLastPut(groups);
        if last.0 == query {
          GetPutSame(prefix, query, last.1);
        } else {
          GetPutOther(prefix, last.0, last.1, query);
        }
      }
      if last.0 == query {
        GetPutSame(FuseGroups(prefix, topK), query, fused);
      } else {
        GetPutOther(FuseGroups(prefix, topK), last.0, fused, query);
      }
    }
  }

  /** Every query of the input appears in the output once, in order of first appearance. */
  lemma FuseAllQueries(results: seq<(RunKey, seq<Node>)>, topK: int)
    ensures Keys(FuseAll(results, topK)) == Dedup(QueriesOf(results))
  {
    FuseGroupsKeys(GroupByQuery(results), topK);
    GroupKeys(results);
  }

  /** Each query's output is the fusion of the concatenation of all its runs. */
  lemma FuseAllPools(results: seq<(RunKey, seq<Node>)>, topK: int, query: string)
    ensures Get(FuseAll(results, topK), query) ==
      if query in QueriesOf(results) then Some(FuseOne(PoolOf(results, query), topK)) else None
  {
    var groups := GroupByQuery(results);
    FuseGroupsGet(groups, topK, query);
    GroupPool(results, query);
  }

  // ---------------------------------------------------------------------
  // The loops of `fuse_results_per_query`
  // ---------------------------------------------------------------------

  /**
   * What the scoring loop does at one position: the content's stored score,
   * or zero, plus the position's term is the formula's sum one position on.
   */
  lemma AccumulateStep(ranked: seq<Node>, rank: nat)
    requires rank < |ranked|
    ensures GetOr(FusedScores(ranked[..rank]), ranked[rank].content, 0.0) + RrfTerm(rank)
      == RrfScore(ranked[..rank + 1], ranked[rank].content)
  {
    var text := ranked[rank].content;
    FusedScoreOf(ranked[..rank], text);
    if text !in ContentsOf(ranked[..rank]) {
      RrfScoreAbsent(ranked[..rank], text);
    }
    RrfScoreStep(ranked, rank, text);
  }

  lemma FusedScoresStep(ranked: seq<Node>, rank: nat)
    requires rank < |ranked|
    ensures FusedScores(ranked[..rank + 1]) ==
      Put(FusedScores(ranked[..rank]), ranked[rank].content, RrfScore(ranked[..rank + 1], ranked[rank].content))
  {
    var seen := ranked[..rank + 1];
    assert seen[..rank] == ranked[..rank];
  }

  lemma RrfScoreStep(ranked: seq<Node>, rank: nat, text: string)
    requires rank < |ranked|
    ensures RrfScore(ranked[..rank + 1], text) ==
      RrfScore(ranked[..rank], text) + (if ranked[rank].content == text then RrfTerm(rank) else 0.0)
  {
    var seen := ranked[..rank + 1];
    assert seen[..rank] == ranked[..rank];
  }

  lemma TextToNodeStep(ranked: seq<Node>, rank: nat)
    requires rank < |ranked|
    ensures TextToNode(ranked[..rank + 1]) == Put(TextToNode(ranked[..rank]), ranked[rank].content, ranked[rank])
  {
    var seen := ranked[..rank + 1];
    assert seen[..rank] == ranked[..rank];
  }

  /**
   * One iteration of the scoring loop, as the code writes it: a missing
   * content first gets `0.0`, then its score grows by the position's term.
   */
  lemma ScoringStep(ranked: seq<Node>, rank: nat)
    requires rank < |ranked|
    ensures var d := FusedScores(ranked[..rank]);
      var text := ranked[rank].content;
      var d1 := if text in Keys(d) then d else Put(d, text, 0.0);
      Get(d1, text).Some? && Put(d1, text, Get(d1, text).value + RrfTerm(rank)) == FusedScores(ranked[..rank + 1])
  {
    var d := FusedScores(ranked[..rank]);
    var text := ranked[rank].content;
    FusedScoresNext(ranked, rank);
    SetDefaultThenPut(d, text, 0.0, GetOr(d, text, 0.0) + RrfTerm(rank));
  }

  lemma FusedScoresNext(ranked: seq<Node>, rank: nat)
    requires rank < |ranked|
    ensures var d := FusedScores(ranked[..rank]);
      var text := ranked[rank].content;
      FusedScores(ranked[..rank + 1]) == Put(d, text, GetOr(d, text, 0.0) + RrfTerm(rank))
  {
    FusedScoresStep(ranked, rank);
    AccumulateStep(ranked, rank);
  }

  /** The scoring loop: walks the sorted pool filling `fused_scores` and `text_to_node`. */
  method ScorePositions(ranked: seq<Node>) returns (fusedScores: seq<(string, real)>, textToNode: seq<(string, Node)>)
    ensures fusedScores == FusedScores(ranked)
    ensures textToNode == TextToNode(ranked)
  {
    fusedScores := [];
    textToNode := [];
    var rank := 0;
    assert ranked[..rank] == [];
    while rank < |ranked|
      invariant rank <= |ranked|
      invariant fusedScores == FusedScores(ranked[..rank])
      invariant textToNode == TextToNode(ranked[..rank])
    {
      var node := ranked[rank];
      var text := node.content;
      var term := RrfTerm(rank);
      ScoringStep(ranked, rank);
      TextToNodeStep(ranked, rank);
      textToNode := Put(textToNode, text, node);
      if text !in Keys(fusedScores) {
        fusedScores := Put(fusedScores, text, 0.0);
      }
      fusedScores := Put(fusedScores, text, Get(fusedScores, text).value + term);
      assert fusedScores == FusedScores(ranked[..rank + 1]);
      assert textToNode == TextToNode(ranked[..rank + 1]);
      rank := rank + 1;
    }
    assert ranked[..rank] == ranked;
  }

  /** The rebuilding loop: looks up each ranked content's node and gives it its fused score. */
  method RebuildNodes(rerankedResults: seq<(string, real)>, textToNode: seq<(string, Node)>)
    returns (rerankedNodes: seq<Node>)
    requires forall k :: 0 <= k < |rerankedResults| ==> Get(textToNode, rerankedResults[k].0).Some?
    ensures rerankedNodes == Rebuild(rerankedResults, textToNode)
  {
    rerankedNodes := [];
    var i := 0;
    while i < |rerankedResults|
      invariant i <= |rerankedResults|
      invariant rerankedNodes == Rebuild(rerankedResults[..i], textToNode)
    {
      var (text, score) := rerankedResults[i];
      var node := Get(textToNode, text).value;
      rerankedNodes := rerankedNodes + [node.(score := Some(score))];
      assert rerankedResults[..i + 1][..i] == rerankedResults[..i];
      i := i + 1;
    }
    assert rerankedResults[..i] == rerankedResults;
  }

  /** The body of the per-query loop: scoring, reranking and truncating one pool. */
  method FuseGroup(nodesWithScores: seq<Node>, topK: int) returns (fused: seq<Node>)
    ensures fused == FuseOne(nodesWithScores, topK)
  {
    var ranked := SortDesc(nodesWithScores, RankKey);
    var fusedScores, textToNode := ScorePositions(ranked);
    var rerankedResults := SortDesc(fusedScores, ScoreOf);
    assert ranked == Ranked(nodesWithScores);
    assert rerankedResults == FusionRanking(nodesWithScores);
    RankingKeysKnown(nodesWithScores);
    var rerankedNodes := RebuildNodes(rerankedResults, textToNode);
    fused := SliceTo(rerankedNodes, topK);
  }

  /**
   * One iteration of the grouping loop, as the code writes it: a new query
   * first gets an empty list, then the run's nodes are appended to it.
   */
  lemma GroupingStep(results: seq<(RunKey, seq<Node>)>, i: nat)
    requires i < |results|
    ensures var g := GroupByQuery(results[..i]);
      var query := results[i].0.0;
      var g1 := if query in Keys(g) then g else Put(g, query, []);
      Get(g1, query).Some? && Put(g1, query, Get(g1, query).value + results[i].1) == GroupByQuery(results[..i + 1])
  {
    var g := GroupByQuery(results[..i]);
    var query := results[i].0.0;
    GroupByQueryNext(results, i);
    SetDefaultThenPut(g, query, [], GetOr(g, query, []) + results[i].1);
  }

  lemma GroupByQueryNext(results: seq<(RunKey, seq<Node>)>, i: nat)
    requires i < |results|
    ensures var g := GroupByQuery(results[..i]);
      var query := results[i].0.0;
      GroupByQuery(results[..i + 1]) == Put(g, query, GetOr(g, query, []) + results[i].1)
  {
    var query := results[i].0.0;
    var seen := results[..i + 1];
    assert seen[..i] == results[..i];
    assert PoolOf(seen, query) == GetOr(GroupByQuery(results[..i]), query, []) + results[i].1 by {
      GroupPool(results[..i], query);
      if query !in QueriesOf(results[..i]) {
        PoolOfAbsent(results[..i], query);
      }
      assert PoolOf(seen, query) == PoolOf(results[..i], query) + results[i].1;
    }
  }

  /** The grouping loop: appends each run's nodes to its query's list in `query_groups`. */
  method GroupRuns(resultsDict: seq<(RunKey, seq<Node>)>) returns (queryGroups: seq<(string, seq<Node>)>)
    ensures queryGroups == GroupByQuery(resultsDict)
  {
    queryGroups := [];
    var i := 0;
    while i < |resultsDict|
      invariant i <= |resultsDict|
      invariant queryGroups == GroupByQuery(resultsDict[..i])
    {
      var query := resultsDict[i].0.0;
      var nodesWithScores := resultsDict[i].1;
      GroupingStep(resultsDict, i);
      if query !in Keys(queryGroups) {
        queryGroups := Put(queryGroups, query, []);
      }
      queryGroups := Put(queryGroups, query, Get(queryGroups, query).value + nodesWithScores);
      assert resultsDict[..i + 1][..i] == resultsDict[..i];
      i := i + 1;
    }
    assert resultsDict[..i] == resultsDict;
  }

  /** `fuse_results_per_query`: group the runs by query, then fuse every group. */
  method FuseResultsPerQuery(resultsDict: seq<(RunKey, seq<Node>)>, similarityTopK: int)
    returns (queryFusionResults: seq<(string, seq<Node>)>)
    ensures queryFusionResults == FuseAll(resultsDict, similarityTopK)
  {
    var queryGroups := GroupRuns(resultsDict);
    queryFusionResults := [];
    var j := 0;
    while j < |queryGroups|
      invariant j <= |queryGroups|
      invariant queryFusionResults == FuseGroups(queryGroups[..j], similarityTopK)
    {
      var (query, nodesWithScores) := queryGroups[j];
      var rerankedNodes := FuseGroup(nodesWithScores, similarityTopK);
      queryFusionResults := Put(queryFusionResults, query, rerankedNodes);
      assert queryGroups[..j + 1][..j] == queryGroups[..j];
      j := j + 1;
    }
    assert queryGroups[..j] == queryGroups;
  }

  // ---------------------------------------------------------------------
  // `perform_searches`: the contents of the fused lists
  // ---------------------------------------------------------------------

  /** The `similarity_top_k` that `perform_searches` passes to the retrievers and to the fusion. */
  const SearchTopK: int := 5

  /** `{query: [node.get_content() for node in nodes] for query, nodes in fused.items()}` */
  function ContentLists(fused: seq<(string, seq<Node>)>): (r: seq<(string, seq<string>)>)
    ensures |r| == |fused|
  {
    if fused == [] then [] else [(fused[0].0, ContentsOf(fused[0].1))] + ContentLists(fused[1..])
  }

  /** The projection keeps the keys and replaces each node list by its contents. */
  lemma {:induction false} ContentListsGet(fused: seq<(string, seq<Node>)>, query: string)
    ensures Keys(ContentLists(fused)) == Keys(fused)
    ensures Get(ContentLists(fused), query) ==
      if Get(fused, query).Some? then Some(ContentsOf(Get(fused, query).value)) else None
    decreases |fused|
  {
    if fused != [] {
      ContentListsGet(fused[1..], query);
    }
  }

  /** The dict `perform_searches` returns for the retriever runs `results`. */
  function SearchResults(results: seq<(RunKey, seq<Node>)>): seq<(string, seq<string>)> {
    ContentLists(FuseAll(results, SearchTopK))
  }

  /**
   * Every searched query has an entry, in order of first appearance, and it
   * lists at most five distinct contents, all drawn from that query's runs;
   * exactly five unless the runs hold fewer distinct contents.
   */
  lemma SearchResultsOf(results: seq<(RunKey, seq<Node>)>, query: string)
    ensures Keys(SearchResults(results)) == Dedup(QueriesOf(results))
    ensures query in QueriesOf(results) <==> Get(SearchResults(results), query).Some?
    ensures query in QueriesOf(results) ==>
      var cs := Get(SearchResults(results), query).value;
      var pool := PoolOf(results, query);
      |cs| == Min(SearchTopK, |Contents(pool)|) && Distinct(cs) &&
      forall i :: 0 <= i < |cs| ==> cs[i] in Contents(pool)
  {
    var fused := FuseAll(results, SearchTopK);
    ContentListsGet(fused, query);
    FuseAllQueries(results, SearchTopK);
    FuseAllPools(results, SearchTopK, query);
    if query in QueriesOf(results) {
      var pool := PoolOf(results, query);
      var out := FuseOne(pool, SearchTopK);
      FuseOneLength(pool, SearchTopK);
      FuseOneDistinct(pool, SearchTopK);
      FuseOneFromPool(pool, SearchTopK);
      forall i | 0 <= i < |out| ensures out[i].content in Contents(pool) {
        var j :| 0 <= j < |pool| && SameNode(pool[j], out[i]);
        assert pool[j] in pool;
      }
    }
  }

  /** The dense retriever's hit of the example below. */
  const DenseHit := Node("n1", "A", Some(0.9))
  /** The sparse retriever's hit of the example below. */
  const SparseHit := Node("n2", "B", Some(0.8))

  /**
   * The rank is taken in the one merged pool, not per retriever: a dense hit
   * "A" scored 0.9 and a sparse hit "B" scored 0.8 are each first in their own
   * run, yet fuse to 1/60 and 1/61.
   */
  lemma MergedPoolRanks()
    ensures FuseAll([(("q", 0), [DenseHit]), (("q", 1), [SparseHit])], SearchTopK) ==
      [("q", [DenseHit.(score := Some(1.0 / 60.0)), SparseHit.(score := Some(1.0 / 61.0))])]
  {
    var groups := [("q", [DenseHit, SparseHit])];
    ExampleGroups();
    ExampleFused();
    assert groups[..0] == [];
    var fused := [DenseHit.(score := Some(1.0 / 60.0)), SparseHit.(score := Some(1.0 / 61.0))];
    assert FuseGroups(groups, SearchTopK) == Put([], "q", fused);
  }

  lemma ExampleGroups()
    ensures GroupByQuery([(("q", 0), [DenseHit]), (("q", 1), [SparseHit])]) == [("q", [DenseHit, SparseHit])]
  {
    var results: seq<(RunKey, seq<Node>)> := [(("q", 0), [DenseHit]), (("q", 1), [SparseHit])];
    var first := results[..1];
    assert first[..0] == [];
    assert PoolOf(first, "q") == [DenseHit];
    assert GroupByQuery(first) == [("q", [DenseHit])];
    assert PoolOf(results, "q") == [DenseHit, SparseHit];
  }

  lemma ExampleRanked()
    ensures Ranked([DenseHit, SparseHit]) == [DenseHit, SparseHit]
  {
    var pool := [DenseHit, SparseHit];
    assert pool[1..] == [SparseHit];
    assert SortDesc([SparseHit], RankKey) == [SparseHit];
  }

  lemma ExampleScores()
    ensures RrfScore([DenseHit, SparseHit][..1], "A") == 1.0 / 60.0
    ensures RrfScore([DenseHit, SparseHit], "B") == 1.0 / 61.0
  {
    var pool := [DenseHit, SparseHit];
    var first := pool[..1];
    assert first == [DenseHit] && first[..0] == [];
    RrfTermValue(0);
    RrfTermValue(1);
    assert RrfScore(first, "B") == 0.0;
  }

  lemma ExampleDicts()
    ensures FusedScores([DenseHit, SparseHit]) == [("A", 1.0 / 60.0), ("B", 1.0 / 61.0)]
    ensures TextToNode([DenseHit, SparseHit]) == [("A", DenseHit), ("B", SparseHit)]
  {
    var pool := [DenseHit, SparseHit];
    var first := pool[..1];
    assert first == [DenseHit] && first[..0] == [];
    ExampleScores();
    var sA, sB := 1.0 / 60.0, 1.0 / 61.0;
    assert FusedScores(first) == [("A", sA)];
    assert [("A", sA)][1..] == [];
    assert Put([("A", sA)], "B", sB) == [("A", sA), ("B", sB)];
    assert TextToNode(first) == [("A", DenseHit)];
    assert [("A", DenseHit)][1..] == [];
    assert Put([("A", DenseHit)], "B", SparseHit) == [("A", DenseHit), ("B", SparseHit)];
  }

  lemma ExampleRanking()
    ensures FusionRanking([DenseHit, SparseHit]) == [("A", 1.0 / 60.0), ("B", 1.0 / 61.0)]
  {
    var scores: seq<(string, real)> := [("A", 1.0 / 60.0), ("B", 1.0 / 61.0)];
    ExampleRanked();
    ExampleDicts();
    assert scores[1..] == [("B", 1.0 / 61.0)];
    assert SortDesc(scores[1..], ScoreOf) == scores[1..];
  }

  lemma ExampleRebuild()
    ensures Rebuild([("A", 1.0 / 60.0), ("B", 1.0 / 61.0)], [("A", DenseHit), ("B", SparseHit)]) ==
      [DenseHit.(score := Some(1.0 / 60.0)), SparseHit.(score := Some(1.0 / 61.0))]
  {
    var sA, sB := 1.0 / 60.0, 1.0 / 61.0;
    var scores: seq<(string, real)> := [("A", sA), ("B", sB)];
    var ttn := [("A", DenseHit), ("B", SparseHit)];
    assert Get(ttn, "A") == Some(DenseHit);
    assert Get(ttn, "B") == Some(SparseHit);
    assert scores[..1] == [("A", sA)] && scores[..1][..0] == [];
    assert Rebuild(scores[..1], ttn) == [DenseHit.(score := Some(sA))];
  }

  lemma ExampleFused()
    ensures FuseOne([DenseHit, SparseHit], SearchTopK) ==
      [DenseHit.(score := Some(1.0 / 60.0)), SparseHit.(score := Some(1.0 / 61.0))]
  {
    ExampleRanked();
    ExampleDicts();
    ExampleRanking();
    ExampleRebuild();
  }
}
