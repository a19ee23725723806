/** The fetch-and-dedupe loop of src/query/keyword_searcher.rs. The text index is given by the full list of hits a
    query has; asking it for the top `limit` documents yields the first `limit` of them. */
module KeywordSearch {
  import opened Orders
  import opened RetrievalCommon
  import opened FetchedPrefix
  import opened CutTies

  lemma SingleBest(b: SearchResult)
    ensures Bests([b]) == {b}
  {
    assert IsBest([b], b) by { assert [b][0] == b; }
  }

  lemma TwoBests(a: SearchResult, b: SearchResult)
    requires a.docId != b.docId
    ensures Bests([b, a]) == {a, b}
  {
    assert IsBest([b, a], b) by { assert [b, a][0] == b; }
    assert IsBest([b, a], a) by { assert [b, a][1] == a; }
  }

  /** With a tie across the cut the loop may stop with another of the tied documents: for "b" and "a" with one score,
      "b" first in the index and one result wanted, it returns "b", while the complete ranking starts with "a". */
  lemma TieAcrossCutMatters(a: SearchResult, b: SearchResult, maxDocs: nat)
    requires a.docId == "a" && b.docId == "b" && a.score == b.score && maxDocs >= 2
    ensures ByScore([b, a]) && FetchLoop([b, a], maxDocs, 1) == [b] && Cut(Deduped([b, a]), 1) == [a]
  {
    hide Bests, Ranking;
    RankingIsTotal();
    DistinctIdsDoNotTie({b});
    DistinctIdsDoNotTie({a, b});
    SingleBest(b);
    TwoBests(a, b);
    assert Cut([b, a], 1) == [b];
    OneRanking(RanksUpTo, {b}, [b]);
    OneRanking(RanksUpTo, {a, b}, [a, b]);
    assert StopFrom([b, a], maxDocs, 1, 0) == 0;
  }

  /** `search_shard`: double the fetch until it yields `topK` distinct documents or is the whole index. `CutTies` says
      exactly when the result does not depend on the order of equal scores. */
  method SearchShard(hits: seq<SearchResult>, maxDocs: nat, topK: nat) returns (results: seq<SearchResult>)
    requires ByScore(hits) && |hits| <= maxDocs && topK >= 1
    ensures results == FetchLoop(hits, maxDocs, topK)
    ensures multiset(results) <= multiset(Bests(hits)) && Sorted(RanksUpTo, results)
    ensures |results| == Min(topK, |Deduped(hits)|)
    ensures Scores(results) == Scores(Cut(Deduped(hits), topK))
    ensures !TieMayCut(hits, maxDocs, topK) || NoTieAcrossCut(Deduped(hits), topK) ==>
        results == Cut(Deduped(hits), topK)
  {
    hide Deduped, Bests, NoTieAcrossCut, Cut, Enough, TieMayCut, LoopIsComplete;
    var limit := Min(topK, if maxDocs == 0 then 1 else maxDocs);
    results := DedupeBestByDocId(Cut(hits, limit), topK);
    ghost var i := 0;
    while !(|results| >= topK || limit >= maxDocs)
      invariant 1 <= limit && limit == LimitAt(maxDocs, topK, i)
      invariant results == Cut(Deduped(Cut(hits, limit)), topK)
      invariant StopFrom(hits, maxDocs, topK, 0) == StopFrom(hits, maxDocs, topK, i)
      decreases maxDocs - limit
    {
      EnoughMeans(hits, maxDocs, topK, limit, results);
      limit := Min(2 * limit, maxDocs);
      i := i + 1;
      results := DedupeBestByDocId(Cut(hits, limit), topK);
    }
    EnoughMeans(hits, maxDocs, topK, limit, results);
    EnoughFetched(hits, maxDocs, topK, limit, results);
    LoopIsCompleteExactly(hits, maxDocs, topK);
    if !TieMayCut(hits, maxDocs, topK) {
      CompleteHere(hits, maxDocs, topK);
    }
  }

  lemma CompleteHere(hits: seq<SearchResult>, maxDocs: nat, topK: nat)
    requires topK >= 1 && ByScore(hits) && LoopIsComplete(hits, maxDocs, topK)
    ensures FetchLoop(hits, maxDocs, topK) == Cut(Deduped(hits), topK)
  {
  }

  /** The loop's test on what it has so far. */
  lemma EnoughMeans(hits: seq<SearchResult>, maxDocs: nat, topK: nat, limit: nat, results: seq<SearchResult>)
    requires results == Cut(Deduped(Cut(hits, limit)), topK)
    ensures Enough(hits, maxDocs, topK, limit) <==> |results| >= topK || limit >= maxDocs
  {
    hide Ranking, Bests;
    RankingIsTotal();
    RankingFacts(RanksUpTo, Bests(Cut(hits, limit)));
  }
}
