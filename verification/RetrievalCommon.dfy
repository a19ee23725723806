/** The shared ranking helper of src/query/retrieval_common.rs: the best result per doc_id, sorted and cut.
    Scores stand for their position in the order of `f32::total_cmp`. */
module RetrievalCommon {
  import opened Orders

  datatype SearchResult = SearchResult(docId: string, score: int, payload: nat)

  /** `compare_search_results`: descending score, then ascending doc_id. */
  predicate RanksUpTo(left: SearchResult, right: SearchResult) {
    left.score > right.score || (left.score == right.score && StringLe(left.docId, right.docId))
  }

  lemma RankingIsTotal()
    ensures TotalPreorder(RanksUpTo)
  {
    forall x: SearchResult, y: SearchResult
      ensures RanksUpTo(x, y) || RanksUpTo(y, x)
    {
      StringLeTotal(x.docId, y.docId);
    }
    forall x: SearchResult, y: SearchResult, z: SearchResult | RanksUpTo(x, y) && RanksUpTo(y, z)
      ensures RanksUpTo(x, z)
    {
      if x.score == z.score {
        StringLeTransitive(x.docId, y.docId, z.docId);
      }
    }
  }

  // ----- one result per doc_id -----

  /** Every value is stored under its own doc_id. */
  ghost predicate ById(m: map<string, SearchResult>) {
    forall id :: id in m ==> m[id].docId == id
  }

  ghost predicate DistinctIds(s: set<SearchResult>) {
    forall x, y :: x in s && y in s && x.docId == y.docId ==> x == y
  }

  /** `x` is the first of the best-scoring results with its doc_id. */
  ghost predicate IsBest(results: seq<SearchResult>, x: SearchResult) {
    exists i ::
      && 0 <= i < |results| && results[i] == x
      && (forall j :: 0 <= j < i && results[j].docId == x.docId ==> results[j].score < x.score)
      && (forall j :: i < j < |results| && results[j].docId == x.docId ==> results[j].score <= x.score)
  }

  ghost function Bests(results: seq<SearchResult>): set<SearchResult> {
    set x | x in results && IsBest(results, x)
  }

  lemma BestsAreDistinct(results: seq<SearchResult>)
    ensures DistinctIds(Bests(results))
  {
  }

  /** The map after `results`: the first best result of each doc_id, and nothing else. */
  ghost predicate HoldsBests(results: seq<SearchResult>, m: map<string, SearchResult>) {
    && ById(m)
    && (forall id :: id in m ==> IsBest(results, m[id]))
    && (forall i :: 0 <= i < |results| ==> results[i].docId in m)
  }

  lemma StillBest(results: seq<SearchResult>, next: SearchResult, x: SearchResult)
    requires IsBest(results, x) && (x.docId == next.docId ==> x.score >= next.score)
    ensures IsBest(results + [next], x)
  {
    var i :|
      && 0 <= i < |results| && results[i] == x
      && (forall j :: 0 <= j < i && results[j].docId == x.docId ==> results[j].score < x.score)
      && (forall j :: i < j < |results| && results[j].docId == x.docId ==> results[j].score <= x.score);
    assert (results + [next])[i] == x;
  }

  lemma BecomesBest(results: seq<SearchResult>, m: map<string, SearchResult>, next: SearchResult)
    requires HoldsBests(results, m) && (next.docId in m ==> m[next.docId].score < next.score)
    ensures IsBest(results + [next], next)
  {
    var r := results + [next];
    assert r[|results|] == next;
    forall j | 0 <= j < |results| && r[j].docId == next.docId
      ensures r[j].score < next.score
    {
      assert results[j].docId in m;
      var _ := BestIsHighest(results, m[next.docId], j);
    }
  }

  lemma BestIsHighest(results: seq<SearchResult>, x: SearchResult, j: nat) returns (i: nat)
    requires IsBest(results, x) && j < |results| && results[j].docId == x.docId
    ensures results[j].score <= x.score && i < |results| && results[i] == x
  {
    i :|
      && 0 <= i < |results| && results[i] == x
      && (forall j :: 0 <= j < i && results[j].docId == x.docId ==> results[j].score < x.score)
      && (forall j :: i < j < |results| && results[j].docId == x.docId ==> results[j].score <= x.score);
  }

  lemma UpdateKeepsBests(results: seq<SearchResult>, m: map<string, SearchResult>, next: SearchResult)
    requires HoldsBests(results, m)
    ensures HoldsBests(results + [next],
        if next.docId in m && m[next.docId].score >= next.score then m else m[next.docId := next])
  {
    hide IsBest;
    var r := results + [next];
    var m' := if next.docId in m && m[next.docId].score >= next.score then m else m[next.docId := next];
    forall id | id in m'
      ensures IsBest(r, m'[id])
    {
      if m'[id] == next && m' != m {
        BecomesBest(results, m, next);
      } else {
        StillBest(results, next, m[id]);
      }
    }
  }

  lemma MapValuesAreBests(results: seq<SearchResult>, m: map<string, SearchResult>)
    requires HoldsBests(results, m)
    ensures m.Values == Bests(results)
  {
    forall x | x in m.Values
      ensures x in Bests(results)
    {
    }
    forall x | x in Bests(results)
      ensures x in m.Values
    {
      assert x.docId in m;
      assert m[x.docId] in Bests(results);
      BestsAreDistinct(results);
    }
  }

  // ----- the ranked list -----

  lemma DistinctIdsDoNotTie(s: set<SearchResult>)
    requires DistinctIds(s)
    ensures NoTiesIn(RanksUpTo, s)
  {
    forall x, y | x in s && y in s && RanksUpTo(x, y) && RanksUpTo(y, x)
      ensures x == y
    {
      StringLeTotal(x.docId, y.docId);
    }
  }

  /** The complete deduplicated ranking. */
  ghost function Deduped(results: seq<SearchResult>): seq<SearchResult> {
    Ranking(RanksUpTo, Bests(results))
  }

  function Cut<T>(s: seq<T>, k: nat): seq<T> {
    s[..Min(k, |s|)]
  }

  /** In scores and ids: descending score, then ascending doc_id. */
  predicate Before(x: SearchResult, y: SearchResult) {
    x.score > y.score || (x.score == y.score && StringLe(x.docId, y.docId))
  }

  /** The doc_id of `x` is among `ranked`, or all `topK` places are taken by results that come before `x`. */
  ghost predicate Placed(x: SearchResult, ranked: seq<SearchResult>, topK: nat) {
    || (exists i :: 0 <= i < |ranked| && ranked[i].docId == x.docId)
    || (|ranked| == topK && forall i :: 0 <= i < |ranked| ==> Before(ranked[i], x))
  }

  lemma CutInOrder(results: seq<SearchResult>, m: map<string, SearchResult>, all: seq<SearchResult>, topK: nat)
    requires HoldsBests(results, m) && Sorted(RanksUpTo, all) && multiset(all) == multiset(m.Values)
    ensures
      var ranked := all[..Min(topK, |all|)];
      && (forall x :: x in ranked ==> IsBest(results, x))
      && (forall i, j :: 0 <= i < j < |ranked| ==> ranked[i].docId != ranked[j].docId && Before(ranked[i], ranked[j]))
      && (forall i :: 0 <= i < |results| ==> Placed(results[i], ranked, topK))
  {
    hide HoldsBests, Sorted, IsBest, Before, Placed, Bests;
    MapValuesAreBests(results, m);
    DedupedInOrder(results, all);
    forall i | 0 <= i < |results|
      ensures Placed(results[i], all[..Min(topK, |all|)], topK)
    {
      BestIsPlaced(results, m, i, all, topK);
    }
  }

  lemma DedupedInOrder(results: seq<SearchResult>, all: seq<SearchResult>)
    requires Sorted(RanksUpTo, all) && multiset(all) == multiset(Bests(results))
    ensures forall i :: 0 <= i < |all| ==> IsBest(results, all[i])
    ensures forall i, j :: 0 <= i < j < |all| ==> all[i].docId != all[j].docId && Before(all[i], all[j])
  {
    hide IsBest, Sorted;
    forall i | 0 <= i < |all|
      ensures all[i] in Bests(results)
    {
      assert all[i] in multiset(all);
    }
    BestsAreDistinct(results);
    forall i, j | 0 <= i < j < |all|
      ensures all[i].docId != all[j].docId && Before(all[i], all[j])
    {
      OncePlaced(all, Bests(results), i, j);
      InOrder(all, i, j);
    }
  }

  lemma InOrder(all: seq<SearchResult>, i: nat, j: nat)
    requires Sorted(RanksUpTo, all) && i < j < |all|
    ensures Before(all[i], all[j])
  {
  }

  lemma OncePlaced<T>(list: seq<T>, s: set<T>, i: nat, j: nat)
    requires multiset(list) == multiset(s) && i < j < |list|
    ensures list[i] != list[j]
  {
    assert list == list[..i] + [list[i]] + list[i + 1..j] + [list[j]] + list[j + 1..];
    assert multiset(s)[list[i]] <= 1;
  }

  lemma BestIsPlaced(results: seq<SearchResult>, m: map<string, SearchResult>, k: nat, all: seq<SearchResult>,
      topK: nat)
    requires k < |results| && HoldsBests(results, m) && Sorted(RanksUpTo, all) && multiset(all) == multiset(m.Values)
    ensures Placed(results[k], all[..Min(topK, |all|)], topK)
  {
    hide IsBest, Sorted;
    var best := m[results[k].docId];
    var _ := BestIsHighest(results, best, k);
    assert best in multiset(m.Values);
    assert best in all;
    var p :| 0 <= p < |all| && all[p] == best;
    if p < topK {
      assert all[..Min(topK, |all|)][p] == best;
    } else {
      forall i | 0 <= i < topK
        ensures Before(all[i], results[k])
      {
        InOrder(all, i, p);
      }
    }
  }

  /** The first `topK` of the ranking of the best result per doc_id. */
  method DedupeBestByDocId(results: seq<SearchResult>, topK: nat) returns (ranked: seq<SearchResult>)
    ensures ranked == Cut(Deduped(results), topK)
    ensures |ranked| <= topK && forall x :: x in ranked ==> IsBest(results, x)
    ensures forall i, j :: 0 <= i < j < |ranked| ==> ranked[i].docId != ranked[j].docId && Before(ranked[i], ranked[j])
    ensures forall i :: 0 <= i < |results| ==> Placed(results[i], ranked, topK)
  {
    hide HoldsBests, Bests, Ranking, IsBest, Placed, Before, Sorted;
    var deduped: map<string, SearchResult> := map[];
    EmptyHoldsBests();
    for i := 0 to |results|
      invariant HoldsBests(results[..i], deduped)
    {
      var result := results[i];
      UpdateKeepsBests(results[..i], deduped, result);
      assert results[..i] + [result] == results[..i + 1];
      if result.docId in deduped && deduped[result.docId].score >= result.score {
      } else {
        deduped := deduped[result.docId := result];
      }
    }
    assert results[..|results|] == results;
    MapValuesAreBests(results, deduped);
    var values := InAnyOrder(deduped.Values);
    ranked := Sort(RanksUpTo, values);
    RankingIsTotal();
    SortSorts(RanksUpTo, values);
    BestsAreDistinct(results);
    DistinctIdsDoNotTie(Bests(results));
    OneRanking(RanksUpTo, Bests(results), ranked);
    ghost var all := ranked;
    ranked := ranked[..Min(topK, |ranked|)];
    CutInOrder(results, deduped, all, topK);
  }

  lemma EmptyHoldsBests()
    ensures HoldsBests([], map[])
  {
  }
}
