/** Reciprocal rank fusion of src/query/ranker.rs, over exact reals. */
module Ranker {
  import opened Wrappers
  import opened Orders

  datatype Source = Vector | Keyword | Hybrid

  datatype SearchResult = SearchResult(docId: string, score: real, source: Source, text: string,
                                       metadata: Option<map<string, string>>, citation: Option<string>)

  /** Descending score, then ascending doc_id. */
  predicate RanksUpTo(left: SearchResult, right: SearchResult) {
    left.score > right.score || (left.score == right.score && StringLe(left.docId, right.docId))
  }

  // ----- specification -----

  /** `compute_rrf_score`: ranks start at 1. */
  function RrfScore(k: real, rank: nat): (score: real)
    requires k > 0.0 && rank >= 1
    ensures score > 0.0 && score * (k + rank as real) == 1.0
  {
    1.0 / (k + rank as real)
  }

  /** The sum of 1/(k + rank) over every place of `id` in `list`. */
  function ScoreIn(k: real, list: seq<SearchResult>, id: string): real
    requires k > 0.0
  {
    if list == [] then 0.0
    else
      ScoreIn(k, list[..|list| - 1], id) + if list[|list| - 1].docId == id then RrfScore(k, |list|) else 0.0
  }

  /** Existing keys win. */
  function MergedMetadata(existing: Option<map<string, string>>,
      incoming: Option<map<string, string>>): Option<map<string, string>> {
    match (existing, incoming)
    case (Some(e), Some(i)) => Some(i + e)
    case (None, Some(_)) => incoming
    case _ => existing
  }

  function MergedPayload(existing: SearchResult, incoming: SearchResult): SearchResult {
    existing.(metadata := MergedMetadata(existing.metadata, incoming.metadata),
    citation := if existing.citation.None? then incoming.citation else existing.citation)
  }

  function First(list: seq<SearchResult>, id: string): Option<SearchResult> {
    if list == [] then None
    else
      var before := First(list[..|list| - 1], id);
      if before.None? && list[|list| - 1].docId == id then Some(list[|list| - 1]) else before
  }

  /** The payload kept for `id`: its first vector result, then every keyword result merged into it. */
  function Payload(vector: seq<SearchResult>, keyword: seq<SearchResult>, id: string): Option<SearchResult> {
    if keyword == [] then First(vector, id)
    else
      var last, before := keyword[|keyword| - 1], Payload(vector, keyword[..|keyword| - 1], id);
      if last.docId != id then before
      else match before
        case None => Some(last)
        case Some(existing) => Some(MergedPayload(existing, last))
  }

  function Ids(list: seq<SearchResult>): set<string> {
    set r | r in list :: r.docId
  }

  lemma {:induction false} FirstFound(list: seq<SearchResult>, id: string)
    ensures id in Ids(list) <==> First(list, id).Some?
    ensures First(list, id).Some? ==> First(list, id).value.docId == id && First(list, id).value in list
  {
    if list != [] {
      FirstFound(list[..|list| - 1], id);
      assert list == list[..|list| - 1] + [list[|list| - 1]];
    }
  }

  lemma {:induction false} PayloadFound(vector: seq<SearchResult>, keyword: seq<SearchResult>, id: string)
    ensures id in Ids(vector) + Ids(keyword) <==> Payload(vector, keyword, id).Some?
    ensures Payload(vector, keyword, id).Some? ==> Payload(vector, keyword, id).value.docId == id
  {
    if keyword == [] {
      FirstFound(vector, id);
    } else {
      PayloadFound(vector, keyword[..|keyword| - 1], id);
      assert keyword == keyword[..|keyword| - 1] + [keyword[|keyword| - 1]];
    }
  }

  /** What the fused list holds for `id`. */
  function Fused(k: real, vector: seq<SearchResult>, keyword: seq<SearchResult>, id: string): (r: SearchResult)
    requires k > 0.0 && id in Ids(vector) + Ids(keyword)
    ensures r.docId == id
  {
    PayloadFound(vector, keyword, id);
    Payload(vector, keyword, id).value.(score := ScoreIn(k, vector, id) + ScoreIn(k, keyword, id), source := Hybrid)
  }

  ghost function FusedSet(k: real, vector: seq<SearchResult>, keyword: seq<SearchResult>): set<SearchResult>
    requires k > 0.0
  {
    set id | id in Ids(vector) + Ids(keyword) :: Fused(k, vector, keyword, id)
  }

  lemma RankingIsTotal()
    ensures TotalPreorder(RanksUpTo)
  {
    forall x: SearchResult, y: SearchResult
      ensures RanksUpTo(x, y) || RanksUpTo(y, x)
    {
      StringLeTotal(x.docId, y.docId);
    }
    forall x: SearchResult, y: SearchResult, z: SearchResult | RanksUpTo(x, y) && RanksUpTo(y, z)
      ensures RanksUpTo(x, z)
    {
      if x.score == z.score {
        StringLeTransitive(x.docId, y.docId, z.docId);
      }
    }
  }

  lemma FusedDoNotTie(k: real, vector: seq<SearchResult>, keyword: seq<SearchResult>)
    requires k > 0.0
    ensures NoTiesIn(RanksUpTo, FusedSet(k, vector, keyword))
  {
    var s := FusedSet(k, vector, keyword);
    forall x, y | x in s && y in s && RanksUpTo(x, y) && RanksUpTo(y, x)
      ensures x == y
    {
      StringLeTotal(x.docId, y.docId);
      assert x.docId == y.docId;
    }
  }

  // ----- the two accumulating maps -----

  ghost predicate ScoresHold(m: map<string, real>, k: real, vector: seq<SearchResult>, keyword: seq<SearchResult>)
    requires k > 0.0
  {
    && m.Keys == Ids(vector) + Ids(keyword)
    && forall id :: id in m ==> m[id] == ScoreIn(k, vector, id) + ScoreIn(k, keyword, id)
  }

  ghost predicate DocsHold(m: map<string, SearchResult>, vector: seq<SearchResult>, keyword: seq<SearchResult>) {
    && m.Keys == Ids(vector) + Ids(keyword)
    && forall id :: id in m ==> Payload(vector, keyword, id) == Some(m[id])
  }

  lemma {:induction false} AbsentScoresZero(k: real, list: seq<SearchResult>, id: string)
    requires k > 0.0 && id !in Ids(list)
    ensures ScoreIn(k, list, id) == 0.0
  {
    if list != [] {
      assert list == list[..|list| - 1] + [list[|list| - 1]];
      AbsentScoresZero(k, list[..|list| - 1], id);
    }
  }

  lemma IdsOfAppended(list: seq<SearchResult>, r: SearchResult)
    ensures Ids(list + [r]) == Ids(list) + {r.docId}
  {
    var longer := list + [r];
    assert longer[|list|] == r;
    forall x | x in list
      ensures x in longer
    {
    }
  }

  /** `*rrf_scores.entry(doc_id).or_insert(0.0) += compute_rrf_score(rank)`, for a result of the vector list. */
  lemma VectorScoreStep(m: map<string, real>, k: real, vector: seq<SearchResult>, r: SearchResult)
    requires k > 0.0 && ScoresHold(m, k, vector, [])
    ensures ScoresHold(m[r.docId := (if r.docId in m then m[r.docId] else 0.0) + RrfScore(k, |vector| + 1)], k,
        vector + [r], [])
  {
    IdsOfAppended(vector, r);
    assert (vector + [r])[..|vector|] == vector;
    if r.docId !in m {
      AbsentScoresZero(k, vector, r.docId);
    }
  }

  /** The same for the keyword list. */
  lemma KeywordScoreStep(m: map<string, real>, k: real, vector: seq<SearchResult>, keyword: seq<SearchResult>,
      r: SearchResult)
    requires k > 0.0 && ScoresHold(m, k, vector, keyword)
    ensures ScoresHold(m[r.docId := (if r.docId in m then m[r.docId] else 0.0) + RrfScore(k, |keyword| + 1)], k, vector,
        keyword + [r])
  {
    IdsOfAppended(keyword, r);
    assert (keyword + [r])[..|keyword|] == keyword;
    if r.docId !in m {
      AbsentScoresZero(k, vector, r.docId);
      AbsentScoresZero(k, keyword, r.docId);
    }
  }

  /** `doc_map.entry(doc_id).or_insert(result)`. */
  lemma VectorDocStep(m: map<string, SearchResult>, vector: seq<SearchResult>, r: SearchResult)
    requires DocsHold(m, vector, [])
    ensures DocsHold(if r.docId in m then m else m[r.docId := r], vector + [r], [])
  {
    IdsOfAppended(vector, r);
    assert (vector + [r])[..|vector|] == vector;
    PayloadFound(vector, [], r.docId);
  }

  lemma KeywordDocStep(m: map<string, SearchResult>, vector: seq<SearchResult>, keyword: seq<SearchResult>,
      r: SearchResult)
    requires DocsHold(m, vector, keyword)
    ensures DocsHold(m[r.docId := if r.docId in m then MergedPayload(m[r.docId], r) else r], vector, keyword + [r])
  {
    IdsOfAppended(keyword, r);
    assert (keyword + [r])[..|keyword|] == keyword;
    PayloadFound(vector, keyword, r.docId);
  }

  // ----- the code -----

  /** `merge_metadata`: `or_insert` every incoming entry, in whatever order the map yields them. */
  method MergeMetadata(existing: Option<map<string, string>>, incoming: Option<map<string, string>>)
      returns (merged: Option<map<string, string>>)
    ensures merged == MergedMetadata(existing, incoming)
  {
    match (existing, incoming)
    case (Some(e), Some(i)) =>
      var result, todo := e, i.Keys;
      while todo != {}
        invariant todo <= i.Keys
        invariant forall key :: key in result <==> key in e || (key in i && key !in todo)
        invariant forall key :: key in result ==> result[key] == if key in e then e[key] else i[key]
      {
        var key :| key in todo;
        if key !in result {
          result := result[key := i[key]];
        }
        todo := todo - {key};
      }
      assert result == i + e;
      merged := Some(result);
    case (None, Some(_)) =>
      merged := incoming;
    case (_, None) =>
      merged := existing;
  }

  method Accumulate(k: real, vector: seq<SearchResult>, keyword: seq<SearchResult>)
    returns (rrfScores: map<string, real>, docMap: map<string, SearchResult>)
    requires k > 0.0
    ensures ScoresHold(rrfScores, k, vector, keyword) && DocsHold(docMap, vector, keyword)
  {
    hide ScoresHold, DocsHold;
    rrfScores, docMap := map[], map[];
    NothingHolds(k);
    for i := 0 to |vector|
      invariant ScoresHold(rrfScores, k, vector[..i], []) && DocsHold(docMap, vector[..i], [])
    {
      var result := vector[i];
      assert vector[..i] + [result] == vector[..i + 1];
      VectorScoreStep(rrfScores, k, vector[..i], result);
      VectorDocStep(docMap, vector[..i], result);
      rrfScores := rrfScores[result.docId := (if result.docId in rrfScores then rrfScores[result.docId] else 0.0) +
          RrfScore(k, i + 1)];
      if result.docId !in docMap {
        docMap := docMap[result.docId := result];
      }
    }
    assert vector[..|vector|] == vector && keyword[..0] == [];
    for i := 0 to |keyword|
      invariant ScoresHold(rrfScores, k, vector, keyword[..i]) && DocsHold(docMap, vector, keyword[..i])
    {
      var result := keyword[i];
      assert keyword[..i] + [result] == keyword[..i + 1];
      KeywordScoreStep(rrfScores, k, vector, keyword[..i], result);
      KeywordDocStep(docMap, vector, keyword[..i], result);
      rrfScores := rrfScores[result.docId := (if result.docId in rrfScores then rrfScores[result.docId] else 0.0) +
          RrfScore(k, i + 1)];
      if result.docId in docMap {
        var existing := docMap[result.docId];
        var metadata := MergeMetadata(existing.metadata, result.metadata);
        docMap := docMap[result.docId := existing.(metadata := metadata,
          citation := if existing.citation.None? then result.citation else existing.citation)];
      } else {
        docMap := docMap[result.docId := result];
      }
    }
    assert keyword[..|keyword|] == keyword;
  }

  lemma NothingHolds(k: real)
    requires k > 0.0
    ensures ScoresHold(map[], k, [], []) && DocsHold(map[], [], [])
  {
  }

  /** `fuse`: the one ranking of the fused entries, whatever order the maps are iterated in. */
  method Fuse(k: real, vector: seq<SearchResult>, keyword: seq<SearchResult>) returns (fused: seq<SearchResult>)
    requires k > 0.0
    ensures fused == Ranking(RanksUpTo, FusedSet(k, vector, keyword))
    ensures forall i, j :: 0 <= i < j < |fused| ==>
        fused[i].score > fused[j].score
        || (fused[i].score == fused[j].score && StringLe(fused[i].docId, fused[j].docId)
           && fused[i].docId != fused[j].docId)
    ensures forall r :: r in fused ==>
        r.source == Hybrid && r.score == ScoreIn(k, vector, r.docId) + ScoreIn(k, keyword, r.docId)
    ensures forall id :: id in Ids(vector) + Ids(keyword) <==> exists r :: r in fused && r.docId == id
  {
    hide FusedSet, Ranking, ScoreIn, Ids;
    var rrfScores, docMap := Accumulate(k, vector, keyword);
    var entries := set id | id in rrfScores :: docMap[id].(score := rrfScores[id], source := Hybrid);
    EntriesAreFused(k, vector, keyword, rrfScores, docMap);
    var values := InAnyOrder(entries);
    fused := Sort(RanksUpTo, values);
    RankingIsTotal();
    SortSorts(RanksUpTo, values);
    FusedDoNotTie(k, vector, keyword);
    OneRanking(RanksUpTo, FusedSet(k, vector, keyword), fused);
    FusedInOrder(k, vector, keyword, fused);
  }

  /** In scores and ids: strictly by descending score and ascending id, each entry with its sum. */
  lemma FusedInOrder(k: real, vector: seq<SearchResult>, keyword: seq<SearchResult>, fused: seq<SearchResult>)
    requires k > 0.0 && multiset(fused) == multiset(FusedSet(k, vector, keyword)) && Sorted(RanksUpTo, fused)
    ensures forall i, j :: 0 <= i < j < |fused| ==>
        fused[i].score > fused[j].score
        || (fused[i].score == fused[j].score && StringLe(fused[i].docId, fused[j].docId)
           && fused[i].docId != fused[j].docId)
    ensures forall r :: r in fused ==>
        r.source == Hybrid && r.score == ScoreIn(k, vector, r.docId) + ScoreIn(k, keyword, r.docId)
    ensures forall id :: id in Ids(vector) + Ids(keyword) <==> exists r :: r in fused && r.docId == id
  {
    hide Sorted;
    var s := FusedSet(k, vector, keyword);
    forall r | r in fused
      ensures r in s && r.source == Hybrid && r.score == ScoreIn(k, vector, r.docId) + ScoreIn(k, keyword, r.docId)
    {
      assert r in multiset(fused);
    }
    forall i, j | 0 <= i < j < |fused|
      ensures fused[i].score > fused[j].score
          || (fused[i].score == fused[j].score && StringLe(fused[i].docId, fused[j].docId)
             && fused[i].docId != fused[j].docId)
    {
      FusedPlaces(k, vector, keyword, fused, i, j);
    }
    forall id
      ensures id in Ids(vector) + Ids(keyword) <==> exists r :: r in fused && r.docId == id
    {
      if id in Ids(vector) + Ids(keyword) {
        assert Fused(k, vector, keyword, id) in multiset(fused);
      }
    }
  }

  lemma FusedPlaces(k: real, vector: seq<SearchResult>, keyword: seq<SearchResult>, fused: seq<SearchResult>, i: nat,
      j: nat)
    requires k > 0.0 && multiset(fused) == multiset(FusedSet(k, vector, keyword)) && Sorted(RanksUpTo, fused)
    requires i < j < |fused|
    ensures fused[i].score > fused[j].score
        || (fused[i].score == fused[j].score && StringLe(fused[i].docId, fused[j].docId)
           && fused[i].docId != fused[j].docId)
  {
    var s := FusedSet(k, vector, keyword);
    assert fused[i] in multiset(fused) && fused[j] in multiset(fused);
    assert fused == fused[..i] + [fused[i]] + fused[i + 1..j] + [fused[j]] + fused[j + 1..];
    assert multiset(s)[fused[i]] <= 1;
    assert RanksUpTo(fused[i], fused[j]);
  }

  lemma EntriesAreFused(k: real, vector: seq<SearchResult>, keyword: seq<SearchResult>, scores: map<string, real>,
      docs: map<string, SearchResult>)
    requires k > 0.0 && ScoresHold(scores, k, vector, keyword) && DocsHold(docs, vector, keyword)
    ensures (set id | id in scores :: docs[id].(score := scores[id], source := Hybrid)) == FusedSet(k, vector, keyword)
  {
    forall id | id in scores
      ensures docs[id].(score := scores[id], source := Hybrid) == Fused(k, vector, keyword, id)
    {
    }
  }

  // ----- what fusion means -----

  ghost predicate DistinctIds(list: seq<SearchResult>) {
    forall i, j :: 0 <= i < j < |list| ==> list[i].docId != list[j].docId
  }

  lemma ListedIds(ranking: seq<SearchResult>, s: set<SearchResult>)
    requires multiset(ranking) == multiset(s)
    ensures Ids(ranking) == set r | r in s :: r.docId
  {
    forall r
      ensures r in ranking <==> r in s
    {
      assert r in ranking <==> r in multiset(ranking);
    }
  }

  lemma FusedIds(k: real, vector: seq<SearchResult>, keyword: seq<SearchResult>)
    requires k > 0.0
    ensures (set r | r in FusedSet(k, vector, keyword) :: r.docId) == Ids(vector) + Ids(keyword)
    ensures |FusedSet(k, vector, keyword)| == |Ids(vector) + Ids(keyword)|
  {
    hide Ids;
    var s, ids := FusedSet(k, vector, keyword), Ids(vector) + Ids(keyword);
    forall id | id in ids
      ensures exists r :: r in s && r.docId == id
    {
      assert Fused(k, vector, keyword, id) in s;
    }
    CountById(s, ids);
  }

  /** One entry per id of the union. */
  lemma OneEntryPerId(k: real, vector: seq<SearchResult>, keyword: seq<SearchResult>)
    requires k > 0.0
    ensures |Ranking(RanksUpTo, FusedSet(k, vector, keyword))| == |Ids(vector) + Ids(keyword)|
    ensures Ids(Ranking(RanksUpTo, FusedSet(k, vector, keyword))) == Ids(vector) + Ids(keyword)
  {
    hide Ids, FusedSet, Ranking;
    RankingIsTotal();
    RankingFacts(RanksUpTo, FusedSet(k, vector, keyword));
    ListedIds(Ranking(RanksUpTo, FusedSet(k, vector, keyword)), FusedSet(k, vector, keyword));
    FusedIds(k, vector, keyword);
  }

  lemma {:induction false} CountById(s: set<SearchResult>, ids: set<string>)
    requires forall r :: r in s ==> r.docId in ids
    requires forall id :: id in ids ==> exists r :: r in s && r.docId == id
    requires forall x, y :: x in s && y in s && x.docId == y.docId ==> x == y
    ensures |s| == |ids|
  {
    if ids == {} {
      assert s == {};
    } else {
      var id :| id in ids;
      var r :| r in s && r.docId == id;
      CountById(s - {r}, ids - {id});
    }
  }

  /** With distinct ids the score in a list is the one term of the id's place there. */
  lemma {:induction false} OneTerm(k: real, list: seq<SearchResult>, i: nat)
    requires k > 0.0 && DistinctIds(list) && i < |list|
    ensures ScoreIn(k, list, list[i].docId) == RrfScore(k, i + 1) == 1.0 / (k + i as real + 1.0)
  {
    var init := list[..|list| - 1];
    if i == |list| - 1 {
      AbsentScoresZero(k, init, list[i].docId);
    } else {
      OneTerm(k, init, i);
    }
  }

  /** `a` stands in `list` at a place before any place of `b`. */
  ghost predicate AheadIn(list: seq<SearchResult>, a: string, b: string) {
    exists i :: 0 <= i < |list| && list[i].docId == a && b !in Ids(list[..i + 1])
  }

  lemma AheadScoresMore(k: real, list: seq<SearchResult>, a: string, b: string)
    requires k > 0.0 && DistinctIds(list) && AheadIn(list, a, b)
    ensures ScoreIn(k, list, a) > ScoreIn(k, list, b)
  {
    hide ScoreIn, RrfScore, Ids, DistinctIds;
    var i :| 0 <= i < |list| && list[i].docId == a && b !in Ids(list[..i + 1]);
    OneTerm(k, list, i);
    RrfFalls(k, i + 1, i + 2);
    if b in Ids(list) {
      var j := PlaceAfter(list, i, b);
      OneTerm(k, list, j);
      RrfFalls(k, i + 1, j + 1);
    } else {
      AbsentScoresZero(k, list, b);
    }
  }

  lemma PlaceAfter(list: seq<SearchResult>, i: nat, id: string) returns (j: nat)
    requires i < |list| && id in Ids(list) && id !in Ids(list[..i + 1])
    ensures i < j < |list| && list[j].docId == id
  {
    j :| 0 <= j < |list| && list[j].docId == id;
  }

  lemma RrfFalls(k: real, rank: nat, lower: nat)
    requires k > 0.0 && 1 <= rank < lower
    ensures RrfScore(k, rank) > RrfScore(k, lower) > 0.0
  {
    FartherIsLess(k + rank as real, k + lower as real);
  }

  lemma FartherIsLess(x: real, y: real)
    requires 0.0 < x < y
    ensures 1.0 / x > 1.0 / y > 0.0
  {
  }

  /** Ranked at least as well in both lists and better in one: first in the fused list. */
  lemma BetterRankedComesFirst(k: real, vector: seq<SearchResult>, keyword: seq<SearchResult>, a: string, b: string)
    requires k > 0.0 && DistinctIds(vector) && DistinctIds(keyword)
    requires AheadIn(vector, a, b) || (a !in Ids(vector) && b !in Ids(vector))
    requires AheadIn(keyword, a, b) || (a !in Ids(keyword) && b !in Ids(keyword))
    requires AheadIn(vector, a, b) || AheadIn(keyword, a, b)
    ensures
      var fused := Ranking(RanksUpTo, FusedSet(k, vector, keyword));
      forall p, q :: 0 <= p < |fused| && 0 <= q < |fused| && fused[p].docId == a && fused[q].docId == b ==> p < q
  {
    hide Ranking, AheadIn;
    ScoreAhead(k, vector, a, b);
    ScoreAhead(k, keyword, a, b);
    RankingIsTotal();
    RankingFacts(RanksUpTo, FusedSet(k, vector, keyword));
    var fused := Ranking(RanksUpTo, FusedSet(k, vector, keyword));
    forall p, q | 0 <= p < |fused| && 0 <= q < |fused| && fused[p].docId == a && fused[q].docId == b
      ensures p < q
    {
      assert fused[p] in multiset(fused) && fused[q] in multiset(fused);
      assert fused[p].score > fused[q].score;
      assert q < p ==> RanksUpTo(fused[q], fused[p]);
    }
  }

  lemma ScoreAhead(k: real, list: seq<SearchResult>, a: string, b: string)
    requires k > 0.0 && DistinctIds(list)
    requires AheadIn(list, a, b) || (a !in Ids(list) && b !in Ids(list))
    ensures ScoreIn(k, list, a) >= ScoreIn(k, list, b)
    ensures AheadIn(list, a, b) ==> ScoreIn(k, list, a) > ScoreIn(k, list, b)
  {
    if AheadIn(list, a, b) {
      AheadScoresMore(k, list, a, b);
    } else {
      AbsentScoresZero(k, list, a);
      AbsentScoresZero(k, list, b);
    }
  }

  /** With distinct ids the payload is one vector result, one keyword result, or the merge of the two. */
  lemma {:induction false} PayloadOfDistinct(vector: seq<SearchResult>, keyword: seq<SearchResult>, id: string)
    requires DistinctIds(keyword)
    ensures Payload(vector, keyword, id) ==
            match (First(vector, id), First(keyword, id))
            case (Some(v), Some(w)) => Some(MergedPayload(v, w))
            case (None, w) => w
            case (v, None) => v
  {
    if keyword != [] {
      var init := keyword[..|keyword| - 1];
      PayloadOfDistinct(vector, init, id);
      if keyword[|keyword| - 1].docId == id {
        FirstFound(init, id);
      }
    }
  }

  /** So the metadata of an id in both lists is the union of the two maps, the vector result's values winning,
      and its citation is the vector result's if it has one. */
  lemma VectorBiasedUnion(k: real, vector: seq<SearchResult>, keyword: seq<SearchResult>, i: nat, j: nat,
      v: map<string, string>, w: map<string, string>)
    requires k > 0.0 && DistinctIds(vector) && DistinctIds(keyword)
    requires i < |vector| && j < |keyword| && vector[i].docId == keyword[j].docId
    requires vector[i].metadata == Some(v) && keyword[j].metadata == Some(w)
    ensures
      var r := Fused(k, vector, keyword, vector[i].docId);
      && r.metadata.Some? && r.metadata.value.Keys == v.Keys + w.Keys
      && (forall key :: key in v ==> r.metadata.value[key] == v[key])
      && (forall key :: key in w && key !in v ==> r.metadata.value[key] == w[key])
      && r.text == vector[i].text
      && (vector[i].citation.Some? ==> r.citation == vector[i].citation)
      && (vector[i].citation.None? ==> r.citation == keyword[j].citation)
  {
    PayloadOfDistinct(vector, keyword, vector[i].docId);
    OnlyPlace(vector, i);
    OnlyPlace(keyword, j);
  }

  /** Without metadata on one side the other side's is kept. */
  lemma MissingMetadata(k: real, vector: seq<SearchResult>, keyword: seq<SearchResult>, i: nat, j: nat)
    requires k > 0.0 && DistinctIds(vector) && DistinctIds(keyword)
    requires i < |vector| && j < |keyword| && vector[i].docId == keyword[j].docId
    ensures vector[i].metadata == None ==>
        Fused(k, vector, keyword, vector[i].docId).metadata == keyword[j].metadata
    ensures keyword[j].metadata == None ==>
        Fused(k, vector, keyword, vector[i].docId).metadata == vector[i].metadata
  {
    PayloadOfDistinct(vector, keyword, vector[i].docId);
    OnlyPlace(vector, i);
    OnlyPlace(keyword, j);
  }

  /** An id in one list only keeps that result's text, metadata and citation. */
  lemma OneListOnly(k: real, vector: seq<SearchResult>, keyword: seq<SearchResult>, i: nat)
    requires k > 0.0 && DistinctIds(vector) && DistinctIds(keyword)
    ensures i < |vector| && vector[i].docId !in Ids(keyword) ==>
        var r := Fused(k, vector, keyword, vector[i].docId);
        r.text == vector[i].text && r.metadata == vector[i].metadata && r.citation == vector[i].citation
    ensures i < |keyword| && keyword[i].docId !in Ids(vector) ==>
        var r := Fused(k, vector, keyword, keyword[i].docId);
        r.text == keyword[i].text && r.metadata == keyword[i].metadata && r.citation == keyword[i].citation
  {
    if i < |vector| && vector[i].docId !in Ids(keyword) {
      PayloadOfDistinct(vector, keyword, vector[i].docId);
      OnlyPlace(vector, i);
      FirstFound(keyword, vector[i].docId);
    }
    if i < |keyword| && keyword[i].docId !in Ids(vector) {
      PayloadOfDistinct(vector, keyword, keyword[i].docId);
      OnlyPlace(keyword, i);
      FirstFound(vector, keyword[i].docId);
    }
  }

  lemma OnlyPlace(list: seq<SearchResult>, i: nat)
    requires DistinctIds(list) && i < |list|
    ensures First(list, list[i].docId) == Some(list[i])
  {
    FirstFound(list, list[i].docId);
  }
}
