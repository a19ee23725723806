/** What deduplicating and ranking a prefix of the hits says about deduplicating and ranking them all: the reasoning
    behind the fetch loop of src/query/keyword_searcher.rs. */
module FetchedPrefix {
  import opened Orders
  import opened RetrievalCommon

  ghost predicate ByScore(hits: seq<SearchResult>) {
    forall i, j :: 0 <= i < j < |hits| ==> hits[i].score >= hits[j].score
  }

  /** The cut after the first `topK` falls between two different scores, or there is nothing after it. */
  ghost predicate NoTieAcrossCut(ranked: seq<SearchResult>, topK: nat) {
    0 < topK < |ranked| ==> ranked[topK - 1].score != ranked[topK].score
  }

  function Scores(s: seq<SearchResult>): seq<int> {
    seq(|s|, i requires 0 <= i < |s| => s[i].score)
  }

  /** In a list by score the best of each doc_id is its first hit, so a prefix already has it. */
  lemma PrefixBests(hits: seq<SearchResult>, n: nat)
    requires ByScore(hits) && n <= |hits|
    ensures Bests(hits[..n]) <= Bests(hits)
    ensures forall x, y :: x in Bests(hits[..n]) && y in Bests(hits) - Bests(hits[..n]) ==> x.score >= y.score
  {
    forall x | x in Bests(hits[..n])
      ensures x in Bests(hits)
    {
      PrefixBestIsBest(hits, n, x);
    }
    forall x, y | x in Bests(hits[..n]) && y in Bests(hits) - Bests(hits[..n])
      ensures x.score >= y.score
    {
      LateBestComesLate(hits, n, y);
    }
  }

  lemma PrefixBestIsBest(hits: seq<SearchResult>, n: nat, x: SearchResult)
    requires ByScore(hits) && n <= |hits| && IsBest(hits[..n], x)
    ensures IsBest(hits, x)
  {
    var i :|
      && 0 <= i < |hits[..n]| && hits[..n][i] == x
      && (forall j :: 0 <= j < i && hits[..n][j].docId == x.docId ==> hits[..n][j].score < x.score)
      && (forall j :: i < j < |hits[..n]| && hits[..n][j].docId == x.docId ==> hits[..n][j].score <= x.score);
    assert hits[i] == x;
    assert forall j :: 0 <= j < i ==> hits[j] == hits[..n][j];
  }

  lemma LateBestComesLate(hits: seq<SearchResult>, n: nat, y: SearchResult)
    requires ByScore(hits) && n <= |hits| && IsBest(hits, y) && y !in Bests(hits[..n])
    ensures forall j :: 0 <= j < n ==> hits[j].score >= y.score
  {
    var i :|
      && 0 <= i < |hits| && hits[i] == y
      && (forall j :: 0 <= j < i && hits[j].docId == y.docId ==> hits[j].score < y.score)
      && (forall j :: i < j < |hits| && hits[j].docId == y.docId ==> hits[j].score <= y.score);
    if i < n {
      EarlyBestIsBest(hits, n, i);
      assert false;
    }
  }

  lemma EarlyBestIsBest(hits: seq<SearchResult>, n: nat, i: nat)
    requires i < n <= |hits|
    requires forall j :: 0 <= j < i && hits[j].docId == hits[i].docId ==> hits[j].score < hits[i].score
    requires forall j :: i < j < |hits| && hits[j].docId == hits[i].docId ==> hits[j].score <= hits[i].score
    ensures hits[i] in Bests(hits[..n])
  {
    assert hits[..n][i] == hits[i];
    assert IsBest(hits[..n], hits[i]);
  }

  predicate Descends(a: int, b: int) {
    a >= b
  }

  lemma TakeOut(s: seq<SearchResult>, i: nat, rest: seq<SearchResult>)
    requires i < |s| && rest == s[..i] + s[i + 1..]
    ensures multiset(rest) == multiset(s) - multiset{s[i]}
    ensures multiset(Scores(s)) == multiset(Scores(rest)) + multiset{s[i].score}
  {
    assert s == s[..i] + [s[i]] + s[i + 1..];
    assert Scores(s) == Scores(s[..i]) + [s[i].score] + Scores(s[i + 1..]);
    assert Scores(rest) == Scores(s[..i]) + Scores(s[i + 1..]);
  }

  lemma {:induction false} ScoresOf(s: seq<SearchResult>, t: seq<SearchResult>)
    requires multiset(s) == multiset(t)
    ensures multiset(Scores(s)) == multiset(Scores(t))
    decreases |s|
  {
    SameSize(s, t);
    if s != [] {
      assert s[0] in multiset(t);
      var i :| 0 <= i < |t| && t[i] == s[0];
      assert s[1..] == s[..0] + s[1..];
      TakeOut(s, 0, s[1..]);
      TakeOut(t, i, t[..i] + t[i + 1..]);
      ScoresOf(s[1..], t[..i] + t[i + 1..]);
    }
  }

  lemma PartThenRest(part: set<SearchResult>, all: set<SearchResult>, a: seq<SearchResult>, b: seq<SearchResult>)
    requires part <= all && multiset(a) == multiset(part) && multiset(b) == multiset(all - part)
    requires Sorted(RanksUpTo, a) && Sorted(RanksUpTo, b)
    requires forall x, y :: x in part && y in all - part ==> x.score >= y.score
    ensures multiset(a + b) == multiset(all) && Sorted(Descends, Scores(a + b))
  {
    assert all == part + (all - part);
    forall i, j | 0 <= i < j < |a + b|
      ensures (a + b)[i].score >= (a + b)[j].score
    {
      if i < |a| <= j {
        assert (a + b)[i] in multiset(a) && (a + b)[j] in multiset(b);
      }
    }
  }

  /** Ranking a best part and the rest apart gives the scores of ranking all. */
  lemma ScoresAgree(part: set<SearchResult>, all: set<SearchResult>)
    requires part <= all && forall x, y :: x in part && y in all - part ==> x.score >= y.score
    ensures |Ranking(RanksUpTo, part)| <= |Ranking(RanksUpTo, all)| &&
        Scores(Ranking(RanksUpTo, part)) == Scores(Ranking(RanksUpTo, all))[..|Ranking(RanksUpTo, part)|]
  {
    hide Ranking;
    var a, b, c := Ranking(RanksUpTo, part), Ranking(RanksUpTo, all - part), Ranking(RanksUpTo, all);
    RankingIsTotal();
    RankingFacts(RanksUpTo, part);
    RankingFacts(RanksUpTo, all - part);
    RankingFacts(RanksUpTo, all);
    PartThenRest(part, all, a, b);
    ScoresOf(a + b, c);
    SortedUnique(Descends, Scores(a + b), Scores(c));
    SameSize(a + b, c);
    assert Scores(a + b)[..|a|] == Scores(a);
  }

  /** A result scoring above what follows the cut is before it. */
  lemma AboveCut(ranked: seq<SearchResult>, k: nat, x: SearchResult)
    requires Sorted(RanksUpTo, ranked) && k < |ranked| && x in ranked && x.score > ranked[k].score
    ensures x in ranked[..k]
  {
    var j :| 0 <= j < |ranked| && ranked[j] == x;
    assert j < k;
    assert ranked[..k][j] == x;
  }

  /** If the cut splits no tie, the part's ranking up to it is the whole ranking's. */
  lemma RankingsAgree(part: set<SearchResult>, all: set<SearchResult>, k: nat)
    requires part <= all && DistinctIds(all) && 0 < k <= |Ranking(RanksUpTo, part)|
    requires forall x, y :: x in part && y in all - part ==> x.score >= y.score
    requires NoTieAcrossCut(Ranking(RanksUpTo, all), k)
    ensures k <= |Ranking(RanksUpTo, all)| && Ranking(RanksUpTo, part)[..k] == Ranking(RanksUpTo, all)[..k]
  {
    hide Ranking, Sorted, DistinctIds, RanksUpTo;
    ScoresAgree(part, all);
    RankingIsTotal();
    RankingFacts(RanksUpTo, part);
    RankingFacts(RanksUpTo, all);
    var a, c := Ranking(RanksUpTo, part), Ranking(RanksUpTo, all);
    if k < |c| {
      BeforeTheCut(a, c, part, all, k);
      InjectedPrefix(a[..k], c[..k], all, a);
      CutsAgree(a, c, all, k);
    } else {
      SubsetSize(part, all);
    }
  }

  lemma BeforeTheCut(a: seq<SearchResult>, c: seq<SearchResult>, part: set<SearchResult>, all: set<SearchResult>,
      k: nat)
    requires multiset(a) == multiset(part) && multiset(c) == multiset(all) && part <= all
    requires Sorted(RanksUpTo, a) && Sorted(RanksUpTo, c) && 0 < k <= |a| <= |c| && k < |c|
    requires Scores(a) == Scores(c)[..|a|] && c[k - 1].score != c[k].score
    ensures forall i :: 0 <= i < k ==> a[i] in c[..k]
  {
    forall i | 0 <= i < k
      ensures a[i] in c[..k]
    {
      assert a[i].score == Scores(a)[i] == Scores(c)[i] == c[i].score;
      assert RanksUpTo(c[k - 1], c[k]) && (i < k - 1 ==> RanksUpTo(c[i], c[k - 1]));
      assert a[i] in multiset(a) && a[i] in multiset(c);
      AboveCut(c, k, a[i]);
    }
  }

  lemma InjectedPrefix(s: seq<SearchResult>, t: seq<SearchResult>, all: set<SearchResult>, whole: seq<SearchResult>)
    requires |s| == |t| && s <= whole && multiset(whole) <= multiset(all) && forall i :: 0 <= i < |s| ==> s[i] in t
    ensures multiset(s) == multiset(t)
  {
    assert whole == s + whole[|s|..];
    forall x | x in multiset(s)
      ensures multiset(s)[x] <= multiset(t)[x]
    {
      assert x in t && x in multiset(t);
      assert multiset(s)[x] <= multiset(all)[x] <= 1;
    }
    assert multiset(t) == multiset(s) + (multiset(t) - multiset(s));
    assert |multiset(s)| == |s| && |multiset(t)| == |t|;
  }

  lemma CutsAgree(a: seq<SearchResult>, c: seq<SearchResult>, all: set<SearchResult>, k: nat)
    requires k <= |a| && k <= |c| && Sorted(RanksUpTo, a) && Sorted(RanksUpTo, c) && DistinctIds(all)
    requires multiset(a[..k]) == multiset(c[..k]) && multiset(c) == multiset(all)
    ensures a[..k] == c[..k]
  {
    RankingIsTotal();
    DistinctIdsDoNotTie(all);
    assert c == c[..k] + c[k..];
    NoTiesInList(RanksUpTo, all, a[..k]);
    SortedUnique(RanksUpTo, a[..k], c[..k]);
  }

  lemma FetchedAreBests(hits: seq<SearchResult>, limit: nat, results: seq<SearchResult>, n: nat)
    requires ByScore(hits)
    requires results == Cut(Deduped(Cut(hits, limit)), n)
    ensures multiset(results) <= multiset(Bests(hits)) && Sorted(RanksUpTo, results)
  {
    hide Ranking, Bests;
    var part := Bests(Cut(hits, limit));
    PrefixBests(hits, Min(limit, |hits|));
    RankingIsTotal();
    RankingFacts(RanksUpTo, part);
    assert Deduped(Cut(hits, limit)) == results + Deduped(Cut(hits, limit))[|results|..];
    assert multiset(part) <= multiset(Bests(hits));
  }

  /** What the loop may return after fetching `limit` hits. */
  lemma EnoughFetched(hits: seq<SearchResult>, maxDocs: nat, topK: nat, limit: nat, results: seq<SearchResult>)
    requires ByScore(hits) && |hits| <= maxDocs && topK >= 1
    requires results == Cut(Deduped(Cut(hits, limit)), topK)
    requires |results| >= topK || limit >= maxDocs
    ensures multiset(results) <= multiset(Bests(hits)) && Sorted(RanksUpTo, results)
    ensures |results| == Min(topK, |Deduped(hits)|)
    ensures Scores(results) == Scores(Cut(Deduped(hits), topK))
    ensures NoTieAcrossCut(Deduped(hits), topK) ==> results == Cut(Deduped(hits), topK)
  {
    hide Ranking, Bests, NoTieAcrossCut;
    FetchedAreBests(hits, limit, results, topK);
    if limit >= maxDocs {
      assert Cut(hits, limit) == hits;
    } else {
      var n := Min(limit, |hits|);
      PrefixBests(hits, n);
      var part, all := Bests(hits[..n]), Bests(hits);
      ScoresAgree(part, all);
      assert Scores(results) == Scores(Ranking(RanksUpTo, part))[..topK];
      assert Scores(Deduped(hits)[..topK]) == Scores(Deduped(hits))[..topK];
      BestsAreDistinct(hits);
      if NoTieAcrossCut(Deduped(hits), topK) {
        RankingsAgree(part, all, topK);
      }
    }
  }
}
