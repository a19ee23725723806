/** When the fetch loop of src/query/keyword_searcher.rs returns the complete ranking whatever order the index gives to
    equal scores: the exact condition. */
module CutTies {
  import opened Orders
  import opened RetrievalCommon
  import opened FetchedPrefix

  // ----- the loop -----

  /** The limit of fetch `i`: `topK` doubled `i` times, within the index. */
  function LimitAt(maxDocs: nat, topK: nat, i: nat): (limit: nat)
    ensures topK >= 1 && maxDocs >= 1 ==> limit >= 1
  {
    if i == 0 then Min(topK, if maxDocs == 0 then 1 else maxDocs) else Min(2 * LimitAt(maxDocs, topK, i - 1), maxDocs)
  }

  ghost predicate Enough(hits: seq<SearchResult>, maxDocs: nat, topK: nat, limit: nat) {
    |Bests(Cut(hits, limit))| >= topK || limit >= maxDocs
  }

  /** Where the loop stops, going on from fetch `i`. */
  ghost function StopFrom(hits: seq<SearchResult>, maxDocs: nat, topK: nat, i: nat): nat
    requires topK >= 1
    decreases maxDocs - LimitAt(maxDocs, topK, i)
  {
    if Enough(hits, maxDocs, topK, LimitAt(maxDocs, topK, i)) then i else StopFrom(hits, maxDocs, topK, i + 1)
  }

  ghost function StopLimit(hits: seq<SearchResult>, maxDocs: nat, topK: nat): nat
    requires topK >= 1
  {
    LimitAt(maxDocs, topK, StopFrom(hits, maxDocs, topK, 0))
  }

  /** What the loop returns. */
  ghost function FetchLoop(hits: seq<SearchResult>, maxDocs: nat, topK: nat): seq<SearchResult>
    requires topK >= 1
  {
    Cut(Deduped(Cut(hits, StopLimit(hits, maxDocs, topK))), topK)
  }

  lemma {:induction false} StopsFirst(hits: seq<SearchResult>, maxDocs: nat, topK: nat, i: nat, j: nat)
    requires topK >= 1 && i <= j && Enough(hits, maxDocs, topK, LimitAt(maxDocs, topK, j))
    ensures i <= StopFrom(hits, maxDocs, topK, i) <= j
    decreases j - i
  {
    hide Enough;
    if !Enough(hits, maxDocs, topK, LimitAt(maxDocs, topK, i)) {
      StopsFirst(hits, maxDocs, topK, i + 1, j);
    }
  }

  lemma {:induction false} StopsEnough(hits: seq<SearchResult>, maxDocs: nat, topK: nat, i: nat)
    requires topK >= 1
    ensures Enough(hits, maxDocs, topK, LimitAt(maxDocs, topK, StopFrom(hits, maxDocs, topK, i)))
    decreases maxDocs - LimitAt(maxDocs, topK, i)
  {
    if !Enough(hits, maxDocs, topK, LimitAt(maxDocs, topK, i)) {
      StopsEnough(hits, maxDocs, topK, i + 1);
    }
  }

  lemma {:induction false} LimitsGrow(maxDocs: nat, topK: nat, i: nat, j: nat)
    requires i <= j && topK >= 1
    ensures LimitAt(maxDocs, topK, j) < maxDocs ==> LimitAt(maxDocs, topK, i) <= LimitAt(maxDocs, topK, j)
  {
    if i < j {
      LimitsGrow(maxDocs, topK, i, j - 1);
    }
  }

  // ----- documents -----

  /** A doc_id with the best score any of its hits has. */
  datatype Doc = Doc(docId: string, score: int)

  function DocOf(x: SearchResult): Doc {
    Doc(x.docId, x.score)
  }

  predicate DocRanksUpTo(left: Doc, right: Doc) {
    left.score > right.score || (left.score == right.score && StringLe(left.docId, right.docId))
  }

  predicate Has(hits: seq<SearchResult>, d: Doc) {
    exists x :: x in hits && DocOf(x) == d
  }

  ghost predicate IsDoc(hits: seq<SearchResult>, d: Doc) {
    Has(hits, d) && forall x :: x in hits && x.docId == d.docId ==> x.score <= d.score
  }

  ghost function Docs(hits: seq<SearchResult>): set<Doc> {
    set x | x in hits && IsDoc(hits, DocOf(x)) :: DocOf(x)
  }

  lemma InDocs(hits: seq<SearchResult>, d: Doc)
    ensures d in Docs(hits) <==> IsDoc(hits, d)
  {
  }

  lemma DocsIgnoreOrder(a: seq<SearchResult>, b: seq<SearchResult>)
    requires multiset(a) == multiset(b)
    ensures Docs(a) == Docs(b)
  {
    assert forall x :: x in a <==> x in multiset(a);
    assert forall x :: x in b <==> x in multiset(b);
    forall d
      ensures d in Docs(a) <==> d in Docs(b)
    {
      InDocs(a, d);
      InDocs(b, d);
    }
  }

  /** The deduplicating map. */
  ghost function BestMap(hits: seq<SearchResult>): map<string, SearchResult> {
    if hits == [] then map[]
    else
      var m, next := BestMap(hits[..|hits| - 1]), hits[|hits| - 1];
      if next.docId in m && m[next.docId].score >= next.score then m else m[next.docId := next]
  }

  lemma {:induction false} BestMapHolds(hits: seq<SearchResult>)
    ensures HoldsBests(hits, BestMap(hits))
  {
    if hits == [] {
      EmptyHoldsBests();
    } else {
      hide HoldsBests;
      BestMapHolds(hits[..|hits| - 1]);
      UpdateKeepsBests(hits[..|hits| - 1], BestMap(hits[..|hits| - 1]), hits[|hits| - 1]);
      assert hits[..|hits| - 1] + [hits[|hits| - 1]] == hits;
    }
  }

  lemma BestOf(hits: seq<SearchResult>, id: string) returns (x: SearchResult)
    requires exists h :: h in hits && h.docId == id
    ensures x in Bests(hits) && x.docId == id && DocOf(x) in Docs(hits)
  {
    BestMapHolds(hits);
    x := BestMap(hits)[id];
    BestIsDoc(hits, x);
  }

  lemma BestIsDoc(hits: seq<SearchResult>, x: SearchResult)
    requires x in Bests(hits)
    ensures DocOf(x) in Docs(hits)
  {
    forall y | y in hits && y.docId == x.docId
      ensures y.score <= x.score
    {
      var j :| 0 <= j < |hits| && hits[j] == y;
      var _ := BestIsHighest(hits, x, j);
    }
  }

  /** The best results are the documents, each once. */
  lemma BestFor(hits: seq<SearchResult>, d: Doc) returns (x: SearchResult)
    requires d in Docs(hits)
    ensures x in Bests(hits) && DocOf(x) == d
  {
    InDocs(hits, d);
    x := BestOf(hits, d.docId);
  }

  lemma BestsAreDocs(hits: seq<SearchResult>)
    ensures |Bests(hits)| == |Docs(hits)|
  {
    BestsAreDistinct(hits);
    var docs := set x | x in Bests(hits) :: DocOf(x);
    forall d | d in Docs(hits)
      ensures d in docs
    {
      var x := BestFor(hits, d);
    }
    forall x | x in Bests(hits)
      ensures DocOf(x) in Docs(hits)
    {
      BestIsDoc(hits, x);
    }
    assert docs == Docs(hits);
    DocSetSize(Bests(hits), docs);
  }

  lemma {:induction false} DocSetSize(s: set<SearchResult>, docs: set<Doc>)
    requires DistinctIds(s) && docs == set x | x in s :: DocOf(x)
    ensures |docs| == |s|
  {
    if s != {} {
      var x :| x in s;
      assert docs - {DocOf(x)} == set y | y in s - {x} :: DocOf(y);
      DocSetSize(s - {x}, docs - {DocOf(x)});
    }
  }

  // ----- when one list agrees -----

  /** The documents ranked up to `d`, itself included. */
  ghost function UpTo(docs: set<Doc>, d: Doc): set<Doc> {
    set e | e in docs && DocRanksUpTo(e, d)
  }

  ghost function ResultsUpTo(s: set<SearchResult>, x: SearchResult): set<SearchResult> {
    set y | y in s && RanksUpTo(y, x)
  }

  /** A set ranked as a list: its elements, each once. */
  ghost predicate Ranks(ranked: seq<SearchResult>, s: set<SearchResult>) {
    && Sorted(RanksUpTo, ranked)
    && (forall x :: x in ranked <==> x in s)
    && (forall i, j :: 0 <= i < j < |ranked| ==> ranked[i].docId != ranked[j].docId)
  }

  lemma RankingRanks(s: set<SearchResult>)
    requires DistinctIds(s)
    ensures Ranks(Ranking(RanksUpTo, s), s) && |Ranking(RanksUpTo, s)| == |s|
  {
    hide Ranking;
    RankingIsTotal();
    RankingFacts(RanksUpTo, s);
    var ranked := Ranking(RanksUpTo, s);
    forall x
      ensures x in ranked <==> x in s
    {
      assert x in ranked <==> x in multiset(ranked);
    }
    forall i, j | 0 <= i < j < |ranked|
      ensures ranked[i].docId != ranked[j].docId
    {
      assert ranked[i] in s && ranked[j] in s;
      if ranked[i] == ranked[j] {
        TwiceInList(ranked, i, j);
        assert false;
      }
    }
  }

  lemma TwiceInList(s: seq<SearchResult>, i: nat, j: nat)
    requires i < j < |s| && s[i] == s[j]
    ensures multiset(s)[s[i]] >= 2
  {
    assert s == s[..i] + [s[i]] + s[i + 1..j] + [s[j]] + s[j + 1..];
  }

  ghost function Elements(s: seq<SearchResult>): set<SearchResult> {
    set x | x in s
  }

  lemma {:induction false} ElementCount(s: seq<SearchResult>)
    requires forall i, j :: 0 <= i < j < |s| ==> s[i].docId != s[j].docId
    ensures |Elements(s)| == |s|
  {
    if s != [] {
      var most, last := s[..|s| - 1], s[|s| - 1];
      assert s == most + [last];
      ElementCount(most);
      assert last !in most by {
        assert forall i :: 0 <= i < |most| ==> most[i] == s[i];
      }
      assert Elements(s) == Elements(most) + {last};
    }
  }

  /** The place of a result in a ranking is the number of results ranked up to it. */
  lemma PlaceIsCount(ranked: seq<SearchResult>, s: set<SearchResult>, p: nat)
    requires Ranks(ranked, s) && p < |ranked|
    ensures ResultsUpTo(s, ranked[p]) == Elements(ranked[..p + 1]) && |ResultsUpTo(s, ranked[p])| == p + 1
  {
    StringLeTotal(ranked[p].docId, ranked[p].docId);
    forall x | x in ranked[..p + 1]
      ensures x in ResultsUpTo(s, ranked[p])
    {
      assert x in ranked;
    }
    forall x | x in ResultsUpTo(s, ranked[p])
      ensures x in ranked[..p + 1]
    {
      var i :| 0 <= i < |ranked| && ranked[i] == x;
      if i > p {
        StringLeTotal(x.docId, ranked[p].docId);
      } else {
        assert ranked[..p + 1][i] == x;
      }
    }
    ElementCount(ranked[..p + 1]);
  }

  lemma DocPlace(hits: seq<SearchResult>, x: SearchResult)
    requires x in Bests(hits)
    ensures |UpTo(Docs(hits), DocOf(x))| == |ResultsUpTo(Bests(hits), x)|
  {
    hide Bests, Docs;
    BestsAreDistinct(hits);
    var upTo := UpTo(Docs(hits), DocOf(x));
    var docs := set y | y in ResultsUpTo(Bests(hits), x) :: DocOf(y);
    forall d | d in upTo
      ensures d in docs
    {
      var y := BestFor(hits, d);
      assert y in ResultsUpTo(Bests(hits), x);
    }
    forall y | y in ResultsUpTo(Bests(hits), x)
      ensures DocOf(y) in upTo
    {
      BestIsDoc(hits, y);
    }
    assert upTo == docs;
    DocSetSize(ResultsUpTo(Bests(hits), x), docs);
  }

  /** Every document within the cut was fetched. */
  ghost predicate CutFetched(all: set<Doc>, fetched: set<Doc>, k: nat) {
    forall d :: d in all && |UpTo(all, d)| <= k ==> d in fetched
  }

  lemma FetchedBest(hits: seq<SearchResult>, n: nat, x: SearchResult)
    requires ByScore(hits) && n <= |hits| && x in Bests(hits)
    ensures DocOf(x) in Docs(hits[..n]) <==> x in Bests(hits[..n])
  {
    hide Bests, ByScore;
    PrefixBests(hits, n);
    BestsAreDistinct(hits);
    if DocOf(x) in Docs(hits[..n]) {
      var y := BestFor(hits[..n], DocOf(x));
      assert y in Bests(hits);
    }
    if x in Bests(hits[..n]) {
      BestIsDoc(hits[..n], x);
    }
  }

  /** A part that holds the first `n` of a ranking starts its own with them. */
  lemma PartStartsAlike(part: set<SearchResult>, all: set<SearchResult>, a: seq<SearchResult>, c: seq<SearchResult>,
      n: nat)
    requires part <= all && Ranks(a, part) && Ranks(c, all) && n <= |c|
    requires forall i :: 0 <= i < n ==> c[i] in part
    ensures c[..n] <= a
  {
    forall i | 0 <= i < n
      ensures i < |a| && a[i] == c[i]
    {
      SamePlace(part, all, a, c, n, i);
    }
    if n > 0 {
      assert n - 1 < |a| && a[n - 1] == c[n - 1];
    }
    assert c[..n] == a[..n];
  }

  lemma SamePlace(part: set<SearchResult>, all: set<SearchResult>, a: seq<SearchResult>, c: seq<SearchResult>, n: nat,
      i: nat)
    requires part <= all && Ranks(a, part) && Ranks(c, all) && i < n <= |c|
    requires forall i :: 0 <= i < n ==> c[i] in part
    ensures i < |a| && a[i] == c[i]
  {
    assert c[i] in a;
    var q :| 0 <= q < |a| && a[q] == c[i];
    PlaceIsCount(a, part, q);
    PlaceIsCount(c, all, i);
    forall x | x in c[..i + 1]
      ensures x in part
    {
      var j :| 0 <= j <= i && c[j] == x;
    }
    assert ResultsUpTo(part, c[i]) == ResultsUpTo(all, c[i]);
  }

  /** The first `k` of a fetched prefix's ranking are the first `k` of the whole one exactly when they were fetched. */
  lemma AgreesIfFetched(hits: seq<SearchResult>, n: nat, k: nat)
    requires ByScore(hits) && n <= |hits| && (|Bests(hits[..n])| >= k || n == |hits|)
    ensures Cut(Deduped(hits[..n]), k) == Cut(Deduped(hits), k) <==> CutFetched(Docs(hits), Docs(hits[..n]), k)
  {
    hide Bests, Docs, Ranking, ByScore, Ranks, CutFetched;
    var part, all := Bests(hits[..n]), Bests(hits);
    PrefixBests(hits, n);
    BestsAreDistinct(hits);
    BestsAreDistinct(hits[..n]);
    RankingRanks(part);
    RankingRanks(all);
    if n == |hits| {
      assert hits[..n] == hits;
      SelfFetched(Docs(hits), k);
    } else {
      var a, c := Deduped(hits[..n]), Deduped(hits);
      SubsetSize(part, all);
      if CutFetched(Docs(hits), Docs(hits[..n]), k) {
        FetchedInPart(hits, n, k, c);
        PartStartsAlike(part, all, a, c, k);
      }
      if a[..k] == c[..k] {
        InPartFetched(hits, n, k, a, c);
      }
    }
  }

  lemma SelfFetched(docs: set<Doc>, k: nat)
    ensures CutFetched(docs, docs, k)
  {
  }

  lemma FetchedInPart(hits: seq<SearchResult>, n: nat, k: nat, c: seq<SearchResult>)
    requires ByScore(hits) && n <= |hits| && Ranks(c, Bests(hits)) && k <= |c| &&
        CutFetched(Docs(hits), Docs(hits[..n]), k)
    ensures forall i :: 0 <= i < k ==> c[i] in Bests(hits[..n])
  {
    hide Bests, Docs, ByScore, UpTo, ResultsUpTo;
    forall i | 0 <= i < k
      ensures c[i] in Bests(hits[..n])
    {
      PlaceIsCount(c, Bests(hits), i);
      DocPlace(hits, c[i]);
      BestIsDoc(hits, c[i]);
      FetchedBest(hits, n, c[i]);
    }
  }

  lemma InPartFetched(hits: seq<SearchResult>, n: nat, k: nat, a: seq<SearchResult>, c: seq<SearchResult>)
    requires ByScore(hits) && n <= |hits| && Ranks(c, Bests(hits)) && Ranks(a, Bests(hits[..n])) && k <= |c| &&
        k <= |a| && a[..k] == c[..k]
    ensures CutFetched(Docs(hits), Docs(hits[..n]), k)
  {
    hide Bests, Docs, ByScore, UpTo, ResultsUpTo;
    forall d | d in Docs(hits) && |UpTo(Docs(hits), d)| <= k
      ensures d in Docs(hits[..n])
    {
      var x := BestFor(hits, d);
      var i :| 0 <= i < |c| && c[i] == x;
      PlaceIsCount(c, Bests(hits), i);
      DocPlace(hits, x);
      assert a[..k][i] == x;
      assert x in a;
      FetchedBest(hits, n, x);
    }
  }

  lemma LoopAgreesIfFetched(hits: seq<SearchResult>, maxDocs: nat, topK: nat)
    requires ByScore(hits) && |hits| <= maxDocs && topK >= 1
    ensures
      FetchLoop(hits, maxDocs, topK) == Cut(Deduped(hits), topK)
      <==> CutFetched(Docs(hits), Docs(Cut(hits, StopLimit(hits, maxDocs, topK))), topK)
  {
    hide Bests, Docs, Ranking, ByScore, CutFetched, StopFrom, LimitAt;
    StopsEnough(hits, maxDocs, topK, 0);
    AgreesIfFetched(hits, Min(StopLimit(hits, maxDocs, topK), |hits|), topK);
  }

  // ----- the exact condition -----

  datatype Class = Over(score: int) | From(score: int) | At(score: int) | Under(score: int) | Own(doc: Doc) |
      Other(doc: Doc)

  predicate Picks(c: Class, h: SearchResult) {
    match c
    case Over(t) => h.score > t
    case From(t) => h.score >= t
    case At(t) => h.score == t
    case Under(t) => h.score < t
    case Own(d) => DocOf(h) == d
    case Other(d) => h.score == d.score && h.docId != d.docId
  }

  /** The hits of a class, in order. */
  function Only(hits: seq<SearchResult>, c: Class): (r: seq<SearchResult>)
    ensures forall h :: h in r <==> h in hits && Picks(c, h)
  {
    if hits == [] then []
    else if Picks(c, hits[|hits| - 1]) then Only(hits[..|hits| - 1], c) + [hits[|hits| - 1]]
    else Only(hits[..|hits| - 1], c)
  }

  ghost function ScoringOver(docs: set<Doc>, t: int): set<Doc> {
    set e | e in docs && e.score > t
  }

  ghost function ScoringFrom(docs: set<Doc>, t: int): set<Doc> {
    set e | e in docs && e.score >= t
  }

  /** `d` is within the cut, documents of its score are on both sides of it, and fetch `i` may reach `topK` documents
      while all hits with `d`'s score and id are still behind: there is room in the fetch for one hit of each document
      it takes to fill the cut, and room after it for those of `d`. */
  ghost predicate Straddles(hits: seq<SearchResult>, maxDocs: nat, topK: nat, d: Doc, i: nat) {
    var limit := LimitAt(maxDocs, topK, i);
    && d in Docs(hits)
    && |UpTo(Docs(hits), d)| <= topK < |ScoringFrom(Docs(hits), d.score)|
    && |Only(hits, Over(d.score))| + topK <= limit + |ScoringOver(Docs(hits), d.score)|
    && limit + |Only(hits, Own(d))| <= |Only(hits, From(d.score))|
  }

  ghost predicate TieMayCut(hits: seq<SearchResult>, maxDocs: nat, topK: nat) {
    exists d, i :: Straddles(hits, maxDocs, topK, d, i)
  }

  lemma {:induction false} OnlyAppend(a: seq<SearchResult>, b: seq<SearchResult>, c: Class)
    ensures Only(a + b, c) == Only(a, c) + Only(b, c)
  {
    hide Picks;
    if b == [] {
      assert a + b == a;
    } else {
      var init, last := b[..|b| - 1], b[|b| - 1];
      OnlyAppend(a, init, c);
      assert (a + b)[..|a + b| - 1] == a + init && (a + b)[|a + b| - 1] == last;
      assert (Only(a, c) + Only(init, c)) + [last] == Only(a, c) + (Only(init, c) + [last]);
    }
  }

  lemma {:induction false} OnlyCounts(hits: seq<SearchResult>, c: Class, h: SearchResult)
    ensures multiset(Only(hits, c))[h] == if Picks(c, h) then multiset(hits)[h] else 0
  {
    if hits != [] {
      OnlyCounts(hits[..|hits| - 1], c, h);
      assert hits == hits[..|hits| - 1] + [hits[|hits| - 1]];
    }
  }

  lemma OnlyIgnoresOrder(a: seq<SearchResult>, b: seq<SearchResult>, c: Class)
    requires multiset(a) == multiset(b)
    ensures |Only(a, c)| == |Only(b, c)|
  {
    hide Only, Picks;
    forall h
      ensures multiset(Only(a, c))[h] == multiset(Only(b, c))[h]
    {
      OnlyCounts(a, c, h);
      OnlyCounts(b, c, h);
    }
    SameSize(Only(a, c), Only(b, c));
  }

  /** The condition does not depend on the order of the hits. */
  lemma TieIgnoresOrder(a: seq<SearchResult>, b: seq<SearchResult>, maxDocs: nat, topK: nat)
    requires multiset(a) == multiset(b) && TieMayCut(a, maxDocs, topK)
    ensures TieMayCut(b, maxDocs, topK)
  {
    hide Only, Docs, UpTo, ScoringOver, ScoringFrom, LimitAt;
    var d, i :| Straddles(a, maxDocs, topK, d, i);
    DocsIgnoreOrder(a, b);
    OnlyIgnoresOrder(a, b, Over(d.score));
    OnlyIgnoresOrder(a, b, Own(d));
    OnlyIgnoresOrder(a, b, From(d.score));
    assert Straddles(b, maxDocs, topK, d, i);
  }

  // ----- a missed document straddles -----

  lemma {:induction false} OnlySizes(hits: seq<SearchResult>, d: Doc)
    ensures |Only(hits, From(d.score))| == |Only(hits, Over(d.score))| + |Only(hits, Own(d))| + |Only(hits, Other(d))|
    ensures |Only(hits, From(d.score))| == |Only(hits, Over(d.score))| + |Only(hits, At(d.score))|
    ensures |Only(hits, From(d.score))| <= |hits|
  {
    if hits != [] {
      OnlySizes(hits[..|hits| - 1], d);
    }
  }

  lemma {:induction false} OnlyAll(hits: seq<SearchResult>, c: Class)
    requires forall h :: h in hits ==> Picks(c, h)
    ensures Only(hits, c) == hits
  {
    hide Picks;
    if hits != [] {
      var most, last := hits[..|hits| - 1], hits[|hits| - 1];
      assert hits == most + [last] && last in hits;
      OnlyAll(most, c);
      assert Only(hits, c) == Only(most, c) + [last];
    }
  }

  lemma {:induction false} OnlyNone(hits: seq<SearchResult>, c: Class)
    requires forall h :: h in hits ==> !Picks(c, h)
    ensures Only(hits, c) == []
  {
    hide Picks;
    if hits != [] {
      OnlyNone(hits[..|hits| - 1], c);
    }
  }

  /** A document of the whole list whose hit was fetched is one of the fetched part. */
  lemma FetchedDoc(hits: seq<SearchResult>, n: nat, d: Doc)
    requires n <= |hits| && d in Docs(hits) && Has(hits[..n], d)
    ensures d in Docs(hits[..n])
  {
    forall x | x in hits[..n] && x.docId == d.docId
      ensures x.score <= d.score
    {
      assert x in hits;
    }
    InDocs(hits[..n], d);
  }

  lemma PartDoc(hits: seq<SearchResult>, n: nat, d: Doc)
    requires ByScore(hits) && n <= |hits| && d in Docs(hits[..n])
    ensures d in Docs(hits) && exists h :: h in hits[..n] && DocOf(h) == d
  {
    var h :| h in hits[..n] && DocOf(h) == d;
    var i :| 0 <= i < n && hits[i] == h;
    forall x | x in hits && x.docId == d.docId
      ensures x.score <= d.score
    {
      var j :| 0 <= j < |hits| && hits[j] == x;
      if j < n {
        assert hits[..n][j] == x;
      }
    }
    InDocs(hits, d);
  }

  /** Nothing of a missed document's score and id was fetched, and nothing below it. */
  lemma FetchedIsAbove(hits: seq<SearchResult>, n: nat, d: Doc)
    requires ByScore(hits) && n <= |hits| && d in Docs(hits) && d !in Docs(hits[..n])
    ensures forall h :: h in hits[..n] ==> h.score >= d.score && DocOf(h) != d
  {
    var x :| x in hits && DocOf(x) == d;
    var p :| 0 <= p < |hits| && hits[p] == x;
    forall h | h in hits[..n]
      ensures h.score >= d.score && DocOf(h) != d
    {
      var j :| 0 <= j < n && hits[j] == h;
      if DocOf(h) == d {
        FetchedDoc(hits, n, d);
      } else if p < n {
        assert hits[..n][p] == x;
        FetchedDoc(hits, n, d);
      }
    }
  }

  lemma RoomBehind(hits: seq<SearchResult>, n: nat, d: Doc)
    requires n <= |hits| && forall h :: h in hits[..n] ==> h.score >= d.score && DocOf(h) != d
    ensures n + |Only(hits, Own(d))| <= |Only(hits, From(d.score))|
  {
    assert hits == hits[..n] + hits[n..];
    OnlyAppend(hits[..n], hits[n..], Own(d));
    OnlyAppend(hits[..n], hits[n..], From(d.score));
    OnlyNone(hits[..n], Own(d));
    OnlyAll(hits[..n], From(d.score));
    OnlySizes(hits[n..], d);
  }

  lemma {:induction false} DocsAtMost(hits: seq<SearchResult>, docs: set<Doc>)
    requires forall d :: d in docs ==> Has(hits, d)
    ensures |docs| <= |hits|
  {
    if hits == [] {
      assert docs == {};
    } else {
      var most, last := hits[..|hits| - 1], hits[|hits| - 1];
      assert hits == most + [last];
      forall d | d in docs - {DocOf(last)}
        ensures Has(most, d)
      {
        var x :| x in hits && DocOf(x) == d;
        assert x in most;
      }
      DocsAtMost(most, docs - {DocOf(last)});
    }
  }

  /** Fewer documents score above one within the cut than fit. */
  lemma FewerAbove(docs: set<Doc>, d: Doc)
    requires d in docs
    ensures |ScoringOver(docs, d.score)| < |UpTo(docs, d)|
  {
    StringLeTotal(d.docId, d.docId);
    SubsetSize(ScoringOver(docs, d.score) + {d}, UpTo(docs, d));
  }

  lemma RoomWithin(hits: seq<SearchResult>, n: nat, k: nat, d: Doc)
    requires ByScore(hits) && n <= |hits| && d in Docs(hits) && |UpTo(Docs(hits), d)| <= k <= |Docs(hits[..n])|
    requires forall h :: h in hits[..n] ==> h.score >= d.score
    ensures |Only(hits, Over(d.score))| + k <= n + |ScoringOver(Docs(hits), d.score)|
  {
    hide Docs, UpTo;
    var t, fetched := d.score, hits[..n];
    var above := ScoringOver(Docs(hits), t);
    var level := Docs(fetched) - above;
    forall e | e in level
      ensures Has(Only(fetched, At(t)), e)
    {
      PartDoc(hits, n, e);
    }
    DocsAtMost(Only(fetched, At(t)), level);
    SubsetSize(Docs(fetched), above + level);
    FewerAbove(Docs(hits), d);
    OnlySizes(fetched, d);
    OnlyAll(fetched, From(t));
    AboveIsFetched(hits, n, t);
  }

  /** A fetch that reaches a score has everything above it. */
  lemma AboveIsFetched(hits: seq<SearchResult>, n: nat, t: int)
    requires ByScore(hits) && n <= |hits| && Only(hits[..n], At(t)) != []
    ensures Only(hits, Over(t)) == Only(hits[..n], Over(t))
  {
    hide Only;
    var h := Only(hits[..n], At(t))[0];
    assert h in Only(hits[..n], At(t));
    var p :| 0 <= p < n && hits[p] == h;
    forall x | x in hits[n..]
      ensures !Picks(Over(t), x)
    {
      var j :| n <= j < |hits| && hits[j] == x;
    }
    assert hits == hits[..n] + hits[n..];
    OnlyAppend(hits[..n], hits[n..], Over(t));
    OnlyNone(hits[n..], Over(t));
  }

  lemma TiedBehind(hits: seq<SearchResult>, n: nat, k: nat, d: Doc)
    requires ByScore(hits) && n <= |hits| && d in Docs(hits) && d !in Docs(hits[..n]) && k <= |Docs(hits[..n])|
    requires forall h :: h in hits[..n] ==> h.score >= d.score
    ensures k < |ScoringFrom(Docs(hits), d.score)|
  {
    hide Docs;
    forall e | e in Docs(hits[..n])
      ensures e in ScoringFrom(Docs(hits), d.score)
    {
      PartDoc(hits, n, e);
    }
    SubsetSize(Docs(hits[..n]) + {d}, ScoringFrom(Docs(hits), d.score));
  }

  lemma MissedStraddles(hits: seq<SearchResult>, maxDocs: nat, topK: nat)
    requires ByScore(hits) && |hits| <= maxDocs && topK >= 1
    requires !CutFetched(Docs(hits), Docs(Cut(hits, StopLimit(hits, maxDocs, topK))), topK)
    ensures TieMayCut(hits, maxDocs, topK)
  {
    hide Docs, Bests, ByScore, UpTo, ScoringFrom, ScoringOver, Only, LimitAt, StopFrom;
    var i, limit := StopFrom(hits, maxDocs, topK, 0), StopLimit(hits, maxDocs, topK);
    StopsEnough(hits, maxDocs, topK, 0);
    if limit >= |hits| {
      assert Cut(hits, limit) == hits;
      SelfFetched(Docs(hits), topK);
      assert false;
    } else {
      BestsAreDocs(hits[..limit]);
      var d :| d in Docs(hits) && |UpTo(Docs(hits), d)| <= topK && d !in Docs(hits[..limit]);
      FetchedIsAbove(hits, limit, d);
      RoomBehind(hits, limit, d);
      RoomWithin(hits, limit, topK, d);
      TiedBehind(hits, limit, topK, d);
      assert Straddles(hits, maxDocs, topK, d, i);
    }
  }

  // ----- a straddling document can be missed -----

  /** The hits with one of each chosen document moved to the front. */
  lemma {:induction false} OneOfEach(hits: seq<SearchResult>, chosen: set<Doc>) returns (front: seq<SearchResult>)
    requires forall d :: d in chosen ==> Has(hits, d)
    ensures multiset(front) == multiset(hits) && |chosen| <= |front|
    ensures forall d :: d in chosen ==> Has(front[..|chosen|], d)
    decreases |chosen|
  {
    if chosen == {} {
      front := hits;
    } else {
      var d :| d in chosen;
      var x :| x in hits && DocOf(x) == d;
      var j :| 0 <= j < |hits| && hits[j] == x;
      var rest := hits[..j] + hits[j + 1..];
      assert hits == hits[..j] + [x] + hits[j + 1..];
      forall e | e in chosen - {d}
        ensures Has(rest, e)
      {
        var y :| y in hits && DocOf(y) == e;
        assert y in rest;
      }
      var others := OneOfEach(rest, chosen - {d});
      front := [x] + others;
      OneMore(front, x, others, d, chosen);
    }
  }

  lemma OneMore(front: seq<SearchResult>, x: SearchResult, others: seq<SearchResult>, d: Doc, chosen: set<Doc>)
    requires front == [x] + others && DocOf(x) == d && d in chosen && |chosen| - 1 <= |others|
    requires forall e :: e in chosen - {d} ==> Has(others[..|chosen| - 1], e)
    ensures forall e :: e in chosen ==> Has(front[..|chosen|], e)
  {
    assert front[..|chosen|] == [x] + others[..|chosen| - 1];
    forall e | e in chosen
      ensures Has(front[..|chosen|], e)
    {
      if e == d {
        assert x in front[..|chosen|];
      } else {
        assert e in chosen - {d};
        var y :| y in others[..|chosen| - 1] && DocOf(y) == e;
        assert y in front[..|chosen|];
      }
    }
  }

  lemma {:induction false} Choose(docs: set<Doc>, n: nat) returns (chosen: set<Doc>)
    requires n <= |docs|
    ensures chosen <= docs && |chosen| == n
    decreases |docs|
  {
    if n == |docs| {
      chosen := docs;
    } else {
      var d :| d in docs;
      chosen := Choose(docs - {d}, n);
    }
  }

  lemma {:induction false} PartsOf(hits: seq<SearchResult>, d: Doc)
    ensures multiset(hits) ==
        multiset(Only(hits, Over(d.score))) + multiset(Only(hits, Other(d))) + multiset(Only(hits, Own(d))) +
        multiset(Only(hits, Under(d.score)))
  {
    hide Only, Picks;
    forall h
      ensures
        multiset(hits)[h] ==
            multiset(Only(hits, Over(d.score)))[h] + multiset(Only(hits, Other(d)))[h] +
            multiset(Only(hits, Own(d)))[h] + multiset(Only(hits, Under(d.score)))[h]
    {
      OnlyCounts(hits, Over(d.score), h);
      OnlyCounts(hits, Other(d), h);
      OnlyCounts(hits, Own(d), h);
      OnlyCounts(hits, Under(d.score), h);
      OnePart(h, d);
    }
  }

  lemma OnePart(h: SearchResult, d: Doc)
    ensures Picks(Over(d.score), h) ==> !Picks(Other(d), h) && !Picks(Own(d), h) && !Picks(Under(d.score), h)
    ensures Picks(Other(d), h) ==> !Picks(Own(d), h) && !Picks(Under(d.score), h)
    ensures Picks(Own(d), h) ==> !Picks(Under(d.score), h)
    ensures Picks(Over(d.score), h) || Picks(Other(d), h) || Picks(Own(d), h) || Picks(Under(d.score), h)
  {
  }

  lemma {:induction false} OnlyByScore(hits: seq<SearchResult>, c: Class)
    requires ByScore(hits)
    ensures ByScore(Only(hits, c))
  {
    if hits != [] {
      var most := hits[..|hits| - 1];
      OnlyByScore(most, c);
      forall h | h in Only(most, c)
        ensures h.score >= hits[|hits| - 1].score
      {
        var j :| 0 <= j < |most| && most[j] == h;
        assert hits[j] == h;
      }
    }
  }

  /** The documents of `d`'s score that the fetch takes first. */
  lemma Fillers(hits: seq<SearchResult>, k: nat, d: Doc) returns (chosen: set<Doc>)
    requires d in Docs(hits) && |UpTo(Docs(hits), d)| <= k < |ScoringFrom(Docs(hits), d.score)|
    ensures |chosen| + |ScoringOver(Docs(hits), d.score)| == k
    ensures forall e :: e in chosen ==> e in Docs(hits) && e.score == d.score && e != d
  {
    hide Docs, UpTo;
    var over := ScoringOver(Docs(hits), d.score);
    var others := ScoringFrom(Docs(hits), d.score) - over - {d};
    assert ScoringFrom(Docs(hits), d.score) == over + {d} + others;
    FewerAbove(Docs(hits), d);
    chosen := Choose(others, k - |over|);
  }

  lemma Joined(over: seq<SearchResult>, front: seq<SearchResult>, own: seq<SearchResult>, under: seq<SearchResult>,
      t: int)
    requires ByScore(over) && ByScore(under)
    requires (forall h :: h in over ==> h.score > t) && (forall h :: h in under ==> h.score < t)
    requires (forall h :: h in front ==> h.score == t) && (forall h :: h in own ==> h.score == t)
    ensures ByScore(over + front + own + under)
  {
    var middle := front + own;
    assert forall h :: h in middle ==> h.score == t;
    var all := over + middle + under;
    forall i, j | 0 <= i < j < |all|
      ensures all[i].score >= all[j].score
    {
      assert i < |over| ==> all[i] in over;
      assert |over| <= i < |over| + |middle| ==> all[i] in middle;
      assert |over| <= j < |over| + |middle| ==> all[j] in middle;
      assert j >= |over| + |middle| ==> all[j] in under;
    }
    assert all == over + front + own + under;
  }

  /** `b` starts with the hits above `d`, then one of each chosen document, and has those of `d` last among its
      score's. */
  ghost predicate KeepsBehind(hits: seq<SearchResult>, b: seq<SearchResult>, d: Doc, chosen: set<Doc>) {
    var over, last := |Only(hits, Over(d.score))|, |Only(hits, From(d.score))| - |Only(hits, Own(d))|;
    && over + |chosen| <= last <= |b|
    && (forall h :: h in hits && h.score > d.score ==> h in b[..over])
    && (forall e :: e in chosen ==> Has(b[over..over + |chosen|], e))
    && (forall h :: h in b[..last] ==> DocOf(h) != d)
  }

  lemma Reordered(hits: seq<SearchResult>, k: nat, d: Doc) returns (b: seq<SearchResult>, chosen: set<Doc>)
    requires ByScore(hits) && d in Docs(hits) && |UpTo(Docs(hits), d)| <= k < |ScoringFrom(Docs(hits), d.score)|
    ensures multiset(b) == multiset(hits) && ByScore(b)
    ensures |chosen| + |ScoringOver(Docs(hits), d.score)| == k
    ensures forall e :: e in chosen ==> e in Docs(hits) && e.score == d.score
    ensures KeepsBehind(hits, b, d, chosen)
  {
    hide Docs, UpTo, ScoringFrom, ScoringOver, Only, ByScore, KeepsBehind, Has, Picks;
    chosen := Fillers(hits, k, d);
    forall e | e in chosen
      ensures Has(Only(hits, Other(d)), e)
    {
      HasOther(hits, d, e);
    }
    var front := OneOfEach(Only(hits, Other(d)), chosen);
    b := Only(hits, Over(d.score)) + front + Only(hits, Own(d)) + Only(hits, Under(d.score));
    StillByScore(hits, d, front, b);
    IsBehind(hits, d, front, b, chosen);
  }

  lemma StillByScore(hits: seq<SearchResult>, d: Doc, front: seq<SearchResult>, b: seq<SearchResult>)
    requires ByScore(hits) && multiset(front) == multiset(Only(hits, Other(d)))
    requires b == Only(hits, Over(d.score)) + front + Only(hits, Own(d)) + Only(hits, Under(d.score))
    ensures multiset(b) == multiset(hits) && ByScore(b)
  {
    hide Only, ByScore;
    SameElements(front, Only(hits, Other(d)));
    PartsOf(hits, d);
    OnlyByScore(hits, Over(d.score));
    OnlyByScore(hits, Under(d.score));
    Joined(Only(hits, Over(d.score)), front, Only(hits, Own(d)), Only(hits, Under(d.score)), d.score);
  }

  lemma IsBehind(hits: seq<SearchResult>, d: Doc, front: seq<SearchResult>, b: seq<SearchResult>, chosen: set<Doc>)
    requires multiset(front) == multiset(Only(hits, Other(d))) && |chosen| <= |front|
    requires forall e :: e in chosen ==> Has(front[..|chosen|], e)
    requires b == Only(hits, Over(d.score)) + front + Only(hits, Own(d)) + Only(hits, Under(d.score))
    ensures KeepsBehind(hits, b, d, chosen)
  {
    hide Only, Has;
    SameSize(front, Only(hits, Other(d)));
    SameElements(front, Only(hits, Other(d)));
    OnlySizes(hits, d);
    Layout(Only(hits, Over(d.score)), front, Only(hits, Own(d)), Only(hits, Under(d.score)), b, |chosen|);
    var last := |Only(hits, Over(d.score))| + |front|;
    forall h | h in b[..last]
      ensures DocOf(h) != d
    {
      assert Picks(Over(d.score), h) || Picks(Other(d), h);
    }
  }

  lemma SameElements(a: seq<SearchResult>, b: seq<SearchResult>)
    requires multiset(a) == multiset(b)
    ensures forall h :: h in a <==> h in b
  {
    forall h
      ensures h in a <==> h in b
    {
      assert h in a <==> h in multiset(a);
      assert h in b <==> h in multiset(b);
    }
  }

  lemma Layout(over: seq<SearchResult>, front: seq<SearchResult>, own: seq<SearchResult>, under: seq<SearchResult>,
      b: seq<SearchResult>, n: nat)
    requires b == over + front + own + under && n <= |front|
    ensures b[..|over|] == over && b[|over|..|over| + n] == front[..n]
    ensures forall h :: h in b[..|over| + |front|] ==> h in over || h in front
  {
    assert b[..|over| + |front|] == over + front;
  }

  lemma HasOther(hits: seq<SearchResult>, d: Doc, e: Doc)
    requires e in Docs(hits) && e.score == d.score && e != d
    ensures Has(Only(hits, Other(d)), e)
  {
    var h :| h in hits && DocOf(h) == e;
    assert h in Only(hits, Other(d));
  }

  /** That order has `k` documents within the first `limit` hits. */
  lemma FullFetch(hits: seq<SearchResult>, b: seq<SearchResult>, k: nat, d: Doc, chosen: set<Doc>, limit: nat)
    requires multiset(b) == multiset(hits) && KeepsBehind(hits, b, d, chosen)
    requires |Only(hits, Over(d.score))| + |chosen| <= limit <= |b|
    requires |chosen| + |ScoringOver(Docs(hits), d.score)| == k
    requires forall e :: e in chosen ==> e in Docs(hits) && e.score == d.score
    ensures |Docs(b[..limit])| >= k
  {
    hide Docs, Only;
    DocsIgnoreOrder(hits, b);
    var above, over := ScoringOver(Docs(hits), d.score), |Only(hits, Over(d.score))|;
    forall e | e in above
      ensures e in Docs(b[..limit])
    {
      InDocs(hits, e);
      var h :| h in hits && DocOf(h) == e;
      assert h in b[..over] && h in b[..limit];
      FetchedDoc(b, limit, e);
    }
    forall e | e in chosen
      ensures e in Docs(b[..limit])
    {
      var h :| h in b[over..over + |chosen|] && DocOf(h) == e;
      assert h in b[..limit];
      FetchedDoc(b, limit, e);
    }
    assert |above + chosen| == k;
    SubsetSize(above + chosen, Docs(b[..limit]));
  }

  lemma StraddlingIsMissed(hits: seq<SearchResult>, maxDocs: nat, topK: nat, d: Doc, i: nat)
      returns (b: seq<SearchResult>)
    requires ByScore(hits) && |hits| <= maxDocs && topK >= 1 && Straddles(hits, maxDocs, topK, d, i)
    ensures multiset(b) == multiset(hits) && ByScore(b)
    ensures FetchLoop(b, maxDocs, topK) != Cut(Deduped(b), topK)
  {
    hide Docs, Bests, ByScore, UpTo, ScoringFrom, ScoringOver, Only, StopFrom, LimitAt, Ranking, KeepsBehind,
        CutFetched;
    var limit := LimitAt(maxDocs, topK, i);
    var chosen: set<Doc>;
    b, chosen := Reordered(hits, topK, d);
    SameSize(b, hits);
    OwnHit(hits, d);
    OnlySizes(hits, d);
    FullFetch(hits, b, topK, d, chosen, limit);
    BestsAreDocs(b[..limit]);
    StopsFirst(b, maxDocs, topK, 0, i);
    LimitsGrow(maxDocs, topK, StopFrom(b, maxDocs, topK, 0), i);
    NotFetched(hits, b, d, chosen, StopLimit(b, maxDocs, topK));
    DocsIgnoreOrder(hits, b);
    MissedInCut(Docs(b), Docs(b[..StopLimit(b, maxDocs, topK)]), topK, d);
    LoopAgreesIfFetched(b, maxDocs, topK);
  }

  lemma MissedInCut(all: set<Doc>, fetched: set<Doc>, k: nat, d: Doc)
    requires d in all && |UpTo(all, d)| <= k && d !in fetched
    ensures !CutFetched(all, fetched, k)
  {
  }

  lemma OwnHit(hits: seq<SearchResult>, d: Doc)
    requires d in Docs(hits)
    ensures |Only(hits, Own(d))| >= 1
  {
    var h :| h in hits && DocOf(h) == d;
    assert h in Only(hits, Own(d));
  }

  lemma NotFetched(hits: seq<SearchResult>, b: seq<SearchResult>, d: Doc, chosen: set<Doc>, stop: nat)
    requires KeepsBehind(hits, b, d, chosen) && stop + |Only(hits, Own(d))| <= |Only(hits, From(d.score))|
    ensures d !in Docs(b[..stop])
  {
    hide Only;
    var last := |Only(hits, From(d.score))| - |Only(hits, Own(d))|;
    assert b[..stop] == b[..last][..stop];
    assert forall h :: h in b[..stop] ==> h in b[..last];
  }

  // ----- theorems -----

  /** Whatever order the index gives to hits of one score, the loop returns the complete ranking up to `topK`. */
  ghost predicate LoopIsComplete(hits: seq<SearchResult>, maxDocs: nat, topK: nat)
    requires topK >= 1
  {
    forall b :: multiset(b) == multiset(hits) && ByScore(b) ==> FetchLoop(b, maxDocs, topK) == Cut(Deduped(b), topK)
  }

  lemma LoopIsCompleteExactly(hits: seq<SearchResult>, maxDocs: nat, topK: nat)
    requires ByScore(hits) && |hits| <= maxDocs && topK >= 1
    ensures LoopIsComplete(hits, maxDocs, topK) <==> !TieMayCut(hits, maxDocs, topK)
  {
    hide FetchLoop, Deduped, ByScore, Straddles, Docs;
    if TieMayCut(hits, maxDocs, topK) {
      var d, i :| Straddles(hits, maxDocs, topK, d, i);
      var b := StraddlingIsMissed(hits, maxDocs, topK, d, i);
    } else {
      forall b | multiset(b) == multiset(hits) && ByScore(b)
        ensures FetchLoop(b, maxDocs, topK) == Cut(Deduped(b), topK)
      {
        SameSize(b, hits);
        LoopAgreesIfFetched(b, maxDocs, topK);
        if !CutFetched(Docs(b), Docs(Cut(b, StopLimit(b, maxDocs, topK))), topK) {
          MissedStraddles(b, maxDocs, topK);
          TieIgnoresOrder(b, hits, maxDocs, topK);
        }
      }
    }
  }

  // ----- hits with distinct doc_ids -----

  ghost predicate DistinctHits(hits: seq<SearchResult>) {
    forall i, j :: 0 <= i < j < |hits| ==> hits[i].docId != hits[j].docId
  }

  /** A straddling document is tied across the cut. */
  lemma StraddlingIsTied(hits: seq<SearchResult>, maxDocs: nat, topK: nat, ranked: seq<SearchResult>)
    requires TieMayCut(hits, maxDocs, topK) && Ranks(ranked, Bests(hits))
    ensures !NoTieAcrossCut(ranked, topK)
  {
    hide Bests, Docs, Only, UpTo, ScoringOver, LimitAt, ScoringFrom, ResultsUpTo;
    var d, i :| Straddles(hits, maxDocs, topK, d, i);
    var x := BestFor(hits, d);
    assert x in ranked;
    var p :| 0 <= p < |ranked| && ranked[p] == x;
    PlaceIsCount(ranked, Bests(hits), p);
    DocPlace(hits, x);
    if |ranked| <= topK || ranked[topK].score < d.score {
      AllBeforeCut(hits, ranked, topK, d.score);
      assert false;
    } else {
      InOrder(ranked, p, topK - 1);
      InOrder(ranked, topK - 1, topK);
    }
  }

  lemma InOrder(ranked: seq<SearchResult>, i: nat, j: nat)
    requires Sorted(RanksUpTo, ranked) && i <= j < |ranked|
    ensures ranked[i].score >= ranked[j].score
  {
    assert i < j ==> RanksUpTo(ranked[i], ranked[j]);
  }

  lemma AllBeforeCut(hits: seq<SearchResult>, ranked: seq<SearchResult>, k: nat, t: int)
    requires Ranks(ranked, Bests(hits)) && (k < |ranked| ==> ranked[k].score < t)
    ensures |ScoringFrom(Docs(hits), t)| <= k
  {
    hide Bests, Docs;
    var first := Cut(ranked, k);
    forall e | e in ScoringFrom(Docs(hits), t)
      ensures Has(first, e)
    {
      var x := BestFor(hits, e);
      assert x in ranked;
      var p :| 0 <= p < |ranked| && ranked[p] == x;
      if k <= p {
        InOrder(ranked, k, p);
      } else {
        assert first[p] == x;
      }
    }
    DocsAtMost(first, ScoringFrom(Docs(hits), t));
  }

  lemma HitIsDoc(hits: seq<SearchResult>, x: SearchResult)
    requires DistinctHits(hits) && x in hits
    ensures DocOf(x) in Docs(hits)
  {
    assert forall y :: y in hits && y.docId == x.docId ==> y == x;
  }

  lemma {:induction false} OnlyDistinct(hits: seq<SearchResult>, c: Class)
    requires DistinctHits(hits)
    ensures DistinctHits(Only(hits, c))
  {
    if hits != [] {
      var most := hits[..|hits| - 1];
      OnlyDistinct(most, c);
      forall h | h in Only(most, c)
        ensures h.docId != hits[|hits| - 1].docId
      {
        var j :| 0 <= j < |most| && most[j] == h;
        assert hits[j] == h;
      }
    }
  }

  /** A list of different doc_ids within a set of documents is no longer than the set. */
  lemma NoMoreThan(part: seq<SearchResult>, docs: set<Doc>)
    requires DistinctHits(part) && forall x :: x in part ==> DocOf(x) in docs
    ensures |part| <= |docs|
  {
    ElementCount(part);
    var own := set x | x in Elements(part) :: DocOf(x);
    DocSetSize(Elements(part), own);
    SubsetSize(own, docs);
  }

  lemma TiedStraddles(hits: seq<SearchResult>, maxDocs: nat, topK: nat, ranked: seq<SearchResult>)
    requires DistinctHits(hits) && |hits| <= maxDocs && topK >= 1 && Ranks(ranked, Bests(hits)) &&
        !NoTieAcrossCut(ranked, topK)
    ensures TieMayCut(hits, maxDocs, topK)
  {
    hide Bests, Docs, UpTo, ScoringOver, ScoringFrom, ResultsUpTo;
    var d := DocOf(ranked[topK - 1]);
    assert ranked[topK - 1] in ranked;
    BestIsDoc(hits, ranked[topK - 1]);
    PlaceIsCount(ranked, Bests(hits), topK - 1);
    DocPlace(hits, ranked[topK - 1]);
    TiedCounts(hits, topK, ranked, d);
    assert Straddles(hits, maxDocs, topK, d, 0);
  }

  lemma TiedCounts(hits: seq<SearchResult>, k: nat, ranked: seq<SearchResult>, d: Doc)
    requires DistinctHits(hits) && Ranks(ranked, Bests(hits)) && 0 < k < |ranked| &&
        ranked[k - 1].score == ranked[k].score && d == DocOf(ranked[k - 1])
    ensures k < |ScoringFrom(Docs(hits), d.score)| <= |Only(hits, From(d.score))| <= |hits|
    ensures |Only(hits, Over(d.score))| <= |ScoringOver(Docs(hits), d.score)|
    ensures |Only(hits, Own(d))| <= 1
  {
    hide Bests, Docs, Only;
    forall x | x in ranked[..k + 1]
      ensures DocOf(x) in ScoringFrom(Docs(hits), d.score)
    {
      var i :| 0 <= i <= k && ranked[i] == x;
      InOrder(ranked, i, k);
      BestIsDoc(hits, x);
    }
    NoMoreThan(ranked[..k + 1], ScoringFrom(Docs(hits), d.score));
    forall e | e in ScoringFrom(Docs(hits), d.score)
      ensures Has(Only(hits, From(d.score)), e)
    {
      InDocs(hits, e);
    }
    DocsAtMost(Only(hits, From(d.score)), ScoringFrom(Docs(hits), d.score));
    forall x | x in Only(hits, Over(d.score))
      ensures DocOf(x) in ScoringOver(Docs(hits), d.score)
    {
      HitIsDoc(hits, x);
    }
    OnlyDistinct(hits, Over(d.score));
    NoMoreThan(Only(hits, Over(d.score)), ScoringOver(Docs(hits), d.score));
    OnlyDistinct(hits, Own(d));
    NoMoreThan(Only(hits, Own(d)), {d});
    OnlySizes(hits, d);
  }

  /** If every doc_id has one hit, the loop is complete for every order of equal scores exactly when none of them
      straddle the cut. */
  lemma DistinctHitsExactly(hits: seq<SearchResult>, maxDocs: nat, topK: nat)
    requires ByScore(hits) && DistinctHits(hits) && |hits| <= maxDocs && topK >= 1
    ensures LoopIsComplete(hits, maxDocs, topK) <==> NoTieAcrossCut(Deduped(hits), topK)
  {
    hide LoopIsComplete, TieMayCut, NoTieAcrossCut, Bests, Ranking, ByScore;
    LoopIsCompleteExactly(hits, maxDocs, topK);
    BestsAreDistinct(hits);
    RankingRanks(Bests(hits));
    if TieMayCut(hits, maxDocs, topK) {
      StraddlingIsTied(hits, maxDocs, topK, Deduped(hits));
    }
    if !NoTieAcrossCut(Deduped(hits), topK) {
      TiedStraddles(hits, maxDocs, topK, Deduped(hits));
    }
  }
}
