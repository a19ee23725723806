/** The bounded parallel scan of src/query/turbo_searcher.rs: heaps of at most k candidates,
    folded over any split of the records and merged in any shape. Scores stand for their
    position in the total order of `f32::total_cmp`. */
module TopK {
  import opened Orders
  import opened DocIdChecks

  datatype RankedResult = RankedResult(score: int, docId: nat, recordIndex: nat)

  /** `compare_ranked_results(left, right) == Less`: a higher score, then a smaller doc_id. */
  predicate Better(left: RankedResult, right: RankedResult) {
    left.score > right.score || (left.score == right.score && left.docId < right.docId)
  }

  predicate RanksUpTo(left: RankedResult, right: RankedResult) {
    !Better(right, left)
  }

  /** `h` is a best min(k, n) of the n candidates `all`. */
  ghost predicate IsTop(k: nat, all: multiset<RankedResult>, h: multiset<RankedResult>) {
    && h <= all && |h| == Min(k, |all|)
    && forall x, y :: x in h && y in all - h ==> RanksUpTo(x, y)
  }

  /** The max-heap: `peek` is the worst candidate held. */
  class BoundedHeap {
    var items: multiset<RankedResult>

    constructor ()
      ensures items == multiset{}
    {
      items := multiset{};
    }

    /** Some candidate no other ranks below. */
    method Peek() returns (worst: RankedResult)
      requires items != multiset{}
      ensures worst in items && forall x :: x in items ==> RanksUpTo(x, worst)
    {
      worst :| worst in items;
      var rest := items - multiset{worst};
      while rest != multiset{}
        invariant worst in items && rest <= items
        invariant forall x :: x in items && x !in rest ==> RanksUpTo(x, worst)
        decreases |rest|
      {
        var x :| x in rest;
        if Better(worst, x) {
          worst := x;
        }
        rest := rest[x := 0];
      }
    }

    /** `into_iter`: the candidates held, in no particular order. */
    method Drain() returns (drained: seq<RankedResult>)
      modifies this
      ensures multiset(drained) == old(items)
    {
      drained := [];
      while items != multiset{}
        invariant multiset(drained) + items == old(items)
        decreases |items|
      {
        var x :| x in items;
        drained := drained + [x];
        items := items - multiset{x};
      }
    }

    method PushBounded(candidate: RankedResult, k: nat, ghost all: multiset<RankedResult>)
      requires k >= 1 && IsTop(k, all, items)
      modifies this
      ensures IsTop(k, all + multiset{candidate}, items)
    {
      if |items| < k {
        SmallHeapHoldsAll(k, all, items);
        items := items + multiset{candidate};
      } else {
        var worst := Peek();
        ReplaceWorst(k, all, items, worst, candidate);
        if Better(candidate, worst) {
          items := items - multiset{worst} + multiset{candidate};
        }
      }
    }
  }

  lemma SmallHeapHoldsAll(k: nat, all: multiset<RankedResult>, h: multiset<RankedResult>)
    requires IsTop(k, all, h) && |h| < k
    ensures h == all
  {
    assert |all - h| == 0;
  }

  lemma ReplaceWorst(k: nat, all: multiset<RankedResult>, h: multiset<RankedResult>, worst: RankedResult,
      candidate: RankedResult)
    requires k >= 1 && IsTop(k, all, h) && |h| == k && worst in h && forall x :: x in h ==> RanksUpTo(x, worst)
    ensures Better(candidate, worst) ==> IsTop(k, all + multiset{candidate}, h - multiset{worst} + multiset{candidate})
    ensures !Better(candidate, worst) ==> IsTop(k, all + multiset{candidate}, h)
  {
    if Better(candidate, worst) {
      CandidateIn(k, all, h, worst, candidate);
    } else {
      assert all + multiset{candidate} - h == (all - h) + multiset{candidate};
    }
  }

  lemma CandidateIn(k: nat, all: multiset<RankedResult>, h: multiset<RankedResult>, worst: RankedResult,
      candidate: RankedResult)
    requires k >= 1 && IsTop(k, all, h) && |h| == k && worst in h && forall x :: x in h ==> RanksUpTo(x, worst)
    requires Better(candidate, worst)
    ensures IsTop(k, all + multiset{candidate}, h - multiset{worst} + multiset{candidate})
  {
    var all', h' := all + multiset{candidate}, h - multiset{worst} + multiset{candidate};
    assert all' - h' == (all - h) + multiset{worst};
    forall x, y | x in h' && y in all' - h'
      ensures RanksUpTo(x, y)
    {
      assert x in h || x == candidate;
      assert y in all - h || y == worst;
      assert RanksUpTo(x, worst) && RanksUpTo(worst, y);
    }
  }

  /** How the parallel fold splits the records and how the partial heaps are merged; an empty part is the reduce
      identity. */
  datatype Plan = Part(records: seq<RankedResult>) | Merge(left: Plan, right: Plan)

  /** The records in order, whatever the split. */
  function Records(p: Plan): seq<RankedResult> {
    match p
    case Part(records) => records
    case Merge(left, right) => Records(left) + Records(right)
  }

  /** A best k of a best k of B and of A is a best k of A and B: what a discarded record lost to is still there. */
  lemma TopOfTops(k: nat, a: multiset<RankedResult>, b: multiset<RankedResult>, hb: multiset<RankedResult>,
      h: multiset<RankedResult>)
    requires k >= 1 && IsTop(k, b, hb) && IsTop(k, a + hb, h)
    ensures IsTop(k, a + b, h)
  {
    assert |a + hb| == |a| + |hb| && |a + b| == |a| + |b|;
    forall x, y | x in h && y in (a + b) - h
      ensures RanksUpTo(x, y)
    {
      if y !in (a + hb) - h {
        DiscardedIsBeaten(k, a, b, hb, h, x, y);
      }
    }
  }

  lemma DiscardedIsBeaten(k: nat, a: multiset<RankedResult>, b: multiset<RankedResult>, hb: multiset<RankedResult>,
                          h: multiset<RankedResult>, x: RankedResult, y: RankedResult)
    requires k >= 1 && IsTop(k, b, hb) && IsTop(k, a + hb, h)
    requires x in h && y in (a + b) - h && y !in (a + hb) - h
    ensures RanksUpTo(x, y)
  {
    assert y in b - hb;
    if x !in hb {
      FullHeapIsNotInside(k, b, hb, h, x, y);
      var z :| z in hb && hb[z] > h[z];
      assert z in (a + hb) - h;
      assert RanksUpTo(x, z) && RanksUpTo(z, y);
    }
  }

  /** A heap that discarded something holds k; with `x` from elsewhere in `h`, one of those k is missing from `h`. */
  lemma FullHeapIsNotInside(k: nat, b: multiset<RankedResult>, hb: multiset<RankedResult>, h: multiset<RankedResult>,
                            x: RankedResult, y: RankedResult)
    requires hb <= b && |hb| == Min(k, |b|) && y in b - hb
    requires |h| <= k && x in h && x !in hb
    ensures !(hb <= h)
  {
    ProperPartIsSmaller(hb, b, y);
    if hb <= h {
      ProperPartIsSmaller(hb, h, x);
      assert false;
    }
  }

  lemma ProperPartIsSmaller(part: multiset<RankedResult>, all: multiset<RankedResult>, x: RankedResult)
    requires part <= all && part[x] < all[x]
    ensures |part| < |all|
  {
    assert all == part + (all - part) && x in all - part;
  }

  /** The fold of one part: a fresh heap that takes every record. */
  method FoldPart(records: seq<RankedResult>, k: nat) returns (heap: BoundedHeap)
    requires k >= 1
    ensures fresh(heap) && IsTop(k, multiset(records), heap.items)
  {
    hide IsTop;
    heap := new BoundedHeap();
    NothingIsTop(k);
    for i := 0 to |records|
      invariant fresh(heap) && IsTop(k, multiset(records[..i]), heap.items)
    {
      heap.PushBounded(records[i], k, multiset(records[..i]));
      assert records[..i + 1] == records[..i] + [records[i]];
    }
    assert records[..|records|] == records;
  }

  lemma NothingIsTop(k: nat)
    ensures IsTop(k, multiset{}, multiset{})
  {
  }

  /** The reduce step: every candidate of `other` goes through the same bounded push. */
  method MergeInto(heap: BoundedHeap, other: BoundedHeap, k: nat, ghost a: multiset<RankedResult>)
    requires k >= 1 && heap != other && IsTop(k, a, heap.items)
    modifies heap
    ensures IsTop(k, a + other.items, heap.items)
  {
    hide IsTop;
    var todo := other.items;
    ghost var pushed: multiset<RankedResult> := multiset{};
    assert a + pushed == a;
    while todo != multiset{}
      invariant other.items == old(other.items) == pushed + todo && IsTop(k, a + pushed, heap.items)
      decreases |todo|
    {
      var candidate :| candidate in todo;
      heap.PushBounded(candidate, k, a + pushed);
      assert a + pushed + multiset{candidate} == a + (pushed + multiset{candidate});
      pushed := pushed + multiset{candidate};
      todo := todo - multiset{candidate};
    }
    assert pushed == other.items;
  }

  /** `scan_top_k` for one way of splitting and merging. */
  method ScanTopK(p: Plan, k: nat) returns (heap: BoundedHeap)
    requires k >= 1
    ensures fresh(heap) && IsTop(k, multiset(Records(p)), heap.items)
    ensures forall x, y :: x in heap.items && y in multiset(Records(p)) - heap.items ==>
        x.score > y.score || (x.score == y.score && x.docId <= y.docId)
  {
    hide IsTop;
    match p
    case Part(records) =>
      heap := FoldPart(records, k);
      TopOutranks(k, multiset(Records(p)), heap.items);
    case Merge(left, right) =>
      heap := ScanTopK(left, k);
      var other := ScanTopK(right, k);
      MergeInto(heap, other, k, multiset(Records(left)));
      TopOfTops(k, multiset(Records(left)), multiset(Records(right)), other.items, heap.items);
      TopOutranks(k, multiset(Records(p)), heap.items);
  }

  lemma TopOutranks(k: nat, all: multiset<RankedResult>, h: multiset<RankedResult>)
    requires IsTop(k, all, h)
    ensures forall x, y :: x in h && y in all - h ==>
        x.score > y.score || (x.score == y.score && x.docId <= y.docId)
  {
  }

  // ----- the ranking -----

  ghost predicate DistinctIds(records: seq<RankedResult>) {
    forall i, j :: 0 <= i < j < |records| ==> records[i].docId != records[j].docId
  }

  lemma RankingIsTotal()
    ensures TotalPreorder(RanksUpTo)
  {
  }

  lemma DistinctIdsDoNotTie(records: seq<RankedResult>)
    requires DistinctIds(records)
    ensures NoTies(RanksUpTo, records)
  {
  }

  /** Everything kept, in order, followed by everything discarded, in order, is in order. */
  lemma KeptThenDiscarded(all: multiset<RankedResult>, k: nat, kept: seq<RankedResult>, discarded: seq<RankedResult>)
    requires IsTop(k, all, multiset(kept)) && multiset(discarded) == all - multiset(kept)
    requires Sorted(RanksUpTo, kept) && Sorted(RanksUpTo, discarded)
    ensures Sorted(RanksUpTo, kept + discarded) && multiset(kept + discarded) == all
  {
    var whole := kept + discarded;
    forall i, j | 0 <= i < j < |whole|
      ensures RanksUpTo(whole[i], whole[j])
    {
      if i < |kept| <= j {
        assert whole[i] in multiset(kept) && whole[j] in multiset(discarded);
      }
    }
  }

  /** Sorting any best k gives exactly the first min(k, n) of the full sort. */
  lemma TopIsSortPrefix(records: seq<RankedResult>, k: nat, h: multiset<RankedResult>, ranked: seq<RankedResult>)
    requires DistinctIds(records) && IsTop(k, multiset(records), h) && multiset(ranked) == h &&
        Sorted(RanksUpTo, ranked)
    ensures |ranked| == Min(k, |records|) && ranked == Sort(RanksUpTo, records)[..|ranked|]
  {
    hide Sorted, Sort, NoTies, DistinctIds, TotalPreorder;
    RankingIsTotal();
    var rest := ToSeq(multiset(records) - h);
    SortSorts(RanksUpTo, rest);
    var whole := ranked + Sort(RanksUpTo, rest);
    KeptThenDiscarded(multiset(records), k, ranked, Sort(RanksUpTo, rest));
    assert |multiset(ranked)| == |ranked| && |multiset(records)| == |records|;
    DistinctIdsDoNotTie(records);
    SortOfSorted(RanksUpTo, records, whole);
    assert whole[..|ranked|] == ranked;
  }

  ghost function ToSeq(m: multiset<RankedResult>): (s: seq<RankedResult>)
    ensures multiset(s) == m
    decreases |m|
  {
    if m == multiset{} then [] else var x :| x in m; [x] + ToSeq(m - multiset{x})
  }

  /** `records` is what scoring a release with these doc_ids yields: record i carries the hash of doc_id i. */
  ghost predicate ScoredFrom(records: seq<RankedResult>, docIds: seq<string>, hash: string -> nat) {
    |records| == |docIds| && forall i :: 0 <= i < |records| ==> records[i].docId == hash(docIds[i])
  }

  /** In scores and ids: ordered by descending score and ascending id, and everything left out ranks after it. */
  lemma RankedByScore(records: seq<RankedResult>, k: nat, h: multiset<RankedResult>, ranked: seq<RankedResult>)
    requires DistinctIds(records) && IsTop(k, multiset(records), h) && multiset(ranked) == h
    requires Sorted(RanksUpTo, ranked)
    ensures multiset(ranked) <= multiset(records)
    ensures forall i, j :: 0 <= i < j < |ranked| ==>
        ranked[i].score > ranked[j].score || (ranked[i].score == ranked[j].score && ranked[i].docId < ranked[j].docId)
    ensures forall x, y :: x in ranked && y in multiset(records) - multiset(ranked) ==>
        x.score > y.score || (x.score == y.score && x.docId < y.docId)
  {
    hide Sorted, DistinctIds;
    DistinctIdsAppearOnce(records);
    forall i, j | 0 <= i < j < |ranked|
      ensures ranked[i].score > ranked[j].score ||
          (ranked[i].score == ranked[j].score && ranked[i].docId < ranked[j].docId)
    {
      PlacedInOrder(records, ranked, i, j);
    }
    forall x, y | x in ranked && y in multiset(records) - multiset(ranked)
      ensures x.score > y.score || (x.score == y.score && x.docId < y.docId)
    {
      assert x in multiset(ranked);
      SameIdSameRecord(records, x, y);
    }
  }

  lemma PlacedInOrder(records: seq<RankedResult>, ranked: seq<RankedResult>, i: nat, j: nat)
    requires DistinctIds(records) && Sorted(RanksUpTo, ranked) && multiset(ranked) <= multiset(records)
    requires (forall x :: multiset(records)[x] <= 1) && i < j < |ranked|
    ensures ranked[i].score > ranked[j].score ||
        (ranked[i].score == ranked[j].score && ranked[i].docId < ranked[j].docId)
  {
    TwicePlaced(ranked, i, j);
    SameIdSameRecord(records, ranked[i], ranked[j]);
    assert RanksUpTo(ranked[i], ranked[j]);
  }

  lemma {:induction false} DistinctIdsAppearOnce(records: seq<RankedResult>)
    requires DistinctIds(records)
    ensures forall x :: multiset(records)[x] <= 1
  {
    if records != [] {
      var most, last := records[..|records| - 1], records[|records| - 1];
      DistinctIdsAppearOnce(most);
      assert records == most + [last];
      assert last !in most;
    }
  }

  lemma SameIdSameRecord(records: seq<RankedResult>, x: RankedResult, y: RankedResult)
    requires DistinctIds(records) && x in multiset(records) && y in multiset(records)
    ensures x.docId == y.docId ==> x == y
  {
    var i :| 0 <= i < |records| && records[i] == x;
    var j :| 0 <= j < |records| && records[j] == y;
  }

  lemma TwicePlaced(ranked: seq<RankedResult>, i: nat, j: nat)
    requires i < j < |ranked|
    ensures ranked[i] == ranked[j] ==> multiset(ranked)[ranked[i]] >= 2
    ensures ranked[i] in multiset(ranked) && ranked[j] in multiset(ranked)
  {
    assert ranked == ranked[..i] + [ranked[i]] + ranked[i + 1..j] + [ranked[j]] + ranked[j + 1..];
  }

  /** The ranked answer: whatever the splits and merges, the full sort's first min(k, n). */
  method Search(p: Plan, k: nat) returns (ranked: seq<RankedResult>)
    requires k >= 1 && DistinctIds(Records(p))
    ensures |ranked| == Min(k, |Records(p)|)
    ensures ranked == Sort(RanksUpTo, Records(p))[..|ranked|]
    ensures multiset(ranked) <= multiset(Records(p))
    ensures forall i, j :: 0 <= i < j < |ranked| ==>
        ranked[i].score > ranked[j].score || (ranked[i].score == ranked[j].score && ranked[i].docId < ranked[j].docId)
    ensures forall x, y :: x in ranked && y in multiset(Records(p)) - multiset(ranked) ==>
        x.score > y.score || (x.score == y.score && x.docId < y.docId)
  {
    hide IsTop, DistinctIds, Sorted, RanksUpTo, Records, Sort;
    var heap := ScanTopK(p, k);
    ghost var h := heap.items;
    var drained := heap.Drain();
    ranked := Sort(RanksUpTo, drained);
    RankingIsTotal();
    SortSorts(RanksUpTo, drained);
    TopIsSortPrefix(Records(p), k, h, ranked);
    RankedByScore(Records(p), k, h, ranked);
  }

  /** However two scans come by their best k, both answers are the same. */
  lemma TopsRankAlike(records: seq<RankedResult>, k: nat, h: multiset<RankedResult>, g: multiset<RankedResult>,
      a: seq<RankedResult>, b: seq<RankedResult>)
    requires DistinctIds(records) && IsTop(k, multiset(records), h) && IsTop(k, multiset(records), g)
    requires multiset(a) == h && Sorted(RanksUpTo, a) && multiset(b) == g && Sorted(RanksUpTo, b)
    ensures a == b
  {
    hide DistinctIds, IsTop, Sorted, Sort;
    TopIsSortPrefix(records, k, h, a);
    TopIsSortPrefix(records, k, g, b);
  }

  /** End to end: a list of doc_ids the builder accepted makes every query's ranking unique,
      so two scans that split and merge the same records differently answer alike. */
  method SearchTwice(docIds: seq<string>, hash: string -> nat, p: Plan, q: Plan, k: nat)
      returns (accepted: bool, a: seq<RankedResult>, b: seq<RankedResult>)
    requires k >= 1 && Records(p) == Records(q) && ScoredFrom(Records(p), docIds, hash)
    ensures accepted ==> a == b == Sort(RanksUpTo, Records(p))[..Min(k, |docIds|)]
  {
    a, b := [], [];
    accepted := CheckIds(docIds, hash);
    if accepted {
      a := Search(p, k);
      b := Search(q, k);
    }
  }
}
