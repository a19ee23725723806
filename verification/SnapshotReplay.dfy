/** Replaying the write-ahead log into a snapshot: `materialize_latest_snapshot` of src/indexing/builder.rs and the
    choice of segments in src/build_worker.rs. */
module SnapshotReplay {
  import opened Wrappers
  import opened Orders

  datatype Document = Document(docId: string, content: string)

  datatype Operation = Upsert | Delete

  datatype WalRecord = WalRecord(eventId: string, docId: string, op: Operation, document: Option<Document>,
      timestamp: int)

  const MIN_PLAUSIBLE_EPOCH_MILLIS := 1_000_000_000_000

  /** `WalRecord::validate`; `documentOk` stands for the document's own field checks. */
  predicate ValidRecord(r: WalRecord, documentOk: Document -> bool) {
    && r.eventId != "" && r.docId != "" && r.timestamp >= MIN_PLAUSIBLE_EPOCH_MILLIS
    && (r.op.Upsert? <==> r.document.Some?)
    && (r.document.Some? ==> r.document.value.docId == r.docId && documentOk(r.document.value))
  }

  /** What a record must be, by operation: an upsert carries a document of its own doc_id, a delete carries none. */
  predicate Accepted(r: WalRecord, documentOk: Document -> bool) {
    && |r.eventId| > 0 && |r.docId| > 0 && r.timestamp >= 1_000_000_000_000
    && match (r.op, r.document)
       case (Upsert, Some(d)) => d.docId == r.docId && documentOk(d)
       case (Delete, None) => true
       case _ => false
  }

  lemma AcceptedExactly(r: WalRecord, documentOk: Document -> bool)
    ensures ValidRecord(r, documentOk) <==> Accepted(r, documentOk)
  {
    match r.op
    case Upsert =>
    case Delete =>
  }

  ghost predicate AllValid(records: seq<WalRecord>, documentOk: Document -> bool) {
    forall i :: 0 <= i < |records| ==> ValidRecord(records[i], documentOk)
  }

  // ----- specification -----

  /** Record i has the maximum timestamp of its doc_id. */
  ghost predicate IsNewest(records: seq<WalRecord>, i: nat)
    requires i < |records|
  {
    forall j :: 0 <= j < |records| && records[j].docId == records[i].docId ==>
        records[j].timestamp <= records[i].timestamp
  }

  /** Record i is the latest of its doc_id: the maximum timestamp, and the last in order of those. */
  ghost predicate IsLatest(records: seq<WalRecord>, i: nat)
    requires i < |records|
  {
    IsNewest(records, i)
    && forall j :: i < j < |records| && records[j].docId == records[i].docId ==>
        records[j].timestamp < records[i].timestamp
  }

  function Kept(r: WalRecord): Option<Document> {
    match r.op
    case Upsert => r.document
    case Delete => None
  }

  /** Document `d` is what the latest record of its doc_id leaves. */
  ghost predicate IsLive(records: seq<WalRecord>, d: Document) {
    exists i: nat :: i < |records| && IsLatest(records, i) && Kept(records[i]) == Some(d)
  }

  /** Exactly the documents whose latest record is an upsert. */
  ghost function Live(records: seq<WalRecord>): set<Document> {
    set i: nat | i < |records| && IsLatest(records, i) && Kept(records[i]).Some? :: Kept(records[i]).value
  }

  predicate ById(a: Document, b: Document) {
    StringLe(a.docId, b.docId)
  }

  lemma ByIdIsTotal()
    ensures TotalPreorder(ById)
  {
    forall x: Document, y: Document
      ensures ById(x, y) || ById(y, x)
    {
      StringLeTotal(x.docId, y.docId);
    }
    forall x: Document, y: Document, z: Document | ById(x, y) && ById(y, z)
      ensures ById(x, z)
    {
      StringLeTransitive(x.docId, y.docId, z.docId);
    }
  }

  lemma LatestIsUnique(records: seq<WalRecord>, i: nat, j: nat)
    requires i < |records| && j < |records| && IsLatest(records, i) && IsLatest(records, j)
    requires records[i].docId == records[j].docId
    ensures i == j
  {
  }

  lemma LiveHasOnePerId(records: seq<WalRecord>, documentOk: Document -> bool)
    requires AllValid(records, documentOk)
    ensures NoTiesIn(ById, Live(records))
  {
    forall x, y | x in Live(records) && y in Live(records) && ById(x, y) && ById(y, x)
      ensures x == y
    {
      var i: nat :| i < |records| && IsLatest(records, i) && Kept(records[i]) == Some(x);
      var j: nat :| j < |records| && IsLatest(records, j) && Kept(records[j]) == Some(y);
      StringLeTotal(x.docId, y.docId);
      assert ValidRecord(records[i], documentOk) && ValidRecord(records[j], documentOk);
      LatestIsUnique(records, i, j);
    }
  }

  // ----- the map of latest records -----

  ghost predicate IsLatestRecord(records: seq<WalRecord>, r: WalRecord) {
    exists i: nat :: i < |records| && IsLatest(records, i) && records[i] == r
  }

  ghost predicate HoldsLatest(records: seq<WalRecord>, m: map<string, WalRecord>) {
    && (forall id :: id in m ==> m[id].docId == id && IsLatestRecord(records, m[id]))
    && (forall i :: 0 <= i < |records| ==> records[i].docId in m)
  }

  lemma StaysLatest(records: seq<WalRecord>, next: WalRecord, r: WalRecord)
    requires IsLatestRecord(records, r) && (r.docId == next.docId ==> r.timestamp > next.timestamp)
    ensures IsLatestRecord(records + [next], r)
  {
    var i: nat :| i < |records| && IsLatest(records, i) && records[i] == r;
    assert (records + [next])[i] == r;
    assert IsLatest(records + [next], i);
  }

  lemma BecomesLatest(records: seq<WalRecord>, m: map<string, WalRecord>, next: WalRecord)
    requires HoldsLatest(records, m) && (next.docId in m ==> m[next.docId].timestamp <= next.timestamp)
    ensures IsLatestRecord(records + [next], next)
  {
    var longer, n := records + [next], |records|;
    forall j | 0 <= j < n && longer[j].docId == next.docId
      ensures longer[j].timestamp <= next.timestamp
    {
      var i: nat :| i < n && IsLatest(records, i) && records[i] == m[next.docId];
      assert records[j].timestamp <= records[i].timestamp;
    }
    assert longer[n] == next && IsLatest(longer, n);
  }

  lemma UpdateKeepsLatest(records: seq<WalRecord>, m: map<string, WalRecord>, next: WalRecord)
    requires HoldsLatest(records, m)
    ensures HoldsLatest(records + [next],
                        if next.docId in m && m[next.docId].timestamp > next.timestamp then m
                            else m[next.docId := next])
  {
    hide IsLatestRecord;
    var keep := next.docId in m && m[next.docId].timestamp > next.timestamp;
    var m' := if keep then m else m[next.docId := next];
    forall id | id in m'
      ensures m'[id].docId == id && IsLatestRecord(records + [next], m'[id])
    {
      if id == next.docId && !keep {
        BecomesLatest(records, m, next);
      } else {
        StaysLatest(records, next, m[id]);
      }
    }
  }

  lemma MapHoldsLive(records: seq<WalRecord>, m: map<string, WalRecord>)
    requires HoldsLatest(records, m)
    ensures (set id | id in m && Kept(m[id]).Some? :: Kept(m[id]).value) == Live(records)
  {
    forall d | d in Live(records)
      ensures exists id :: id in m && Kept(m[id]) == Some(d)
    {
      var i: nat :| i < |records| && IsLatest(records, i) && Kept(records[i]) == Some(d);
      var j: nat :| j < |records| && IsLatest(records, j) && records[j] == m[records[i].docId];
      LatestIsUnique(records, i, j);
    }
    forall id | id in m && Kept(m[id]).Some?
      ensures Kept(m[id]).value in Live(records)
    {
      var i: nat :| i < |records| && IsLatest(records, i) && records[i] == m[id];
    }
  }

  /** What the records replay to; `None` is the error of an invalid one. */
  ghost function Snapshot(records: seq<WalRecord>, documentOk: Document -> bool): Option<seq<Document>> {
    if AllValid(records, documentOk) then Some(Ranking(ById, Live(records))) else None
  }

  lemma SnapshotShowsLive(a: seq<WalRecord>, b: seq<WalRecord>, documentOk: Document -> bool)
    requires AllValid(a, documentOk) && AllValid(b, documentOk) && Snapshot(a, documentOk) == Snapshot(b, documentOk)
    ensures Live(a) == Live(b)
  {
    hide Live, Ranking, AllValid;
    ByIdIsTotal();
    RankingFacts(ById, Live(a));
    RankingFacts(ById, Live(b));
    forall d
      ensures d in Live(a) <==> d in Live(b)
    {
      assert d in Live(a) <==> d in multiset(Live(a));
      assert d in Live(b) <==> d in multiset(Live(b));
    }
  }

  // ----- the code -----

  /** `materialize_latest_snapshot`: an invalid record anywhere is an error; otherwise the live documents by doc_id. */
  method MaterializeLatestSnapshot(records: seq<WalRecord>, documentOk: Document -> bool)
      returns (documents: Option<seq<Document>>)
    ensures documents.Some? <==> forall i :: 0 <= i < |records| ==> Accepted(records[i], documentOk)
    ensures documents == Snapshot(records, documentOk)
    ensures documents.Some? ==> forall d :: d in documents.value <==>
        exists i: nat ::
          i < |records| && IsLatest(records, i) && records[i].op.Upsert? && records[i].document == Some(d)
    ensures documents.Some? ==> forall i: nat, d ::
        i < |records| && IsLatest(records, i) && records[i].op.Delete? && d in documents.value ==>
          d.docId != records[i].docId
  {
    hide HoldsLatest, Accepted, ValidRecord;
    forall r
      ensures ValidRecord(r, documentOk) <==> Accepted(r, documentOk)
    {
      AcceptedExactly(r, documentOk);
    }
    var latestByDocId: map<string, WalRecord> := map[];
    NothingHeld();
    for i := 0 to |records|
      invariant AllValid(records[..i], documentOk) && HoldsLatest(records[..i], latestByDocId)
    {
      var record := records[i];
      if !ValidRecord(record, documentOk) {
        return None;
      }
      assert records[..i] + [record] == records[..i + 1];
      UpdateKeepsLatest(records[..i], latestByDocId, record);
      if record.docId in latestByDocId && latestByDocId[record.docId].timestamp > record.timestamp {
      } else {
        latestByDocId := latestByDocId[record.docId := record];
      }
    }
    assert records[..|records|] == records;
    MapHoldsLive(records, latestByDocId);
    var live := set id | id in latestByDocId && Kept(latestByDocId[id]).Some? :: Kept(latestByDocId[id]).value;
    var collected := InAnyOrder(live);
    var sorted := Sort(ById, collected);
    ByIdIsTotal();
    SortSorts(ById, collected);
    LiveHasOnePerId(records, documentOk);
    OneRanking(ById, Live(records), sorted);
    SnapshotIsExact(records, documentOk, sorted);
    return Some(sorted);
  }

  lemma NothingHeld()
    ensures HoldsLatest([], map[])
  {
  }

  /** The documents are strictly ascending by doc_id and are exactly those of the records that are upserts, have their
      doc_id's maximum timestamp, and come last of those; a doc_id deleted by such a record has none. */
  lemma SnapshotIsExact(records: seq<WalRecord>, documentOk: Document -> bool, documents: seq<Document>)
    requires AllValid(records, documentOk) && documents == Ranking(ById, Live(records))
    ensures forall i, j :: 0 <= i < j < |documents| ==>
        StringLe(documents[i].docId, documents[j].docId) && documents[i].docId != documents[j].docId
    ensures forall d :: d in documents <==>
        exists i: nat ::
          && i < |records| && records[i].op.Upsert? && records[i].document == Some(d)
          && (forall j :: 0 <= j < |records| && records[j].docId == records[i].docId ==>
                records[j].timestamp <= records[i].timestamp)
          && (forall j :: i < j < |records| && records[j].docId == records[i].docId ==>
                records[j].timestamp < records[i].timestamp)
    ensures forall d :: d in documents <==>
        exists i: nat ::
          i < |records| && IsLatest(records, i) && records[i].op.Upsert? && records[i].document == Some(d)
    ensures forall i: nat, d ::
        i < |records| && IsLatest(records, i) && records[i].op.Delete? && d in documents ==> d.docId != records[i].docId
  {
    hide Ranking, IsLatest, IsLive, Live;
    AscendingById(records, documentOk, documents);
    ListsLive(records, documents);
    LiveAreUpserts(records, documentOk);
    LatestMeans(records);
  }

  lemma AscendingById(records: seq<WalRecord>, documentOk: Document -> bool, documents: seq<Document>)
    requires AllValid(records, documentOk) && documents == Ranking(ById, Live(records))
    ensures forall i, j :: 0 <= i < j < |documents| ==>
        StringLe(documents[i].docId, documents[j].docId) && documents[i].docId != documents[j].docId
  {
    hide Ranking, Live;
    ByIdIsTotal();
    RankingFacts(ById, Live(records));
    LiveHasOnePerId(records, documentOk);
    forall i, j | 0 <= i < j < |documents|
      ensures documents[i].docId != documents[j].docId
    {
      TwoPlaces(documents, Live(records), i, j);
      StringLeTotal(documents[i].docId, documents[i].docId);
      assert documents[i] in multiset(documents) && documents[j] in multiset(documents);
    }
  }

  lemma ListsLive(records: seq<WalRecord>, documents: seq<Document>)
    requires documents == Ranking(ById, Live(records))
    ensures forall d :: d in documents <==> IsLive(records, d)
  {
    hide Ranking, IsLatest;
    ByIdIsTotal();
    RankingFacts(ById, Live(records));
    forall d
      ensures d in documents <==> IsLive(records, d)
    {
      assert d in documents <==> d in multiset(documents);
    }
  }

  lemma LatestMeans(records: seq<WalRecord>)
    ensures forall i: nat :: i < |records| ==>
        (IsLatest(records, i) <==>
          && (forall j :: 0 <= j < |records| && records[j].docId == records[i].docId ==>
                records[j].timestamp <= records[i].timestamp)
          && (forall j :: i < j < |records| && records[j].docId == records[i].docId ==>
                records[j].timestamp < records[i].timestamp))
  {
  }

  /** An upsert leaves its document and a delete none. */
  lemma LiveAreUpserts(records: seq<WalRecord>, documentOk: Document -> bool)
    requires AllValid(records, documentOk)
    ensures forall d :: IsLive(records, d) <==>
        exists i: nat ::
          i < |records| && IsLatest(records, i) && records[i].op.Upsert? && records[i].document == Some(d)
    ensures forall i: nat, d ::
        i < |records| && IsLatest(records, i) && records[i].op.Delete? && IsLive(records, d) ==>
          d.docId != records[i].docId
  {
    hide IsLatest;
    forall i: nat, d | i < |records| && IsLatest(records, i) && records[i].op.Delete? && IsLive(records, d)
      ensures d.docId != records[i].docId
    {
      var l: nat :| l < |records| && IsLatest(records, l) && Kept(records[l]) == Some(d);
      assert ValidRecord(records[l], documentOk);
      if d.docId == records[i].docId {
        LatestIsUnique(records, l, i);
      }
    }
  }

  lemma TwoPlaces(list: seq<Document>, s: set<Document>, i: nat, j: nat)
    requires multiset(list) == multiset(s) && i < j < |list|
    ensures list[i] != list[j]
  {
    var front := list[..j];
    assert list == front + [list[j]] + list[j + 1..];
    assert front[i] in multiset(front);
    assert multiset(s)[list[j]] <= 1;
  }

  // ----- order independence -----

  /** The records with the maximum timestamp of a doc_id agree on what they leave. */
  ghost predicate Settled(records: seq<WalRecord>) {
    forall i: nat, j: nat ::
      (i < |records| && j < |records| && records[i].docId == records[j].docId
       && IsNewest(records, i) && IsNewest(records, j)) ==>
        Kept(records[i]) == Kept(records[j])
  }

  /** No doc_id repeats a timestamp. */
  ghost predicate TimestampsDiffer(records: seq<WalRecord>) {
    forall i, j :: 0 <= i < j < |records| && records[i].docId == records[j].docId ==>
        records[i].timestamp != records[j].timestamp
  }

  lemma DifferentTimestampsSettle(records: seq<WalRecord>)
    requires TimestampsDiffer(records)
    ensures Settled(records)
  {
    forall i: nat, j: nat | i < |records| && j < |records| && records[i].docId == records[j].docId &&
        IsNewest(records, i) && IsNewest(records, j)
      ensures i == j
    {
      assert records[i].timestamp == records[j].timestamp;
    }
  }

  lemma Shuffled(a: seq<WalRecord>, b: seq<WalRecord>, i: nat) returns (j: nat)
    requires multiset(a) == multiset(b) && i < |a|
    ensures j < |b| && b[j] == a[i] && (IsNewest(a, i) ==> IsNewest(b, j))
  {
    assert a[i] in multiset(b);
    j :| 0 <= j < |b| && b[j] == a[i];
    if IsNewest(a, i) {
      forall m | 0 <= m < |b| && b[m].docId == b[j].docId
        ensures b[m].timestamp <= b[j].timestamp
      {
        assert b[m] in multiset(a);
        var n :| 0 <= n < |a| && a[n] == b[m];
      }
    }
  }

  lemma {:induction false} SomeLatest(records: seq<WalRecord>, i: nat) returns (l: nat)
    requires i < |records|
    ensures l < |records| && records[l].docId == records[i].docId && IsLatest(records, l)
    decreases |records|
  {
    var n := |records| - 1;
    var init := records[..n];
    if exists k :: 0 <= k < n && records[k].docId == records[i].docId {
      var k :| 0 <= k < n && records[k].docId == records[i].docId;
      var m := SomeLatest(init, k);
      if records[n].docId == records[i].docId && records[n].timestamp >= records[m].timestamp {
        forall j | 0 <= j < n && records[j].docId == records[n].docId
          ensures records[j].timestamp <= records[n].timestamp
        {
          assert init[j].timestamp <= init[m].timestamp;
        }
        l := n;
      } else {
        forall j | 0 <= j < n
          ensures records[j] == init[j]
        {
        }
        l := m;
      }
    } else {
      l := i;
    }
  }

  lemma LiveIgnoresOrder(a: seq<WalRecord>, b: seq<WalRecord>)
    requires multiset(a) == multiset(b) && Settled(a)
    ensures Live(a) <= Live(b)
  {
    hide Settled, IsLatest, IsNewest;
    forall d | d in Live(a)
      ensures d in Live(b)
    {
      var i: nat :| i < |a| && IsLatest(a, i) && Kept(a[i]) == Some(d);
      var j := Shuffled(a, b, i);
      var l := SomeLatest(b, j);
      var k := Shuffled(b, a, l);
      LatestIsNewest(a, i);
      LatestIsNewest(b, l);
      SettledAt(a, i, k);
      assert Kept(b[l]) == Some(d);
    }
  }

  lemma LatestIsNewest(records: seq<WalRecord>, i: nat)
    requires i < |records| && IsLatest(records, i)
    ensures IsNewest(records, i)
  {
  }

  lemma SettledAt(records: seq<WalRecord>, i: nat, j: nat)
    requires Settled(records) && i < |records| && j < |records| && records[i].docId == records[j].docId &&
        IsNewest(records, i) && IsNewest(records, j)
    ensures Kept(records[i]) == Kept(records[j])
  {
  }

  lemma SettledIgnoresOrder(a: seq<WalRecord>, b: seq<WalRecord>)
    requires multiset(a) == multiset(b) && Settled(a)
    ensures Settled(b)
  {
    hide Settled, IsNewest;
    forall i: nat, j: nat | i < |b| && j < |b| && b[i].docId == b[j].docId && IsNewest(b, i) && IsNewest(b, j)
      ensures Kept(b[i]) == Kept(b[j])
    {
      var m := Shuffled(b, a, i);
      var n := Shuffled(b, a, j);
      SettledAt(a, m, n);
    }
    SettledFrom(b);
  }

  lemma SettledFrom(b: seq<WalRecord>)
    requires forall i: nat, j: nat ::
        i < |b| && j < |b| && b[i].docId == b[j].docId && IsNewest(b, i) && IsNewest(b, j) ==> Kept(b[i]) == Kept(b[j])
    ensures Settled(b)
  {
  }

  ghost predicate SameInEveryOrder(a: seq<WalRecord>) {
    forall b :: multiset(b) == multiset(a) ==> Live(b) == Live(a)
  }

  /** The records of `a`, record `i` moved to the end. */
  function MovedLast(a: seq<WalRecord>, i: nat): (b: seq<WalRecord>)
    requires i < |a|
    ensures multiset(b) == multiset(a)
  {
    assert a == a[..i] + [a[i]] + a[i + 1..];
    a[..i] + a[i + 1..] + [a[i]]
  }

  lemma LatestDecides(records: seq<WalRecord>, p: nat, d: Document, documentOk: Document -> bool)
    requires AllValid(records, documentOk) && p < |records| && IsLatest(records, p) && d.docId == records[p].docId
    ensures d in Live(records) <==> Kept(records[p]) == Some(d)
  {
    if d in Live(records) {
      var l: nat :| l < |records| && IsLatest(records, l) && Kept(records[l]) == Some(d);
      assert ValidRecord(records[l], documentOk);
      LatestIsUnique(records, l, p);
    }
  }

  /** A newest record moved to the end decides its doc_id. */
  lemma LastNewestDecides(a: seq<WalRecord>, i: nat, d: Document, documentOk: Document -> bool)
    requires AllValid(a, documentOk) && i < |a| && IsNewest(a, i) && d.docId == a[i].docId
    ensures d in Live(MovedLast(a, i)) <==> Kept(a[i]) == Some(d)
  {
    var b, n := MovedLast(a, i), |a| - 1;
    assert forall j :: 0 <= j < n ==> b[j] == a[if j < i then j else j + 1];
    assert IsLatest(b, n) && AllValid(b, documentOk);
    LatestDecides(b, n, d, documentOk);
  }

  /** The snapshot is the same for every order of the records exactly when the newest records of each doc_id agree. */
  lemma OrderMattersExactlyOnTies(a: seq<WalRecord>, documentOk: Document -> bool)
    requires AllValid(a, documentOk)
    ensures SameInEveryOrder(a) <==> Settled(a)
  {
    hide IsNewest, IsLatest, AllValid;
    if Settled(a) {
      forall b | multiset(b) == multiset(a)
        ensures Live(b) == Live(a)
      {
        LiveIgnoresOrder(a, b);
        SettledIgnoresOrder(a, b);
        LiveIgnoresOrder(b, a);
      }
    }
    if SameInEveryOrder(a) {
      forall i: nat, j: nat | i < |a| && j < |a| && a[i].docId == a[j].docId && IsNewest(a, i) && IsNewest(a, j)
        ensures Kept(a[i]) == Kept(a[j])
      {
        AgreeAt(a, i, j, documentOk);
      }
    }
  }

  lemma AgreeAt(a: seq<WalRecord>, i: nat, j: nat, documentOk: Document -> bool)
    requires AllValid(a, documentOk) && SameInEveryOrder(a)
    requires i < |a| && j < |a| && a[i].docId == a[j].docId && IsNewest(a, i) && IsNewest(a, j)
    ensures Kept(a[i]) == Kept(a[j])
  {
    hide IsNewest, Live;
    assert ValidRecord(a[i], documentOk) && ValidRecord(a[j], documentOk);
    assert Live(MovedLast(a, i)) == Live(MovedLast(a, j)) == Live(a);
    if Kept(a[i]).Some? {
      LastNewestDecides(a, i, Kept(a[i]).value, documentOk);
      LastNewestDecides(a, j, Kept(a[i]).value, documentOk);
    }
    if Kept(a[j]).Some? {
      LastNewestDecides(a, i, Kept(a[j]).value, documentOk);
      LastNewestDecides(a, j, Kept(a[j]).value, documentOk);
    }
  }

  // ----- which segments are replayed -----

  /** Strictly ascending, hence each key once. */
  ghost predicate StrictlyAscending(keys: seq<string>) {
    forall i, j :: 0 <= i < j < |keys| ==> StringLe(keys[i], keys[j]) && keys[i] != keys[j]
  }

  ghost function KeySet(keys: seq<string>): set<string> {
    set key | key in keys
  }

  lemma StringsAreOrdered()
    ensures TotalPreorder(StringLe)
  {
    forall x: string, y: string
      ensures StringLe(x, y) || StringLe(y, x)
    {
      StringLeTotal(x, y);
    }
    forall x: string, y: string, z: string | StringLe(x, y) && StringLe(y, z)
      ensures StringLe(x, z)
    {
      StringLeTransitive(x, y, z);
    }
  }

  /** `dedup` drops an element equal to the one before it. */
  method Dedup(sorted: seq<string>) returns (keys: seq<string>)
    requires Sorted(StringLe, sorted)
    ensures StrictlyAscending(keys) && KeySet(keys) == KeySet(sorted)
  {
    hide KeySet, StrictlyAscending, StringLe;
    keys := [];
    NoKeys();
    assert sorted[..0] == [];
    for i := 0 to |sorted|
      invariant KeySet(keys) == KeySet(sorted[..i]) && StrictlyAscending(keys)
      invariant keys == [] <==> i == 0
      invariant i > 0 ==> keys[|keys| - 1] == sorted[i - 1]
    {
      assert sorted[..i + 1] == sorted[..i] + [sorted[i]];
      KeySetAdds(sorted[..i], sorted[i]);
      KeySetAdds(keys, sorted[i]);
      if keys == [] || keys[|keys| - 1] != sorted[i] {
        AscendsTo(keys, sorted[i]);
        keys := keys + [sorted[i]];
      }
    }
    assert sorted[..|sorted|] == sorted;
  }

  lemma NoKeys()
    ensures StrictlyAscending([])
  {
  }

  lemma KeySetAdds(keys: seq<string>, key: string)
    ensures KeySet(keys + [key]) == KeySet(keys) + {key}
    ensures key in keys ==> KeySet(keys) + {key} == KeySet(keys)
  {
    assert forall k :: k in keys + [key] <==> k in keys || k == key;
  }

  lemma AscendsTo(keys: seq<string>, next: string)
    requires StrictlyAscending(keys) && (keys != [] ==> StringLe(keys[|keys| - 1], next) && keys[|keys| - 1] != next)
    ensures StrictlyAscending(keys + [next])
  {
    forall i | 0 <= i < |keys|
      ensures StringLe(keys[i], next) && keys[i] != next
    {
      var last := keys[|keys| - 1];
      if i < |keys| - 1 {
        StringLeTransitive(keys[i], last, next);
        StringLeTotal(keys[i], last);
      }
    }
  }

  /** `snapshot_wal_keys`: every listed segment and the message's own, each exactly once. */
  method SnapshotWalKeys(listed: seq<string>, messageWalKey: string) returns (keys: seq<string>)
    ensures StrictlyAscending(keys) && KeySet(keys) == KeySet(listed) + {messageWalKey}
  {
    var all := listed;
    if messageWalKey !in listed {
      all := listed + [messageWalKey];
    }
    assert KeySet(all) == KeySet(listed) + {messageWalKey};
    var sorted := Sort(StringLe, all);
    StringsAreOrdered();
    SortSorts(StringLe, all);
    SameKeys(sorted, all);
    keys := Dedup(sorted);
  }

  lemma SameKeys(a: seq<string>, b: seq<string>)
    requires multiset(a) == multiset(b)
    ensures KeySet(a) == KeySet(b)
  {
    forall key
      ensures key in a <==> key in b
    {
      assert key in a <==> key in multiset(a);
    }
  }

  /** So two listings of the same segments, in any order and with any repetition, are replayed alike. */
  lemma {:induction false} KeysAreDetermined(a: seq<string>, b: seq<string>)
    requires StrictlyAscending(a) && StrictlyAscending(b) && KeySet(a) == KeySet(b)
    ensures a == b
  {
    StringsAreOrdered();
    AscendingIsUnique(a);
    AscendingIsUnique(b);
    forall x, y | x in a && y in a && StringLe(x, y) && StringLe(y, x)
      ensures x == y
    {
      StringLeTotal(x, y);
    }
    SortedUnique(StringLe, a, b);
  }

  lemma {:induction false} AscendingIsUnique(keys: seq<string>)
    requires StrictlyAscending(keys)
    ensures multiset(keys) == multiset(KeySet(keys))
  {
    if keys == [] {
      assert KeySet(keys) == {};
    } else {
      var init, last := keys[..|keys| - 1], keys[|keys| - 1];
      AscendingIsUnique(init);
      assert keys == init + [last];
      assert KeySet(keys) == KeySet(init) + {last};
      assert last !in KeySet(init);
    }
  }

  /** The records of the segments, segment by segment. */
  function Replayed(segments: map<string, seq<WalRecord>>, keys: seq<string>): seq<WalRecord>
    requires forall key :: key in keys ==> key in segments
  {
    if keys == [] then [] else Replayed(segments, keys[..|keys| - 1]) + segments[keys[|keys| - 1]]
  }

  lemma {:induction false} ReplayedAdds(segments: map<string, seq<WalRecord>>, a: seq<string>, b: seq<string>)
    requires (forall key :: key in a ==> key in segments) && (forall key :: key in b ==> key in segments)
    ensures Replayed(segments, a + b) == Replayed(segments, a) + Replayed(segments, b)
  {
    if b == [] {
      assert a + b == a;
    } else {
      var most, last := b[..|b| - 1], b[|b| - 1];
      ReplayedAdds(segments, a, most);
      assert (a + b)[..|a + b| - 1] == a + most;
      assert Replayed(segments, a + b) == Replayed(segments, a + most) + segments[last];
    }
  }

  ghost predicate Known(segments: map<string, seq<WalRecord>>, keys: seq<string>) {
    forall key :: key in keys ==> key in segments
  }

  lemma ReplayedOne(segments: map<string, seq<WalRecord>>, key: string)
    requires key in segments
    ensures Replayed(segments, [key]) == segments[key]
  {
    assert Replayed(segments, [key][..0]) == [];
  }

  /** Record `i` of the segment read at turn `q` is replayed after all of the earlier segments. */
  lemma Placed(segments: map<string, seq<WalRecord>>, keys: seq<string>, q: nat, i: nat)
    requires Known(segments, keys) && q < |keys| && i < |segments[keys[q]]|
    ensures
      var p := |Replayed(segments, keys[..q])| + i;
      p < |Replayed(segments, keys)| && Replayed(segments, keys)[p] == segments[keys[q]][i]
  {
    hide Replayed;
    assert keys == keys[..q] + [keys[q]] + keys[q + 1..];
    ReplayedAdds(segments, keys[..q], [keys[q]]);
    ReplayedAdds(segments, keys[..q] + [keys[q]], keys[q + 1..]);
    ReplayedOne(segments, keys[q]);
  }

  /** And every replayed record comes from such a place. */
  lemma {:induction false} Located(segments: map<string, seq<WalRecord>>, keys: seq<string>, p: nat)
      returns (q: nat, i: nat)
    requires Known(segments, keys) && p < |Replayed(segments, keys)|
    ensures q < |keys| && i < |segments[keys[q]]| && p == |Replayed(segments, keys[..q])| + i
    ensures Replayed(segments, keys)[p] == segments[keys[q]][i]
  {
    var most := keys[..|keys| - 1];
    if p < |Replayed(segments, most)| {
      q, i := Located(segments, most, p);
      assert most[..q] == keys[..q];
    } else {
      q, i := |most|, p - |Replayed(segments, most)|;
    }
  }

  /** Record `i` of a segment has the maximum timestamp of its doc_id over all segments, and is the last such in its
      own. */
  ghost predicate IsSegmentLast(segments: map<string, seq<WalRecord>>, keys: seq<string>, key: string, i: nat)
    requires Known(segments, keys)
  {
    && key in keys && i < |segments[key]|
    && (forall other, j ::
        other in keys && 0 <= j < |segments[other]| && segments[other][j].docId == segments[key][i].docId ==>
          segments[other][j].timestamp <= segments[key][i].timestamp)
    && (forall j :: i < j < |segments[key]| && segments[key][j].docId == segments[key][i].docId ==>
          segments[key][j].timestamp < segments[key][i].timestamp)
  }

  /** The segments' last newest records of one doc_id leave the same. */
  ghost predicate SegmentsSettled(segments: map<string, seq<WalRecord>>, keys: seq<string>)
    requires Known(segments, keys)
  {
    forall x, i: nat, y, j: nat :: PairSettled(segments, keys, x, i, y, j)
  }

  ghost predicate PairSettled(segments: map<string, seq<WalRecord>>, keys: seq<string>, x: string, i: nat, y: string,
      j: nat)
    requires Known(segments, keys)
  {
    IsSegmentLast(segments, keys, x, i) && IsSegmentLast(segments, keys, y, j) &&
        segments[x][i].docId == segments[y][j].docId ==>
      Kept(segments[x][i]) == Kept(segments[y][j])
  }

  /** The latest record is some segment's last newest one. */
  lemma LatestIsSegmentLast(segments: map<string, seq<WalRecord>>, keys: seq<string>, p: nat)
      returns (key: string, i: nat)
    requires Known(segments, keys) && p < |Replayed(segments, keys)| && IsLatest(Replayed(segments, keys), p)
    ensures IsSegmentLast(segments, keys, key, i) && segments[key][i] == Replayed(segments, keys)[p]
  {
    hide Replayed;
    var all, q := Replayed(segments, keys), 0;
    q, i := Located(segments, keys, p);
    key := keys[q];
    forall other, j | other in keys && 0 <= j < |segments[other]| && segments[other][j].docId == segments[key][i].docId
      ensures segments[other][j].timestamp <= segments[key][i].timestamp
    {
      var o :| 0 <= o < |keys| && keys[o] == other;
      Placed(segments, keys, o, j);
    }
    forall j | i < j < |segments[key]| && segments[key][j].docId == segments[key][i].docId
      ensures segments[key][j].timestamp < segments[key][i].timestamp
    {
      Placed(segments, keys, q, j);
    }
  }

  lemma KeySetsAgree(a: seq<string>, b: seq<string>)
    requires KeySet(a) == KeySet(b)
    ensures forall key :: key in a <==> key in b
  {
    forall key
      ensures key in a <==> key in b
    {
      assert key in a <==> key in KeySet(a);
      assert key in b <==> key in KeySet(b);
    }
  }

  lemma SegmentLastIgnoresOrder(segments: map<string, seq<WalRecord>>, a: seq<string>, b: seq<string>, key: string,
      i: nat)
    requires Known(segments, a) && Known(segments, b) && KeySet(a) == KeySet(b) && IsSegmentLast(segments, a, key, i)
    ensures IsSegmentLast(segments, b, key, i)
  {
    KeySetsAgree(a, b);
  }

  lemma SettledSegmentsReplay(segments: map<string, seq<WalRecord>>, a: seq<string>, b: seq<string>)
    requires Known(segments, a) && Known(segments, b) && KeySet(a) == KeySet(b) && SegmentsSettled(segments, a)
    ensures Live(Replayed(segments, a)) <= Live(Replayed(segments, b))
  {
    hide Replayed, IsLatest;
    var x, y := Replayed(segments, a), Replayed(segments, b);
    forall d | d in Live(x)
      ensures d in Live(y)
    {
      var p: nat :| p < |x| && IsLatest(x, p) && Kept(x[p]) == Some(d);
      var k, i := LatestIsSegmentLast(segments, a, p);
      var at := ReplayedToo(segments, a, b, p);
      var l := SomeLatest(y, at);
      var k', i' := LatestIsSegmentLast(segments, b, l);
      SegmentLastIgnoresOrder(segments, b, a, k', i');
      assert PairSettled(segments, a, k, i, k', i');
      assert Kept(y[l]) == Some(d);
    }
  }

  lemma ReplayedToo(segments: map<string, seq<WalRecord>>, a: seq<string>, b: seq<string>, p: nat) returns (at: nat)
    requires Known(segments, a) && Known(segments, b) && KeySet(a) == KeySet(b) && p < |Replayed(segments, a)|
    ensures at < |Replayed(segments, b)| && Replayed(segments, b)[at] == Replayed(segments, a)[p]
  {
    hide Replayed;
    var q, i := Located(segments, a, p);
    assert a[q] in KeySet(a);
    var o :| 0 <= o < |b| && b[o] == a[q];
    Placed(segments, b, o, i);
    at := |Replayed(segments, b[..o])| + i;
  }

  lemma ValidInEveryOrder(segments: map<string, seq<WalRecord>>, a: seq<string>, b: seq<string>,
      documentOk: Document -> bool)
    requires Known(segments, a) && Known(segments, b) && KeySet(a) == KeySet(b) &&
        AllValid(Replayed(segments, a), documentOk)
    ensures AllValid(Replayed(segments, b), documentOk)
  {
    hide Replayed, ValidRecord;
    forall p | 0 <= p < |Replayed(segments, b)|
      ensures ValidRecord(Replayed(segments, b)[p], documentOk)
    {
      var at := ReplayedToo(segments, b, a, p);
    }
  }

  /** The order with the segment of turn `q` read last. */
  function ReadLast(keys: seq<string>, q: nat): (b: seq<string>)
    requires q < |keys|
    ensures multiset(b) == multiset(keys) && KeySet(b) == KeySet(keys) && b != [] && b[|b| - 1] == keys[q]
  {
    assert keys == keys[..q] + [keys[q]] + keys[q + 1..];
    var b := keys[..q] + keys[q + 1..] + [keys[q]];
    SameKeys(b, keys);
    b
  }

  /** A last newest record decides its doc_id when its segment is read last. */
  lemma LastSegmentDecides(segments: map<string, seq<WalRecord>>, b: seq<string>, i: nat, d: Document,
      documentOk: Document -> bool)
    requires Known(segments, b) && b != [] && IsSegmentLast(segments, b, b[|b| - 1], i) &&
        AllValid(Replayed(segments, b), documentOk)
    requires i < |segments[b[|b| - 1]]| && d.docId == segments[b[|b| - 1]][i].docId
    ensures d in Live(Replayed(segments, b)) <==> Kept(segments[b[|b| - 1]][i]) == Some(d)
  {
    hide Replayed, Live, IsLatest, IsSegmentLast, ValidRecord;
    Placed(segments, b, |b| - 1, i);
    LastIsLatest(segments, b, i);
    LatestDecides(Replayed(segments, b), |Replayed(segments, b[..|b| - 1])| + i, d, documentOk);
  }

  lemma LastIsLatest(segments: map<string, seq<WalRecord>>, b: seq<string>, i: nat)
    requires Known(segments, b) && b != [] && IsSegmentLast(segments, b, b[|b| - 1], i)
    ensures
      var p := |Replayed(segments, b[..|b| - 1])| + i;
      p < |Replayed(segments, b)| && IsLatest(Replayed(segments, b), p)
  {
    var q := |b| - 1;
    var all, p := Replayed(segments, b), |Replayed(segments, b[..q])| + i;
    Placed(segments, b, q, i);
    forall l | 0 <= l < |all| && all[l].docId == all[p].docId
      ensures all[l].timestamp <= all[p].timestamp && (l > p ==> all[l].timestamp < all[p].timestamp)
    {
      var o, j := Located(segments, b, l);
      if l > p {
        assert all[l] == segments[b[q]][l - |Replayed(segments, b[..q])|];
      }
    }
  }

  /** The records of the segments decide the snapshot whatever order the segments are read in. */
  ghost predicate SameInEverySegmentOrder(segments: map<string, seq<WalRecord>>, keys: seq<string>,
      documentOk: Document -> bool)
    requires Known(segments, keys)
  {
    forall b :: multiset(b) == multiset(keys) && Known(segments, b) ==>
                  Snapshot(Replayed(segments, b), documentOk) == Snapshot(Replayed(segments, keys), documentOk)
  }

  lemma OrdersAgreeAt(segments: map<string, seq<WalRecord>>, keys: seq<string>, documentOk: Document -> bool, x: string,
      i: nat, y: string, j: nat)
    requires Known(segments, keys) && SameInEverySegmentOrder(segments, keys, documentOk) &&
        AllValid(Replayed(segments, keys), documentOk)
    requires IsSegmentLast(segments, keys, x, i) && IsSegmentLast(segments, keys, y, j) &&
        segments[x][i].docId == segments[y][j].docId
    ensures Kept(segments[x][i]).Some? ==> Kept(segments[x][i]) == Kept(segments[y][j])
  {
    hide Replayed, Live, ValidRecord, Ranking;
    var q :| 0 <= q < |keys| && keys[q] == x;
    var o :| 0 <= o < |keys| && keys[o] == y;
    var a, b := ReadLast(keys, q), ReadLast(keys, o);
    KnownAlike(segments, keys, a);
    KnownAlike(segments, keys, b);
    ValidInEveryOrder(segments, keys, a, documentOk);
    ValidInEveryOrder(segments, keys, b, documentOk);
    assert Snapshot(Replayed(segments, a), documentOk) == Snapshot(Replayed(segments, b), documentOk);
    SnapshotShowsLive(Replayed(segments, a), Replayed(segments, b), documentOk);
    SegmentLastIgnoresOrder(segments, keys, a, x, i);
    SegmentLastIgnoresOrder(segments, keys, b, y, j);
    if Kept(segments[x][i]).Some? {
      KeptIsOfRecord(segments, a, i, documentOk);
      LastSegmentDecides(segments, a, i, Kept(segments[x][i]).value, documentOk);
      LastSegmentDecides(segments, b, j, Kept(segments[x][i]).value, documentOk);
    }
  }

  lemma KnownAlike(segments: map<string, seq<WalRecord>>, a: seq<string>, b: seq<string>)
    requires Known(segments, a) && KeySet(a) == KeySet(b)
    ensures Known(segments, b)
  {
    KeySetsAgree(a, b);
  }

  lemma KeptIsOfRecord(segments: map<string, seq<WalRecord>>, b: seq<string>, i: nat, documentOk: Document -> bool)
    requires Known(segments, b) && b != [] && i < |segments[b[|b| - 1]]| && AllValid(Replayed(segments, b), documentOk)
    ensures Kept(segments[b[|b| - 1]][i]).Some? ==>
        Kept(segments[b[|b| - 1]][i]).value.docId == segments[b[|b| - 1]][i].docId
  {
    hide Replayed;
    Placed(segments, b, |b| - 1, i);
    assert ValidRecord(segments[b[|b| - 1]][i], documentOk);
  }

  lemma PairSettles(segments: map<string, seq<WalRecord>>, keys: seq<string>, documentOk: Document -> bool, x: string,
      i: nat, y: string, j: nat)
    requires Known(segments, keys) && SameInEverySegmentOrder(segments, keys, documentOk) &&
        AllValid(Replayed(segments, keys), documentOk)
    ensures PairSettled(segments, keys, x, i, y, j)
  {
    hide Replayed, SameInEverySegmentOrder, AllValid;
    if IsSegmentLast(segments, keys, x, i) && IsSegmentLast(segments, keys, y, j) &&
        segments[x][i].docId == segments[y][j].docId {
      OrdersAgreeAt(segments, keys, documentOk, x, i, y, j);
      OrdersAgreeAt(segments, keys, documentOk, y, j, x, i);
    }
  }

  /** The snapshot, or the error of replaying the segments, is the same for every order of the segments if and only if
      some record is invalid or, for every doc_id, the segments' last newest records leave the same. */
  lemma SegmentOrderMattersExactly(segments: map<string, seq<WalRecord>>, keys: seq<string>,
      documentOk: Document -> bool)
    requires Known(segments, keys)
    ensures
      SameInEverySegmentOrder(segments, keys, documentOk)
      <==> !AllValid(Replayed(segments, keys), documentOk) || SegmentsSettled(segments, keys)
  {
    hide Replayed, Live, ValidRecord, IsSegmentLast, Ranking, AllValid;
    if SameInEverySegmentOrder(segments, keys, documentOk) && AllValid(Replayed(segments, keys), documentOk) {
      forall x, i: nat, y, j: nat
        ensures PairSettled(segments, keys, x, i, y, j)
      {
        PairSettles(segments, keys, documentOk, x, i, y, j);
      }
    }
    if !AllValid(Replayed(segments, keys), documentOk) || SegmentsSettled(segments, keys) {
      forall b | multiset(b) == multiset(keys) && Known(segments, b)
        ensures Snapshot(Replayed(segments, b), documentOk) == Snapshot(Replayed(segments, keys), documentOk)
      {
        SnapshotIgnoresSegmentOrder(segments, keys, b, documentOk);
      }
    }
  }

  /** Settled segments replay to the same snapshot in two orders; invalid ones fail in both. */
  lemma SnapshotIgnoresSegmentOrder(segments: map<string, seq<WalRecord>>, a: seq<string>, b: seq<string>,
      documentOk: Document -> bool)
    requires Known(segments, a) && Known(segments, b) && multiset(a) == multiset(b)
    requires AllValid(Replayed(segments, a), documentOk) ==> SegmentsSettled(segments, a)
    ensures Snapshot(Replayed(segments, a), documentOk) == Snapshot(Replayed(segments, b), documentOk)
    ensures SegmentsSettled(segments, a) ==> Live(Replayed(segments, a)) == Live(Replayed(segments, b))
  {
    hide Replayed, Live, IsSegmentLast, AllValid, Ranking, SegmentsSettled;
    SameKeys(a, b);
    if SegmentsSettled(segments, a) {
      SegmentsSettledAlike(segments, a, b);
      SettledSegmentsReplay(segments, a, b);
      SettledSegmentsReplay(segments, b, a);
      assert Live(Replayed(segments, a)) == Live(Replayed(segments, b));
    }
    if AllValid(Replayed(segments, a), documentOk) {
      ValidInEveryOrder(segments, a, b, documentOk);
    } else if AllValid(Replayed(segments, b), documentOk) {
      ValidInEveryOrder(segments, b, a, documentOk);
    }
  }

  lemma SegmentsSettledAlike(segments: map<string, seq<WalRecord>>, a: seq<string>, b: seq<string>)
    requires Known(segments, a) && Known(segments, b) && KeySet(a) == KeySet(b) && SegmentsSettled(segments, a)
    ensures SegmentsSettled(segments, b)
  {
    hide IsSegmentLast;
    forall x, i: nat, y, j: nat
      ensures PairSettled(segments, b, x, i, y, j)
    {
      assert PairSettled(segments, a, x, i, y, j);
      if IsSegmentLast(segments, b, x, i) && IsSegmentLast(segments, b, y, j) {
        SegmentLastIgnoresOrder(segments, b, a, x, i);
        SegmentLastIgnoresOrder(segments, b, a, y, j);
      }
    }
  }

  /** Ties within one segment never matter: its order is kept. */
  lemma OneSegmentIsSettled(segments: map<string, seq<WalRecord>>, key: string)
    requires key in segments
    ensures SegmentsSettled(segments, [key])
  {
    forall x, i: nat, y, j: nat
      ensures PairSettled(segments, [key], x, i, y, j)
    {
      if IsSegmentLast(segments, [key], x, i) && IsSegmentLast(segments, [key], y, j) &&
          segments[x][i].docId == segments[y][j].docId {
        assert i == j;
      }
    }
  }

  /** For one, a batch that writes a doc_id twice: its records would not replay alike in every order of their own. */
  lemma BatchTie(segments: map<string, seq<WalRecord>>, key: string, first: WalRecord, second: WalRecord)
    requires key in segments && segments[key] == [first, second]
    requires first.docId == second.docId && first.timestamp == second.timestamp && Kept(first) != Kept(second)
    ensures SegmentsSettled(segments, [key]) && !Settled(Replayed(segments, [key]))
  {
    OneSegmentIsSettled(segments, key);
    ReplayedOne(segments, key);
    var records := [first, second];
    assert IsNewest(records, 0) && IsNewest(records, 1) && Kept(records[0]) != Kept(records[1]);
  }

  /** Records that would replay alike in every order of their own do so segment by segment. */
  lemma SettledSegments(segments: map<string, seq<WalRecord>>, keys: seq<string>)
    requires Known(segments, keys) && Settled(Replayed(segments, keys))
    ensures SegmentsSettled(segments, keys)
  {
    hide Replayed;
    forall x, i: nat, y, j: nat
      ensures PairSettled(segments, keys, x, i, y, j)
    {
      if IsSegmentLast(segments, keys, x, i) && IsSegmentLast(segments, keys, y, j) &&
          segments[x][i].docId == segments[y][j].docId {
        var p := SegmentLastIsNewest(segments, keys, x, i);
        var o := SegmentLastIsNewest(segments, keys, y, j);
        SettledAt(Replayed(segments, keys), p, o);
      }
    }
  }

  lemma SegmentLastIsNewest(segments: map<string, seq<WalRecord>>, keys: seq<string>, key: string, i: nat)
      returns (p: nat)
    requires Known(segments, keys) && IsSegmentLast(segments, keys, key, i)
    ensures p < |Replayed(segments, keys)| && Replayed(segments, keys)[p] == segments[key][i] &&
        IsNewest(Replayed(segments, keys), p)
  {
    hide Replayed;
    var q :| 0 <= q < |keys| && keys[q] == key;
    Placed(segments, keys, q, i);
    p := |Replayed(segments, keys[..q])| + i;
    forall l | 0 <= l < |Replayed(segments, keys)| && Replayed(segments, keys)[l].docId == segments[key][i].docId
      ensures Replayed(segments, keys)[l].timestamp <= segments[key][i].timestamp
    {
      var o, j := Located(segments, keys, l);
    }
  }
}
