/** The release builder's checks on doc_ids and their hashes (src/index/static_release.rs). */
module DocIdChecks {
  /** `detect_duplicate_doc_ids` over the chunks' doc_ids. */
  method DetectDuplicateDocIds<T(==)>(docIds: seq<T>) returns (accepted: bool)
    ensures accepted <==> forall i, j :: 0 <= i < j < |docIds| ==> docIds[i] != docIds[j]
  {
    var seen: set<T> := {};
    for i := 0 to |docIds|
      invariant seen == set m | 0 <= m < i :: docIds[m]
      invariant forall m, n :: 0 <= m < n < i ==> docIds[m] != docIds[n]
    {
      if docIds[i] in seen {
        return false;
      }
      seen := seen + {docIds[i]};
    }
    return true;
  }

  /** `detect_hash_collisions`: equal hashes are accepted only for equal doc_ids, which the map overwrites. */
  method DetectHashCollisions<T(==)>(docIds: seq<T>, hash: T -> nat) returns (accepted: bool)
    ensures accepted <==>
        forall i, j :: 0 <= i < |docIds| && 0 <= j < |docIds| && hash(docIds[i]) == hash(docIds[j]) ==>
        docIds[i] == docIds[j]
  {
    var byHash: map<nat, T> := map[];
    for i := 0 to |docIds|
      invariant forall m :: 0 <= m < i ==> hash(docIds[m]) in byHash && byHash[hash(docIds[m])] == docIds[m]
      invariant forall h :: h in byHash ==> hash(byHash[h]) == h && byHash[h] in docIds[..i]
    {
      var h := hash(docIds[i]);
      if h in byHash && byHash[h] != docIds[i] {
        return false;
      }
      byHash := byHash[h := docIds[i]];
    }
    return true;
  }

  /** Together the two checks accept exactly when no two records share a hashed id. */
  method CheckIds<T(==)>(docIds: seq<T>, hash: T -> nat) returns (accepted: bool)
    ensures accepted <==> forall i, j :: 0 <= i < j < |docIds| ==> hash(docIds[i]) != hash(docIds[j])
  {
    accepted := DetectDuplicateDocIds(docIds);
    if accepted {
      accepted := DetectHashCollisions(docIds, hash);
    }
  }
}
