/** One uninterrupted `upload_release` of src/bin/static_activate.rs on a bucket no one else is writing. The interleaved
    runs are those of StaticActivation; this is what the whole call does, and when it succeeds. */
module UploadRelease {
  import opened Wrappers
  import opened ObjectStore
  import opened StaticActivation

  /** The stored object under a listed name, if any, is the file the manifest describes. */
  predicate FileCompatible(sha: string -> string, objects: map<Key, Blob>, id: string, o: Output) {
    ReleaseObject(id, o.name) in objects ==> Matches(sha, o, objects[ReleaseObject(id, o.name)])
  }

  /** Nothing already stored under the release's prefix contradicts it. */
  ghost predicate Compatible(sha: string -> string, objects: map<Key, Blob>, manifest: Manifest, doc: Blob) {
    && (forall i :: 0 <= i < |manifest.outputs| ==> FileCompatible(sha, objects, manifest.id, manifest.outputs[i]))
    && (ReleaseObject(manifest.id, MANIFEST) in objects ==> objects[ReleaseObject(manifest.id, MANIFEST)] == doc)
  }

  /** What create-only uploads of the first `n` listed files leave: what was there stays. */
  ghost function WithFiles(objects: map<Key, Blob>, dir: Dir, id: string, outputs: seq<Output>, n: nat): map<Key, Blob>
    requires n <= |outputs| && forall i :: 0 <= i < |outputs| ==> outputs[i].name in dir
  {
    if n == 0 then objects
    else
      var before := WithFiles(objects, dir, id, outputs, n - 1);
      var key := ReleaseObject(id, outputs[n - 1].name);
      if key in before then before else before[key := dir[outputs[n - 1].name]]
  }

  lemma {:induction false} WithFilesKeeps(objects: map<Key, Blob>, dir: Dir, id: string, outputs: seq<Output>, n: nat)
    requires n <= |outputs| && forall i :: 0 <= i < |outputs| ==> outputs[i].name in dir
    ensures
      var after := WithFiles(objects, dir, id, outputs, n);
      && (forall k :: k in objects ==> k in after && after[k] == objects[k])
      && (forall k :: k in after && k !in objects ==>
          k.ReleaseObject? && k.id == id && k.name in dir && after[k] == dir[k.name])
      && (forall k :: k in after && k !in objects ==> exists i :: 0 <= i < n && outputs[i].name == k.name)
      && (forall i :: 0 <= i < n ==> ReleaseObject(id, outputs[i].name) in after)
  {
    if n > 0 {
      WithFilesKeeps(objects, dir, id, outputs, n - 1);
      var before, after := WithFiles(objects, dir, id, outputs, n - 1), WithFiles(objects, dir, id, outputs, n);
      assert after == before || after == before[ReleaseObject(id, outputs[n - 1].name) := dir[outputs[n - 1].name]];
    }
  }

  /** An object that meets a listed file's name in the growing store either was there or is the local file, which
      matches. */
  lemma StoredMatches(sha: string -> string, objects: map<Key, Blob>, dir: Dir, n: nat)
    requires Verified(sha, dir) && n < |dir[MANIFEST].manifest.outputs|
    requires forall i :: 0 <= i < |dir[MANIFEST].manifest.outputs| ==> dir[MANIFEST].manifest.outputs[i].name in dir
    ensures
      var m := dir[MANIFEST].manifest;
      var after := WithFiles(objects, dir, m.id, m.outputs, n);
      var key := ReleaseObject(m.id, m.outputs[n].name);
      key in after ==> (Matches(sha, m.outputs[n], after[key]) <==> FileCompatible(sha, objects, m.id, m.outputs[n]))
  {
    hide Matches;
    var m := dir[MANIFEST].manifest;
    WithFilesKeeps(objects, dir, m.id, m.outputs, n);
    assert OutputIn(sha, dir, m.outputs[n]);
  }

  /** The manifest is not among the listed files, so it is only ever written last. */
  lemma ManifestUntouched(sha: string -> string, objects: map<Key, Blob>, dir: Dir, n: nat)
    requires Verified(sha, dir) && n <= |dir[MANIFEST].manifest.outputs|
    requires forall i :: 0 <= i < |dir[MANIFEST].manifest.outputs| ==> dir[MANIFEST].manifest.outputs[i].name in dir
    ensures
      var m := dir[MANIFEST].manifest;
      var key := ReleaseObject(m.id, MANIFEST);
      var after := WithFiles(objects, dir, m.id, m.outputs, n);
      (key in after <==> key in objects) && (key in objects ==> after[key] == objects[key])
  {
    WithFilesKeeps(objects, dir, dir[MANIFEST].manifest.id, dir[MANIFEST].manifest.outputs, n);
  }

  lemma VerifiedHasFiles(sha: string -> string, dir: Dir)
    requires Verified(sha, dir)
    ensures forall i :: 0 <= i < |dir[MANIFEST].manifest.outputs| ==> dir[MANIFEST].manifest.outputs[i].name in dir
  {
    forall i | 0 <= i < |dir[MANIFEST].manifest.outputs|
      ensures dir[MANIFEST].manifest.outputs[i].name in dir
    {
      assert OutputIn(sha, dir, dir[MANIFEST].manifest.outputs[i]);
    }
  }

  lemma AllUploadedIsComplete(sha: string -> string, objects: map<Key, Blob>, dir: Dir, after: map<Key, Blob>)
    requires Verified(sha, dir) && Compatible(sha, objects, dir[MANIFEST].manifest, dir[MANIFEST])
    requires forall i :: 0 <= i < |dir[MANIFEST].manifest.outputs| ==> dir[MANIFEST].manifest.outputs[i].name in dir
    requires after == WithFiles(objects, dir, dir[MANIFEST].manifest.id, dir[MANIFEST].manifest.outputs,
        |dir[MANIFEST].manifest.outputs|)
                      [ReleaseObject(dir[MANIFEST].manifest.id, MANIFEST) := dir[MANIFEST]]
    ensures CompleteDir(sha, Prefix(after, dir[MANIFEST].manifest.id), dir[MANIFEST].manifest.id)
  {
    hide Matches;
    var m := dir[MANIFEST].manifest;
    var files := WithFiles(objects, dir, m.id, m.outputs, |m.outputs|);
    WithFilesKeeps(objects, dir, m.id, m.outputs, |m.outputs|);
    var stored := Prefix(after, m.id);
    assert ReleaseObject(m.id, MANIFEST) in after && stored[MANIFEST] == dir[MANIFEST];
    forall i | 0 <= i < |m.outputs|
      ensures OutputIn(sha, stored, m.outputs[i])
    {
      var key := ReleaseObject(m.id, m.outputs[i].name);
      assert key in files && after[key] == files[key] && m.outputs[i].name in stored;
      assert OutputIn(sha, dir, m.outputs[i]) && FileCompatible(sha, objects, m.id, m.outputs[i]);
    }
  }

  /** `upload_release`: every listed file create-only, an existing object read back and checked, the manifest strictly
      last. It succeeds exactly when nothing already stored contradicts the release; then the stored release is
      complete. In every case nothing that was stored changes, only the release's own keys appear, and a failure
      writes no manifest. */
  method UploadAll(bucket: Bucket<Key, Blob>, sha: string -> string, dir: Dir) returns (ok: bool)
    requires Verified(sha, dir)
    modifies bucket
    ensures ok <==> Compatible(sha, old(bucket.objects), dir[MANIFEST].manifest, dir[MANIFEST])
    ensures ok ==> CompleteDir(sha, Prefix(bucket.objects, dir[MANIFEST].manifest.id), dir[MANIFEST].manifest.id)
    ensures forall k :: k in old(bucket.objects) ==> k in bucket.objects && bucket.objects[k] == old(bucket.objects)[k]
    ensures forall k :: k in bucket.objects && k !in old(bucket.objects) ==>
              k.ReleaseObject? && k.id == dir[MANIFEST].manifest.id && k.name in dir && bucket.objects[k] == dir[k.name]
    ensures !ok ==>
        (ReleaseObject(dir[MANIFEST].manifest.id, MANIFEST) in bucket.objects <==>
        ReleaseObject(dir[MANIFEST].manifest.id, MANIFEST) in old(bucket.objects))
  {
    hide Matches, CompleteDir, WithFiles, FileCompatible, Prefix;
    VerifiedHasFiles(sha, dir);
    ghost var before := bucket.objects;
    var m := dir[MANIFEST].manifest;
    WithNoFiles(before, dir, m.id, m.outputs);
    for i := 0 to |m.outputs|
      invariant bucket.objects == WithFiles(before, dir, m.id, m.outputs, i)
      invariant forall j :: 0 <= j < i ==> FileCompatible(sha, before, m.id, m.outputs[j])
    {
      var ok' := UploadFile(bucket, sha, dir, i, before);
      if !ok' {
        WithFilesKeeps(before, dir, m.id, m.outputs, i);
        ManifestUntouched(sha, before, dir, i);
        return false;
      }
    }
    WithFilesKeeps(before, dir, m.id, m.outputs, |m.outputs|);
    ManifestUntouched(sha, before, dir, |m.outputs|);
    ghost var files := bucket.objects;
    var key := ReleaseObject(m.id, MANIFEST);
    var created := bucket.UploadFile(key, dir[MANIFEST], CreateOnly);
    if created {
      ok := true;
    } else {
      var stored := bucket.Read(key);
      ok := stored == Some(dir[MANIFEST]);
    }
    if ok {
      assert bucket.objects == files[key := dir[MANIFEST]];
      AllUploadedIsComplete(sha, before, dir, bucket.objects);
    }
  }

  lemma WithNoFiles(objects: map<Key, Blob>, dir: Dir, id: string, outputs: seq<Output>)
    requires forall i :: 0 <= i < |outputs| ==> outputs[i].name in dir
    ensures WithFiles(objects, dir, id, outputs, 0) == objects
  {
  }

  /** One file: created, or already there and checked by `verify_remote_object`. */
  method UploadFile(bucket: Bucket<Key, Blob>, sha: string -> string, dir: Dir, i: nat, ghost before: map<Key, Blob>)
      returns (ok: bool)
    requires Verified(sha, dir) && i < |dir[MANIFEST].manifest.outputs|
    requires forall j :: 0 <= j < |dir[MANIFEST].manifest.outputs| ==> dir[MANIFEST].manifest.outputs[j].name in dir
    requires bucket.objects == WithFiles(before, dir, dir[MANIFEST].manifest.id, dir[MANIFEST].manifest.outputs, i)
    modifies bucket
    ensures ok <==> FileCompatible(sha, before, dir[MANIFEST].manifest.id, dir[MANIFEST].manifest.outputs[i])
    ensures ok ==>
        bucket.objects == WithFiles(before, dir, dir[MANIFEST].manifest.id, dir[MANIFEST].manifest.outputs, i + 1)
    ensures !ok ==> bucket.objects == old(bucket.objects)
  {
    hide Matches;
    var m := dir[MANIFEST].manifest;
    var key := ReleaseObject(m.id, m.outputs[i].name);
    StoredMatches(sha, before, dir, i);
    WithFilesKeeps(before, dir, m.id, m.outputs, i);
    var created := bucket.UploadFile(key, dir[m.outputs[i].name], CreateOnly);
    if created {
      ok := true;
    } else {
      var stored := bucket.Read(key);
      ok := stored.Some? && Matches(sha, m.outputs[i], stored.value);
    }
  }
}
