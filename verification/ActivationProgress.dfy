/** That static activation and the reader's sync get somewhere: what an activator and a sync do in any state when nobody
    else moves meanwhile, and the sequential activation of src/bin/static_activate.rs and
    src/indexing/static_publisher.rs. */
module ActivationProgress {
  import opened Wrappers
  import opened ObjectStore
  import opened StaticActivation
  import opened UploadRelease

  // ----- the sequential code -----

  datatype ActivationResult = ActivatedOver(previous: Option<string>) | MalformedHead | LostCas | UploadFailed

  /** `activate_static_pointer`: reads the head and swaps the release's in, over what was read. */
  method ActivatePointer(bucket: Bucket<Key, Blob>, id: string) returns (r: ActivationResult)
    modifies bucket
    ensures r.ActivatedOver? || r.MalformedHead?
    ensures r.ActivatedOver? <==> StaticHead !in old(bucket.objects) || old(bucket.objects)[StaticHead].HeadDoc?
    ensures r.ActivatedOver? ==>
        && bucket.objects == old(bucket.objects)[StaticHead := HeadDoc(id)]
        && r.previous == if StaticHead in old(bucket.objects) then Some(old(bucket.objects)[StaticHead].id) else None
    ensures r.MalformedHead? ==> bucket.objects == old(bucket.objects)
  {
    var current := bucket.Read(StaticHead);
    if current.Some? && !current.value.HeadDoc? {
      return MalformedHead;
    }
    SwapSucceedsIffUnchanged(bucket.objects, StaticHead, current, HeadDoc(id));
    var swapped := bucket.Swap(StaticHead, TagOf(current), HeadDoc(id));
    if !swapped {
      return LostCas;
    }
    return ActivatedOver(if current.Some? then Some(current.value.id) else None);
  }

  /** `run` after verification: upload, then the pointer. It succeeds exactly when nothing already stored contradicts
      the release and the head, if there is one, is well formed; then the head names the release, which is complete.
      */
  method ActivateRelease(bucket: Bucket<Key, Blob>, sha: string -> string, dir: Dir) returns (r: ActivationResult)
    requires Verified(sha, dir)
    modifies bucket
    ensures r.ActivatedOver? <==>
        && Compatible(sha, old(bucket.objects), dir[MANIFEST].manifest, dir[MANIFEST])
        && (StaticHead in old(bucket.objects) ==> old(bucket.objects)[StaticHead].HeadDoc?)
    ensures r.ActivatedOver? ==>
        && Get(bucket.objects, StaticHead) == Some(HeadDoc(dir[MANIFEST].manifest.id))
        && CompleteDir(sha, Prefix(bucket.objects, dir[MANIFEST].manifest.id), dir[MANIFEST].manifest.id)
    ensures !r.ActivatedOver? ==> Get(bucket.objects, StaticHead) == Get(old(bucket.objects), StaticHead)
    ensures Grows(old(bucket.objects), bucket.objects, StaticHead)
  {
    hide CompleteDir, Verified, Compatible, Prefix;
    VerifiedHasManifest(sha, dir);
    var id := dir[MANIFEST].manifest.id;
    var uploaded := UploadAll(bucket, sha, dir);
    ghost var objects := bucket.objects;
    if !uploaded {
      return UploadFailed;
    }
    r := ActivatePointer(bucket, id);
    HeadIsNoReleaseObject(objects, bucket.objects, id);
  }

  lemma VerifiedHasManifest(sha: string -> string, dir: Dir)
    requires Verified(sha, dir)
    ensures MANIFEST in dir && dir[MANIFEST].ManifestDoc?
  {
  }

  /** Moving the head changes no release. */
  lemma HeadIsNoReleaseObject(before: map<Key, Blob>, after: map<Key, Blob>, id: string)
    ensures (forall k :: k != StaticHead ==> Get(after, k) == Get(before, k)) ==>
        Prefix(after, id) == Prefix(before, id)
  {
    if forall k :: k != StaticHead ==> Get(after, k) == Get(before, k) {
      forall n
        ensures n in Prefix(after, id) <==> n in Prefix(before, id)
        ensures n in Prefix(before, id) ==> Prefix(after, id)[n] == Prefix(before, id)[n]
      {
        assert Get(after, ReleaseObject(id, n)) == Get(before, ReleaseObject(id, n));
      }
    }
  }

  // ----- the activator of the protocol -----

  /** From its swap an activator becomes activated exactly if the head is still what it read: then the head names its
      release and no other object has changed; otherwise it is rejected and the store is as it was. */
  lemma SwapDecides(sha: string -> string, s: State, pid: nat, head: Option<Blob>)
    requires pid in s.acts && s.acts[pid].pc == Swap(head) && Verified(sha, s.acts[pid].dir)
    ensures
      var t, id := Apply(sha, s, Act(pid)), s.acts[pid].dir[MANIFEST].manifest.id;
      && pid in t.acts
      && (t.acts[pid].pc.Activated? <==> s.Head() == head)
      && (t.acts[pid].pc.Activated? ==>
            && t.Head() == Some(HeadDoc(id))
            && forall k :: k != StaticHead ==> Get(t.objects, k) == Get(s.objects, k))
      && (!t.acts[pid].pc.Activated? ==> t.acts[pid].pc.Rejected? && t.objects == s.objects)
  {
    hide CompleteDir;
    SwapSucceedsIffUnchanged(s.objects, StaticHead, head, HeadDoc(s.acts[pid].dir[MANIFEST].manifest.id));
  }

  /** `pid` alone takes `n` steps. */
  ghost function Undisturbed(sha: string -> string, s: State, pid: nat, n: nat): State {
    if n == 0 then s else Apply(sha, Undisturbed(sha, s, pid, n - 1), Act(pid))
  }

  lemma {:induction false} GoesOn(sha: string -> string, s: State, pid: nat, n: nat, m: nat)
    ensures Undisturbed(sha, Undisturbed(sha, s, pid, n), pid, m) == Undisturbed(sha, s, pid, n + m)
  {
    hide Apply;
    if m > 0 {
      GoesOn(sha, s, pid, n, m - 1);
    }
  }

  /** `t` is `s` with the activator at `pc` and these objects. */
  ghost predicate ActsAt(s: State, t: State, pid: nat, dir: Dir, pc: ActPc, objects: map<Key, Blob>) {
    t == s.(objects := objects, acts := s.acts[pid := Activator(dir, pc)])
  }

  lemma OneStep(sha: string -> string, s: State, pid: nat)
    requires pid in s.acts
    ensures Undisturbed(sha, s, pid, 1) == StepAct(sha, s, pid)
  {
    assert Undisturbed(sha, s, pid, 0) == s;
  }

  lemma TwoSteps(sha: string -> string, s: State, pid: nat)
    requires pid in s.acts && pid in StepAct(sha, s, pid).acts
    ensures Undisturbed(sha, s, pid, 2) == StepAct(sha, StepAct(sha, s, pid), pid)
  {
    hide StepAct;
    OneStep(sha, s, pid);
    assert Undisturbed(sha, s, pid, 2) == Apply(sha, Undisturbed(sha, s, pid, 1), Act(pid));
  }

  /** One listed file: created in one step, or found and checked in two. */
  lemma FileStep(sha: string -> string, s: State, t: State, pid: nat, dir: Dir, i: nat) returns (n: nat)
    requires Verified(sha, dir) && i < |dir[MANIFEST].manifest.outputs|
    requires forall j :: 0 <= j < |dir[MANIFEST].manifest.outputs| ==> dir[MANIFEST].manifest.outputs[j].name in dir
    requires
      var m := dir[MANIFEST].manifest;
      ActsAt(s, t, pid, dir, Upload(i), WithFiles(s.objects, dir, m.id, m.outputs, i))
    ensures
      var m, t' := dir[MANIFEST].manifest, Undisturbed(sha, t, pid, n);
      if FileCompatible(sha, s.objects, m.id, m.outputs[i])
      then ActsAt(s, t', pid, dir, Upload(i + 1), WithFiles(s.objects, dir, m.id, m.outputs, i + 1))
      else ActsAt(s, t', pid, dir, Rejected, WithFiles(s.objects, dir, m.id, m.outputs, i))
  {
    hide Undisturbed, Matches, Verified, CompleteDir;
    VerifiedHasManifest(sha, dir);
    var m := dir[MANIFEST].manifest;
    StoredMatches(sha, s.objects, dir, i);
    WithFilesKeeps(s.objects, dir, m.id, m.outputs, i);
    if ReleaseObject(m.id, m.outputs[i].name) in t.objects {
      n := 2;
      FoundFile(sha, t, pid, dir, i);
    } else {
      n := 1;
      CreatedFile(sha, t, pid, dir, i);
    }
    assert forall pc, pc' ::
        s.acts[pid := Activator(dir, pc)][pid := Activator(dir, pc')] == s.acts[pid := Activator(dir, pc')];
  }

  lemma CreatedFile(sha: string -> string, t: State, pid: nat, dir: Dir, i: nat)
    requires MANIFEST in dir && dir[MANIFEST].ManifestDoc? && i < |dir[MANIFEST].manifest.outputs|
    requires pid in t.acts && t.acts[pid] == Activator(dir, Upload(i)) && dir[MANIFEST].manifest.outputs[i].name in dir
    requires ReleaseObject(dir[MANIFEST].manifest.id, dir[MANIFEST].manifest.outputs[i].name) !in t.objects
    ensures
      var m := dir[MANIFEST].manifest;
      Undisturbed(sha, t, pid, 1) == t.(
        objects := t.objects[ReleaseObject(m.id, m.outputs[i].name) := dir[m.outputs[i].name]],
        acts := t.acts[pid := Activator(dir, Upload(i + 1))])
  {
    hide Undisturbed, StepAct;
    OneStep(sha, t, pid);
    UploadStep(sha, t, pid, dir, i, ReleaseObject(dir[MANIFEST].manifest.id, dir[MANIFEST].manifest.outputs[i].name));
  }

  lemma UploadStep(sha: string -> string, t: State, pid: nat, dir: Dir, i: nat, key: Key)
    requires MANIFEST in dir && dir[MANIFEST].ManifestDoc? && i < |dir[MANIFEST].manifest.outputs|
    requires pid in t.acts && t.acts[pid] == Activator(dir, Upload(i)) && dir[MANIFEST].manifest.outputs[i].name in dir
    requires key == ReleaseObject(dir[MANIFEST].manifest.id, dir[MANIFEST].manifest.outputs[i].name)
    ensures
      StepAct(sha, t, pid)
      == if key in t.objects then t.(acts := t.acts[pid := Activator(dir, CheckFile(i))])
         else t.(objects := t.objects[key := dir[dir[MANIFEST].manifest.outputs[i].name]],
                 acts := t.acts[pid := Activator(dir, Upload(i + 1))])
  {
  }

  lemma CheckStep(sha: string -> string, t: State, pid: nat, dir: Dir, i: nat, key: Key)
    requires MANIFEST in dir && dir[MANIFEST].ManifestDoc? && i < |dir[MANIFEST].manifest.outputs|
    requires pid in t.acts && t.acts[pid] == Activator(dir, CheckFile(i))
    requires key == ReleaseObject(dir[MANIFEST].manifest.id, dir[MANIFEST].manifest.outputs[i].name)
    requires key in t.objects
    ensures
      var ok := Matches(sha, dir[MANIFEST].manifest.outputs[i], t.objects[key]);
      StepAct(sha, t, pid) == t.(acts := t.acts[pid := Activator(dir, if ok then Upload(i + 1) else Rejected)])
  {
    hide Matches;
  }

  lemma FoundFile(sha: string -> string, t: State, pid: nat, dir: Dir, i: nat)
    requires MANIFEST in dir && dir[MANIFEST].ManifestDoc? && i < |dir[MANIFEST].manifest.outputs|
    requires pid in t.acts && t.acts[pid] == Activator(dir, Upload(i)) && dir[MANIFEST].manifest.outputs[i].name in dir
    requires ReleaseObject(dir[MANIFEST].manifest.id, dir[MANIFEST].manifest.outputs[i].name) in t.objects
    ensures
      var m := dir[MANIFEST].manifest;
      var ok := Matches(sha, m.outputs[i], t.objects[ReleaseObject(m.id, m.outputs[i].name)]);
      Undisturbed(sha, t, pid, 2) == t.(acts := t.acts[pid := Activator(dir, if ok then Upload(i + 1) else Rejected)])
  {
    hide Undisturbed, StepAct, Matches;
    var key := ReleaseObject(dir[MANIFEST].manifest.id, dir[MANIFEST].manifest.outputs[i].name);
    UploadStep(sha, t, pid, dir, i, key);
    var u := t.(acts := t.acts[pid := Activator(dir, CheckFile(i))]);
    CheckStep(sha, u, pid, dir, i, key);
    TwoSteps(sha, t, pid);
    var ok := Matches(sha, dir[MANIFEST].manifest.outputs[i], t.objects[key]);
    Overwritten(t.acts, pid, Activator(dir, CheckFile(i)), Activator(dir, if ok then Upload(i + 1) else Rejected));
  }

  lemma Overwritten(acts: map<nat, Activator>, pid: nat, a: Activator, b: Activator)
    ensures acts[pid := a][pid := b] == acts[pid := b]
  {
  }

  /** All files and then the manifest: either everything is compatible and the activator goes on to the head, or it
      stops with the head untouched. */
  lemma {:induction false} FilesSteps(sha: string -> string, s: State, t: State, pid: nat, dir: Dir, i: nat)
      returns (n: nat)
    requires Verified(sha, dir) && i <= |dir[MANIFEST].manifest.outputs|
    requires forall j :: 0 <= j < |dir[MANIFEST].manifest.outputs| ==> dir[MANIFEST].manifest.outputs[j].name in dir
    requires
      var m := dir[MANIFEST].manifest;
      ActsAt(s, t, pid, dir, Upload(i), WithFiles(s.objects, dir, m.id, m.outputs, i))
    ensures
      var m, t' := dir[MANIFEST].manifest, Undisturbed(sha, t, pid, n);
      if forall j :: i <= j < |m.outputs| ==> FileCompatible(sha, s.objects, m.id, m.outputs[j])
      then ActsAt(s, t', pid, dir, Upload(|m.outputs|), WithFiles(s.objects, dir, m.id, m.outputs, |m.outputs|))
      else exists j ::
             0 <= j <= |m.outputs| && ActsAt(s, t', pid, dir, Rejected, WithFiles(s.objects, dir, m.id, m.outputs, j))
    decreases |dir[MANIFEST].manifest.outputs| - i
  {
    hide Apply, Verified, WithFiles, FileCompatible;
    VerifiedHasManifest(sha, dir);
    var m := dir[MANIFEST].manifest;
    if i == |m.outputs| {
      n := 0;
    } else {
      var first := FileStep(sha, s, t, pid, dir, i);
      var u := Undisturbed(sha, t, pid, first);
      if FileCompatible(sha, s.objects, m.id, m.outputs[i]) {
        var rest := FilesSteps(sha, s, u, pid, dir, i + 1);
        GoesOn(sha, t, pid, first, rest);
        n := first + rest;
      } else {
        n := first;
      }
    }
  }

  /** The manifest: created, or found and compared. */
  lemma ManifestStep(sha: string -> string, t: State, pid: nat, dir: Dir) returns (n: nat)
    requires MANIFEST in dir && dir[MANIFEST].ManifestDoc?
    requires pid in t.acts && t.acts[pid] == Activator(dir, Upload(|dir[MANIFEST].manifest.outputs|))
    ensures
      var key, t' := ReleaseObject(dir[MANIFEST].manifest.id, MANIFEST), Undisturbed(sha, t, pid, n);
      if key in t.objects && t.objects[key] != dir[MANIFEST]
      then t' == t.(acts := t.acts[pid := Activator(dir, Rejected)])
      else t' == t.(objects := t.objects[key := dir[MANIFEST]], acts := t.acts[pid := Activator(dir, ReadHead)])
  {
    hide Undisturbed;
    var key := ReleaseObject(dir[MANIFEST].manifest.id, MANIFEST);
    if key in t.objects {
      n := 2;
      var u := StepAct(sha, t, pid);
      assert u == t.(acts := t.acts[pid := Activator(dir, CheckManifest)]);
      TwoSteps(sha, t, pid);
      assert forall pc ::
          t.acts[pid := Activator(dir, CheckManifest)][pid := Activator(dir, pc)] == t.acts[pid := Activator(dir, pc)];
      assert t.objects[key] == dir[MANIFEST] ==> t.objects[key := dir[MANIFEST]] == t.objects;
    } else {
      n := 1;
      OneStep(sha, t, pid);
    }
  }

  /** The head: read, and swapped if it is well formed. */
  lemma HeadSteps(sha: string -> string, t: State, pid: nat, dir: Dir)
    requires MANIFEST in dir && dir[MANIFEST].ManifestDoc?
    requires pid in t.acts && t.acts[pid] == Activator(dir, ReadHead)
    ensures
      var t' := Undisturbed(sha, t, pid, 2);
      if StaticHead in t.objects && !t.objects[StaticHead].HeadDoc?
      then t' == t.(acts := t.acts[pid := Activator(dir, Rejected)])
      else t' == t.(objects := t.objects[StaticHead := HeadDoc(dir[MANIFEST].manifest.id)],
                    acts := t.acts[pid := Activator(dir, Activated)])
  {
    hide Undisturbed;
    SwapSucceedsIffUnchanged(t.objects, StaticHead, t.Head(), HeadDoc(dir[MANIFEST].manifest.id));
    TwoSteps(sha, t, pid);
    assert forall pc, pc' ::
        t.acts[pid := Activator(dir, pc)][pid := Activator(dir, pc')] == t.acts[pid := Activator(dir, pc')];
  }

  /** A finished activator stays. */
  lemma {:induction false} FinishedStays(sha: string -> string, t: State, pid: nat, m: nat)
    requires pid in t.acts && (t.acts[pid].pc.Rejected? || t.acts[pid].pc.Activated?)
    ensures Undisturbed(sha, t, pid, m) == t
  {
    if m > 0 {
      FinishedStays(sha, t, pid, m - 1);
    }
  }

  /** In any state, an activator that starts on a verified directory and is not disturbed ends activated exactly if
      nothing already stored contradicts its release and the head, if there is one, is well formed. The head then
      names the release, which is complete; otherwise it is as it was. No other stored object changes. */
  lemma ActivatesExactly(sha: string -> string, s: State, pid: nat, dir: Dir) returns (n: nat)
    requires pid !in s.acts && Verified(sha, dir)
    ensures
      var t, m := Undisturbed(sha, Apply(sha, s, Activate(pid, dir)), pid, n), dir[MANIFEST].manifest;
      && pid in t.acts && (t.acts[pid].pc.Activated? || t.acts[pid].pc.Rejected?)
      && (t.acts[pid].pc.Activated?
          <==>
            && Compatible(sha, s.objects, m, dir[MANIFEST])
            && (s.Head().Some? ==> s.Head().value.HeadDoc?))
      && (t.acts[pid].pc.Activated? ==>
            t.Head() == Some(HeadDoc(m.id)) && CompleteDir(sha, Prefix(t.objects, m.id), m.id))
      && (t.acts[pid].pc.Rejected? ==> t.Head() == s.Head())
      && Grows(s.objects, t.objects, StaticHead)
      && (forall later: nat :: Undisturbed(sha, t, pid, later) == t)
  {
    hide Undisturbed, CompleteDir, Verified, WithFiles, FileCompatible, Prefix, Compatible;
    VerifiedHasManifest(sha, dir);
    VerifiedHasFiles(sha, dir);
    var m := dir[MANIFEST].manifest;
    var start := Apply(sha, s, Activate(pid, dir));
    WithNoFiles(s.objects, dir, m.id, m.outputs);
    assert ActsAt(s, start, pid, dir, Upload(0), WithFiles(s.objects, dir, m.id, m.outputs, 0));
    var files := FilesSteps(sha, s, start, pid, dir, 0);
    var u := Undisturbed(sha, start, pid, files);
    if forall j :: 0 <= j < |m.outputs| ==> FileCompatible(sha, s.objects, m.id, m.outputs[j]) {
      var rest := AfterFiles(sha, s, u, pid, dir);
      GoesOn(sha, start, pid, files, rest);
      n := files + rest;
    } else {
      n := files;
      var j :| 0 <= j <= |m.outputs| && ActsAt(s, u, pid, dir, Rejected, WithFiles(s.objects, dir, m.id, m.outputs, j));
      WithFilesKeeps(s.objects, dir, m.id, m.outputs, j);
      IncompatibleFiles(sha, s.objects, m, dir[MANIFEST]);
    }
    var t := Undisturbed(sha, start, pid, n);
    forall later: nat
      ensures Undisturbed(sha, t, pid, later) == t
    {
      FinishedStays(sha, t, pid, later);
    }
  }

  lemma CompatibleMeans(sha: string -> string, objects: map<Key, Blob>, m: Manifest, doc: Blob)
    requires forall j :: 0 <= j < |m.outputs| ==> FileCompatible(sha, objects, m.id, m.outputs[j])
    ensures Compatible(sha, objects, m, doc) <==>
        (ReleaseObject(m.id, MANIFEST) in objects ==> objects[ReleaseObject(m.id, MANIFEST)] == doc)
  {
  }

  lemma IncompatibleFiles(sha: string -> string, objects: map<Key, Blob>, m: Manifest, doc: Blob)
    requires !forall j :: 0 <= j < |m.outputs| ==> FileCompatible(sha, objects, m.id, m.outputs[j])
    ensures !Compatible(sha, objects, m, doc)
  {
  }

  lemma AfterFiles(sha: string -> string, s: State, u: State, pid: nat, dir: Dir) returns (n: nat)
    requires Verified(sha, dir)
    requires forall j :: 0 <= j < |dir[MANIFEST].manifest.outputs| ==> dir[MANIFEST].manifest.outputs[j].name in dir
    requires
      var m := dir[MANIFEST].manifest;
      && ActsAt(s, u, pid, dir, Upload(|m.outputs|), WithFiles(s.objects, dir, m.id, m.outputs, |m.outputs|))
      && (forall j :: 0 <= j < |m.outputs| ==> FileCompatible(sha, s.objects, m.id, m.outputs[j]))
    ensures
      var t, m := Undisturbed(sha, u, pid, n), dir[MANIFEST].manifest;
      && pid in t.acts && (t.acts[pid].pc.Activated? || t.acts[pid].pc.Rejected?)
      && (t.acts[pid].pc.Activated?
          <==>
            && Compatible(sha, s.objects, m, dir[MANIFEST])
            && (s.Head().Some? ==> s.Head().value.HeadDoc?))
      && (t.acts[pid].pc.Activated? ==>
            t.Head() == Some(HeadDoc(m.id)) && CompleteDir(sha, Prefix(t.objects, m.id), m.id))
      && (t.acts[pid].pc.Rejected? ==> t.Head() == s.Head())
      && Grows(s.objects, t.objects, StaticHead)
  {
    hide Undisturbed, CompleteDir, Verified, WithFiles, FileCompatible, Prefix, Compatible;
    VerifiedHasManifest(sha, dir);
    var m := dir[MANIFEST].manifest;
    CompatibleMeans(sha, s.objects, m, dir[MANIFEST]);
    var key := ReleaseObject(m.id, MANIFEST);
    WithFilesKeeps(s.objects, dir, m.id, m.outputs, |m.outputs|);
    ManifestUntouched(sha, s.objects, dir, |m.outputs|);
    var first := ManifestStep(sha, u, pid, dir);
    var v := Undisturbed(sha, u, pid, first);
    if key in u.objects && u.objects[key] != dir[MANIFEST] {
      n := first;
    } else {
      HeadSteps(sha, v, pid, dir);
      GoesOn(sha, u, pid, first, 2);
      n := first + 2;
      var t := Undisturbed(sha, u, pid, n);
      AllUploadedIsComplete(sha, s.objects, dir, v.objects);
      HeadIsNoReleaseObject(v.objects, t.objects, m.id);
    }
  }
}
