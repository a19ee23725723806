/** That the protocol of src/indexing/publisher.rs and src/build_worker.rs gets somewhere: what a publish, a rollback
    and a queue worker do in any state when nobody else moves meanwhile. */
module PublishProgress {
  import opened Wrappers
  import opened ObjectStore
  import opened Publisher

  /** `pid` alone takes `n` steps. */
  ghost function Undisturbed(s: State, pid: nat, n: nat): (t: State)
    ensures pid in s.procs ==> pid in t.procs
  {
    if n == 0 then s
    else
      ActKeepsProcess(Undisturbed(s, pid, n - 1), pid);
      Apply(Undisturbed(s, pid, n - 1), Act(pid))
  }

  lemma ActKeepsProcess(s: State, pid: nat)
    ensures pid in s.procs ==> pid in Apply(s, Act(pid)).procs
  {
  }

  /** The request can be published on this store. */
  ghost predicate Publishable(objects: map<Key, Blob>, job: Job) {
    && job.version > 0 && job.updatedAt >= MIN_PLAUSIBLE_EPOCH_MILLIS
    && (IndexHead in objects ==>
          && objects[IndexHead].HeadDoc? && objects[IndexHead].updatedAt >= MIN_PLAUSIBLE_EPOCH_MILLIS
          && 0 < objects[IndexHead].version < job.version)
    && (job.expected.Some? ==>
          IndexHead in objects && objects[IndexHead].HeadDoc? && objects[IndexHead].version == job.expected.value)
    && Uploads(objects, job)
  }

  /** The manifest file is the version's, and every upload finds its key free. */
  ghost predicate Uploads(objects: map<Key, Blob>, job: Job) {
    && job.manifest.ManifestDoc? && job.manifest.version == job.version
    && (forall a, b :: 0 <= a < b < |job.files| ==> job.files[a].0 != job.files[b].0)
    && (forall i :: 0 <= i < |job.files| ==>
          && job.files[i].0 !in objects && job.files[i].0 != IndexHead
          && job.files[i].0 != VersionManifest(job.version))
    && VersionManifest(job.version) !in objects
  }

  // ----- a publish -----

  /** `pid` is about to create file `i`, the files before it being stored. */
  ghost predicate Uploading(s: State, t: State, pid: nat, p: Proc, i: nat)
    requires p.request.Publish?
  {
    && i <= |p.request.job.files|
    && t == s.(objects := WithFiles(s.objects, p.request.job.files, i),
               procs := s.procs[pid := p.(pc := Upload(s.Head(), i))])
  }

  lemma PublishStarts(s: State, pid: nat)
    requires pid in s.procs && s.procs[pid].pc.Start? && s.procs[pid].request.Publish?
    requires Publishable(s.objects, s.procs[pid].request.job)
    ensures Uploading(s, Apply(s, Act(pid)), pid, s.procs[pid], 0)
  {
  }

  lemma PublishUploads(s: State, t: State, pid: nat, p: Proc, i: nat)
    requires p.request.Publish? && Uploads(s.objects, p.request.job) && Uploading(s, t, pid, p, i)
    requires i < |p.request.job.files|
    ensures Uploading(s, Apply(t, Act(pid)), pid, p, i + 1)
  {
    var files := p.request.job.files;
    hide WithFiles;
    WithFilesHas(s.objects, files, i, files[i].0);
    NextStored(s.objects, files, i);
    assert t.procs[pid].pc == Upload(s.Head(), i) && t.procs[pid].request == p.request;
    var t' := Apply(t, Act(pid));
    assert t'.procs == s.procs[pid := p.(pc := Upload(s.Head(), i + 1))];
  }

  /** What a successful publish makes of the state. */
  ghost function Published(s: State, pid: nat, p: Proc): State
    requires p.request.Publish?
  {
    var job := p.request.job;
    s.(objects := WithFiles(s.objects, job.files, |job.files|)
                  [VersionManifest(job.version) := job.manifest][IndexHead := HeadDoc(job.version, job.updatedAt)],
       procs := s.procs[pid := p.(pc := Done(VersionOf(s.Head())))],
       created := s.created[job.version := Creation(pid, job)],
       history := s.history + [Activation(job.version, VersionOf(s.Head()), true)])
  }

  lemma ManifestCreated(s: State, t: State, pid: nat, p: Proc)
    requires p.request.Publish? && Uploads(s.objects, p.request.job)
    requires Uploading(s, t, pid, p, |p.request.job.files|)
    ensures
      var job := p.request.job;
      Apply(t, Act(pid)) == s.(
        objects := WithFiles(s.objects, job.files, |job.files|)[VersionManifest(job.version) := job.manifest],
        procs := s.procs[pid := p.(pc := Swap(s.Head()))], created := s.created[job.version := Creation(pid, job)])
  {
    hide WithFiles;
    var job := p.request.job;
    WithFilesHas(s.objects, job.files, |job.files|, VersionManifest(job.version));
    assert t.procs[pid].pc == Upload(s.Head(), |job.files|) && t.procs[pid].request == p.request;
    assert Apply(t, Act(pid)).procs == s.procs[pid := p.(pc := Swap(s.Head()))];
  }

  lemma HeadSwapped(t: State, pid: nat, head: Option<Blob>)
    requires pid in t.procs && t.procs[pid].pc == Swap(head) && t.procs[pid].request.Publish? && t.Head() == head
    ensures
      var job := t.procs[pid].request.job;
      Apply(t, Act(pid)) == t.(
        objects := t.objects[IndexHead := HeadDoc(job.version, job.updatedAt)],
        procs := t.procs[pid := t.procs[pid].(pc := Done(VersionOf(head)))],
        history := t.history + [Activation(job.version, VersionOf(head), true)])
  {
    SwapSucceedsIffUnchanged(t.objects, IndexHead, head, NewHead(t.procs[pid].request));
  }

  lemma PublishEnds(s: State, t: State, pid: nat, p: Proc)
    requires p.request.Publish? && Uploads(s.objects, p.request.job)
    requires Uploading(s, t, pid, p, |p.request.job.files|)
    ensures Apply(Apply(t, Act(pid)), Act(pid)) == Published(s, pid, p)
  {
    hide WithFiles, Apply;
    var job := p.request.job;
    ManifestCreated(s, t, pid, p);
    WithFilesHas(s.objects, job.files, |job.files|, IndexHead);
    var u := Apply(t, Act(pid));
    HeadSwapped(u, pid, s.Head());
    assert u.procs[pid := p.(pc := Done(VersionOf(s.Head())))] == s.procs[pid := p.(pc := Done(VersionOf(s.Head())))];
  }

  lemma {:induction false} PublishGetsTo(s: State, pid: nat, i: nat)
    requires pid in s.procs && s.procs[pid].pc.Start? && s.procs[pid].request.Publish?
    requires Publishable(s.objects, s.procs[pid].request.job) && i <= |s.procs[pid].request.job.files|
    ensures Uploading(s, Undisturbed(s, pid, i + 1), pid, s.procs[pid], i)
  {
    hide Apply, Uploading;
    if i == 0 {
      PublishStarts(s, pid);
      assert Undisturbed(s, pid, 0) == s;
    } else {
      PublishGetsTo(s, pid, i - 1);
      PublishUploads(s, Undisturbed(s, pid, i), pid, s.procs[pid], i - 1);
    }
  }

  /** In any state, a publish that nobody disturbs succeeds if the request can be published: its files, manifest and
      head are then stored, and nothing else has changed. */
  lemma PublishSucceeds(s: State, pid: nat)
    requires pid in s.procs && s.procs[pid].pc.Start? && s.procs[pid].request.Publish?
    requires Publishable(s.objects, s.procs[pid].request.job)
    ensures
      var job, t := s.procs[pid].request.job, Undisturbed(s, pid, |s.procs[pid].request.job.files| + 3);
      && t == Published(s, pid, s.procs[pid])
      && t.Head() == Some(HeadDoc(job.version, job.updatedAt))
      && Get(t.objects, VersionManifest(job.version)) == Some(job.manifest)
      && (forall i :: 0 <= i < |job.files| ==> Get(t.objects, job.files[i].0) == Some(job.files[i].1))
      && t.procs[pid].pc == Done(VersionOf(s.Head()))
  {
    hide Apply, Uploading, WithFiles;
    var p := s.procs[pid];
    var n := |p.request.job.files|;
    PublishGetsTo(s, pid, n);
    PublishEnds(s, Undisturbed(s, pid, n + 1), pid, p);
    assert Undisturbed(s, pid, n + 3) == Apply(Apply(Undisturbed(s, pid, n + 1), Act(pid)), Act(pid));
    PublishedStore(s.objects, p.request.job, Published(s, pid, p).objects);
  }

  // ----- a worker -----

  /** A queue worker that nobody disturbs publishes one version above the head it finds, expecting that head, if its
      build put every file under a new key. */
  lemma WorkerPublishes(s: State, pid: nat, job: Job)
    requires pid !in s.procs && ParsesAsHead(s.Head()) && job.updatedAt >= MIN_PLAUSIBLE_EPOCH_MILLIS
    requires if s.Head().None? then job.version == 1 && job.expected == None
             else job.version == s.Head().value.version + 1 && job.expected == Some(s.Head().value.version)
    requires Uploads(s.objects, job)
    ensures
      var started := Apply(Apply(s, SpawnWorker(pid)), Number(pid, job));
      var t := Undisturbed(started, pid, |job.files| + 3);
      && t.procs[pid].pc == Done(VersionOf(s.Head()))
      && t.Head() == Some(HeadDoc(job.version, job.updatedAt))
      && t.history == s.history + [Activation(job.version, VersionOf(s.Head()), true)]
  {
    hide WithFiles, Undisturbed, Uploads, Apply, Published;
    WorkerStarts(s, pid, job);
    PublishSucceeds(Apply(Apply(s, SpawnWorker(pid)), Number(pid, job)), pid);
    PublishedHistory(Apply(Apply(s, SpawnWorker(pid)), Number(pid, job)), pid);
  }

  lemma WorkerStarts(s: State, pid: nat, job: Job)
    requires pid !in s.procs && ParsesAsHead(s.Head()) && NumberedFrom(job, s.Head())
    ensures Apply(Apply(s, SpawnWorker(pid)), Number(pid, job))
        == s.(procs := s.procs[pid := Proc(Publish(job), Start, true, false)])
  {
  }

  lemma PublishedHistory(s: State, pid: nat)
    requires pid in s.procs && s.procs[pid].request.Publish?
    ensures
      var job := s.procs[pid].request.job;
      Published(s, pid, s.procs[pid]).history == s.history + [Activation(job.version, VersionOf(s.Head()), true)]
  {
  }

  /** A worker is numbered one above the head and expects it: it takes no other job. */
  lemma WorkerTakesNextVersion(s: State, pid: nat, job: Job)
    requires pid in s.procs && s.procs[pid].pc.Assign?
    ensures
      var s' := Apply(s, Number(pid, job));
      s'.procs[pid].pc.Start?
      <==>
        && ParsesAsHead(s.Head())
        && (s.Head().None? ==> job.version == 1 && job.expected == None)
        && (s.Head().Some? ==>
              job.version == s.Head().value.version + 1 && job.expected == Some(s.Head().value.version))
  {
  }

  /** A worker whose publish conflicts reads the head again and tries once more; a second conflict is its last. */
  lemma WorkerRetriesOnce(s: State, pid: nat, first: bool, job: Job)
    requires pid in s.procs && s.procs[pid].worker && s.procs[pid].pc == Failed(true) && s.procs[pid].retried == !first
    requires ParsesAsHead(s.Head()) && NumberedFrom(job, s.Head())
    ensures
      var t := Apply(Apply(s, Act(pid)), Number(pid, job));
      && (first ==> t.procs[pid] == Proc(Publish(job), Start, true, true))
      && (!first ==> t == s)
  {
  }

  // ----- a rollback -----

  /** In any state, a rollback that nobody disturbs succeeds exactly if the request is valid, the head is the expected
      one and the target's manifest is stored intact; it then swaps the head and nothing else, and otherwise changes
      nothing. */
  lemma RollbackSucceedsExactly(s: State, pid: nat, target: nat, expected: Option<nat>, at: int)
    requires pid in s.procs && s.procs[pid].pc.Start? && s.procs[pid].request == Rollback(target, expected, at)
    ensures
      var t := Undisturbed(s, pid, 3);
      && (t.procs[pid].pc.Done?
          <==>
            && target > 0 && at >= MIN_PLAUSIBLE_EPOCH_MILLIS && ParsesAsHead(s.Head())
            && (if expected.None? then s.Head().None?
                else s.Head().Some? && s.Head().value.version == expected.value)
            && VersionManifest(target) in s.objects && s.objects[VersionManifest(target)].ManifestDoc?
            && s.objects[VersionManifest(target)].version == target)
      && (t.procs[pid].pc.Done? ==> t.objects == s.objects[IndexHead := HeadDoc(target, at)])
      && (!t.procs[pid].pc.Done? ==> t.objects == s.objects)
  {
    hide Apply, ParsesAsHead;
    var s1 := Apply(s, Act(pid));
    var s2 := Apply(s1, Act(pid));
    ThreeSteps(s, pid);
    RollbackReads(s, pid, target, expected, at, s1);
    RollbackChecks(s, pid, target, expected, at, s1, s2);
    RollbackSwaps(s2, pid, s.Head(), target, at);
  }

  lemma ThreeSteps(s: State, pid: nat)
    ensures Undisturbed(s, pid, 3) == Apply(Apply(Apply(s, Act(pid)), Act(pid)), Act(pid))
  {
    hide Apply;
    assert Undisturbed(s, pid, 0) == s;
    assert Undisturbed(s, pid, 1) == Apply(s, Act(pid));
    assert Undisturbed(s, pid, 2) == Apply(Apply(s, Act(pid)), Act(pid));
  }

  lemma RollbackSwaps(s2: State, pid: nat, head: Option<Blob>, target: nat, at: int)
    requires pid in s2.procs && s2.Head() == head && s2.procs[pid].request.Rollback?
    requires s2.procs[pid].request.target == target && s2.procs[pid].request.at == at
    requires s2.procs[pid].pc == Swap(head) || s2.procs[pid].pc.Failed? || s2.procs[pid].pc.Assign?
    ensures
      var t := Apply(s2, Act(pid));
      if s2.procs[pid].pc.Swap? then t.procs[pid].pc.Done? && t.objects == s2.objects[IndexHead := HeadDoc(target, at)]
      else !t.procs[pid].pc.Done? && t.objects == s2.objects
  {
    SwapSucceedsIffUnchanged(s2.objects, IndexHead, head, HeadDoc(target, at));
  }

  lemma RollbackReads(s: State, pid: nat, target: nat, expected: Option<nat>, at: int, s1: State)
    requires pid in s.procs && s.procs[pid].pc.Start? && s.procs[pid].request == Rollback(target, expected, at)
    requires s1 == Apply(s, Act(pid))
    ensures pid in s1.procs && s1.objects == s.objects && s1.procs[pid].request == s.procs[pid].request
    ensures s1.procs[pid].pc == CheckTarget(s.Head()) || s1.procs[pid].pc.Failed?
    ensures
      s1.procs[pid].pc == CheckTarget(s.Head())
      <==>
        && target > 0 && at >= MIN_PLAUSIBLE_EPOCH_MILLIS && ParsesAsHead(s.Head())
        && (if expected.None? then s.Head().None? else s.Head().Some? && s.Head().value.version == expected.value)
  {
  }

  lemma RollbackChecks(s: State, pid: nat, target: nat, expected: Option<nat>, at: int, s1: State, s2: State)
    requires pid in s.procs && pid in s1.procs && s1.objects == s.objects
    requires s1.procs[pid].request == Rollback(target, expected, at)
    requires s1.procs[pid].pc == CheckTarget(s.Head()) || s1.procs[pid].pc.Failed?
    requires s2 == Apply(s1, Act(pid))
    ensures pid in s2.procs && s2.objects == s.objects && s2.procs[pid].request == s1.procs[pid].request
    ensures s1.procs[pid].pc.Failed? ==> s2.procs[pid].pc.Failed? || s2.procs[pid].pc.Assign?
    ensures
      s1.procs[pid].pc.CheckTarget? ==>
        if VersionManifest(target) in s.objects && s.objects[VersionManifest(target)].ManifestDoc?
           && s.objects[VersionManifest(target)].version == target
        then s2.procs[pid].pc == Swap(s.Head())
        else s2.procs[pid].pc == Failed(false)
  {
  }
}
