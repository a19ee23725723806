/** The versioned publish protocol of src/indexing/publisher.rs and the queue worker of
    src/build_worker.rs. Any number of publishers, rollbacks and workers share one store;
    each event is one object operation of one process, and a process may stop anywhere. */
module Publisher {
  import opened Wrappers
  import opened ObjectStore

  /** `index/_head`, `index/versions/{v}/manifest.json`, and everything under an artifact directory. */
  datatype Key = IndexHead | VersionManifest(version: nat) | Artifact(path: string)

  datatype Blob = HeadDoc(version: nat, updatedAt: int) | ManifestDoc(version: nat, body: string) | Raw(bytes: string)

  const MIN_PLAUSIBLE_EPOCH_MILLIS := 1_000_000_000_000

  /** `ManifestHead::from_json` on the current head object. */
  predicate ParsesAsHead(head: Option<Blob>) {
    head.Some? ==> head.value.HeadDoc? && head.value.version > 0 && head.value.updatedAt >= MIN_PLAUSIBLE_EPOCH_MILLIS
  }

  function VersionOf(head: Option<Blob>): Option<nat> {
    if head.Some? && head.value.HeadDoc? then Some(head.value.version) else None
  }

  /** A publish request with the artifact files its directories hold, in upload order. */
  datatype Job = Job(version: nat, manifest: Blob, files: seq<(Key, Blob)>, expected: Option<nat>, updatedAt: int) {
    /** The request's own checks. */
    predicate RequestOk() {
      version > 0 && updatedAt >= MIN_PLAUSIBLE_EPOCH_MILLIS
    }

    /** The manifest file in the artifact root is the request's manifest. */
    predicate ManifestMatches() {
      manifest.ManifestDoc? && manifest.version == version
    }

    ghost predicate LayoutOk() {
      Harmless(files)
    }
  }

  /** File `i` can be uploaded: no create-only upload before it, nor its own, meets its key again. */
  ghost predicate Uploadable(files: seq<(Key, Blob)>, i: nat) {
    i < |files| && forall a, b :: 0 <= a < b <= i ==> files[a].0 != files[b].0
  }

  /** The file would pass for the head or for a version's manifest. */
  predicate Poses(file: (Key, Blob)) {
    || file.0.IndexHead?
    || (file.0.VersionManifest? && file.0.version > 0 && file.1.ManifestDoc? && file.1.version == file.0.version)
  }

  /** No file that can be uploaded poses as protocol state. */
  ghost predicate Harmless(files: seq<(Key, Blob)>) {
    forall i: nat :: Uploadable(files, i) ==> !Poses(files[i])
  }

  datatype Pc =
    | Assign(retry: bool)                    // a worker about to read the head and number its build
    | Start                                  // about to read the head
    | Upload(head: Option<Blob>, next: nat)  // about to create file `next`, or the manifest after the last
    | CheckTarget(head: Option<Blob>)        // a rollback about to read its target's manifest
    | Swap(head: Option<Blob>)               // about to swap the head it read
    | Done(previous: Option<nat>)
    | Failed(conflict: bool)                 // `conflict` marks the errors a worker retries

  datatype Request = Publish(job: Job) | Rollback(target: nat, expectedHead: Option<nat>, at: int)

  /** `worker`: retries once with a fresh version after a publish conflict. */
  datatype Proc = Proc(request: Request, pc: Pc, worker: bool, retried: bool)

  /** One successful swap. */
  datatype Activation = Activation(version: nat, replaced: Option<nat>, published: bool)

  /** Who created a version's manifest, and what it uploaded. */
  datatype Creation = Creation(pid: nat, job: Job)

  /** `created` and `history` only record what happened; no process reads them. */
  datatype State = State(objects: map<Key, Blob>, procs: map<nat, Proc>, created: map<nat, Creation>,
      history: seq<Activation>) {
    function Head(): Option<Blob> {
      Get(objects, IndexHead)
    }
  }

  function Init(): State {
    State(map[], map[], map[], [])
  }

  datatype Event =
    | Spawn(pid: nat, request: Request)           // a direct publish or rollback
    | SpawnWorker(pid: nat)
    | Number(pid: nat, job: Job)                  // a worker reads the head; `job` is what its build then produced
    | Act(pid: nat)                               // the process's next object operation
    | Crash(pid: nat)                             // storage error or death

  /** `next_version_id`: the version one above the head, expecting that head. */
  predicate NumberedFrom(job: Job, head: Option<Blob>) {
    match VersionOf(head)
    case None => job.version == 1 && job.expected == None
    case Some(v) => job.version == v + 1 && job.expected == Some(v)
  }

  function Goto(s: State, pid: nat, pc: Pc): State
    requires pid in s.procs
  {
    s.(procs := s.procs[pid := s.procs[pid].(pc := pc)])
  }

  /** The checks of `publish` against the head it just read. */
  function StartPublish(job: Job, head: Option<Blob>): Pc {
    if !job.RequestOk() || !ParsesAsHead(head) then Failed(false)
    else if job.expected.Some? && VersionOf(head) != job.expected then Failed(true)
    else if head.Some? && job.version <= head.value.version then Failed(true)
    else if !job.ManifestMatches() then Failed(false)
    else Upload(head, 0)
  }

  function StartRollback(target: nat, expectedHead: Option<nat>, at: int, head: Option<Blob>): Pc {
    if target == 0 || at < MIN_PLAUSIBLE_EPOCH_MILLIS || !ParsesAsHead(head) then Failed(false)
    else if VersionOf(head) != expectedHead then Failed(true)
    else CheckTarget(head)
  }

  function TargetVersion(r: Request): nat {
    match r case Publish(job) => job.version case Rollback(target, _, _) => target
  }

  function NewHead(r: Request): Blob {
    match r
    case Publish(job) => HeadDoc(job.version, job.updatedAt)
    case Rollback(target, _, at) => HeadDoc(target, at)
  }

  /** One upload of a publish: file `next`, or the manifest once every file is up. */
  function StepUpload(s: State, pid: nat, job: Job, head: Option<Blob>, next: nat): State
    requires pid in s.procs
  {
    if next < |job.files| then
      match PutIfAbsent(s.objects, job.files[next].0, job.files[next].1)
      case None => Goto(s, pid, Failed(false))
      case Some(objects) => Goto(s.(objects := objects), pid, Upload(head, next + 1))
    else
      match PutIfAbsent(s.objects, VersionManifest(job.version), job.manifest)
      case None => Goto(s, pid, Failed(false))
      case Some(objects) =>
        Goto(s.(objects := objects, created := s.created[job.version := Creation(pid, job)]), pid, Swap(head))
  }

  function StepSwap(s: State, pid: nat, r: Request, head: Option<Blob>): State
    requires pid in s.procs
  {
    match CompareAndSwap(s.objects, IndexHead, TagOf(head), NewHead(r))
    case None => Goto(s, pid, Failed(true))
    case Some(objects) =>
      Goto(s.(objects := objects, history := s.history + [Activation(TargetVersion(r), VersionOf(head), r.Publish?)]),
           pid, Done(VersionOf(head)))
  }

  /** The next object operation of `pid`; a finished process stays. */
  function Step(s: State, pid: nat): State
    requires pid in s.procs
  {
    var r := s.procs[pid].request;
    match s.procs[pid].pc
    case Start =>
      (match r
       case Publish(job) => Goto(s, pid, StartPublish(job, s.Head()))
       case Rollback(target, expectedHead, at) => Goto(s, pid, StartRollback(target, expectedHead, at, s.Head())))
    case Upload(head, next) => if r.Publish? then StepUpload(s, pid, r.job, head, next) else s
    case CheckTarget(head) =>
      var stored: Option<Blob> := Get(s.objects, VersionManifest(TargetVersion(r)));
      var intact := stored.Some? && IsManifestOf(stored.value, TargetVersion(r));
      Goto(s, pid, if intact then Swap(head) else Failed(false))
    case Swap(head) => StepSwap(s, pid, r, head)
    case Failed(true) => if s.procs[pid].worker && !s.procs[pid].retried then Goto(s, pid, Assign(true)) else s
    case _ => s
  }

  /** Any event in any state; one that is not enabled changes nothing. */
  function Apply(s: State, e: Event): State {
    match e
    case Spawn(pid, request) =>
      if pid in s.procs then s else s.(procs := s.procs[pid := Proc(request, Start, false, false)])
    case SpawnWorker(pid) =>
      if pid in s.procs then s
      else s.(procs := s.procs[pid := Proc(Rollback(0, None, 0), Assign(false), true, false)])
    case Number(pid, job) =>
      if pid in s.procs && s.procs[pid].pc.Assign? && ParsesAsHead(s.Head()) && NumberedFrom(job, s.Head())
      then s.(procs := s.procs[pid := Proc(Publish(job), Start, true, s.procs[pid].pc.retry)])
      else s
    case Act(pid) => if pid in s.procs then Step(s, pid) else s
    case Crash(pid) => if pid in s.procs then Goto(s, pid, Failed(false)) else s
  }

  function Run(s: State, events: seq<Event>): State {
    if events == [] then s else Apply(Run(s, events[..|events| - 1]), events[|events| - 1])
  }

  // ----- what every step keeps -----

  /** The job an event introduces has harmless files. */
  ghost predicate LayoutOk(e: Event) {
    match e
    case Spawn(_, Publish(job)) => job.LayoutOk()
    case Number(_, job) => job.LayoutOk()
    case _ => true
  }

  ghost predicate AllLayoutOk(events: seq<Event>) {
    forall i :: 0 <= i < |events| ==> LayoutOk(events[i])
  }

  /** The first `n` files of `job` are stored with the job's bytes, each under its own key and none as the head. */
  ghost predicate FilesPresent(objects: map<Key, Blob>, job: Job, n: nat) {
    && n <= |job.files|
    && (forall a, b :: 0 <= a < b < n ==> job.files[a].0 != job.files[b].0)
    && (forall i :: 0 <= i < n ==>
        job.files[i].0 != IndexHead && job.files[i].0 in objects && objects[job.files[i].0] == job.files[i].1)
  }

  /** Version `v` is completely installed by the job that created its manifest. */
  ghost predicate Complete(s: State, v: nat) {
    && v in s.created
    && s.created[v].job.version == v && s.created[v].job.RequestOk() && s.created[v].job.ManifestMatches()
    && Get(s.objects, VersionManifest(v)) == Some(s.created[v].job.manifest)
    && FilesPresent(s.objects, s.created[v].job, |s.created[v].job.files|)
  }

  /** `validate_stored_manifest`. */
  predicate IsManifestOf(stored: Blob, v: nat) {
    stored.ManifestDoc? && stored.version == v
  }

  predicate IsHeadDoc(head: Option<Blob>) {
    head.Some? ==> head.value.HeadDoc? && head.value.version > 0
  }

  /** What a process's program counter promises about the store. */
  ghost predicate ProcOk(s: State, pid: nat)
    requires pid in s.procs
  {
    var p := s.procs[pid];
    && (p.request.Publish? ==> p.request.job.LayoutOk())
    && match p.pc
       case Upload(head, next) =>
         p.request.Publish? ==>
           p.request.job.RequestOk() && p.request.job.ManifestMatches() && IsHeadDoc(head) &&
               FilesPresent(s.objects, p.request.job, next)
           && (head.Some? ==> head.value.version < p.request.job.version)
       case CheckTarget(head) => IsHeadDoc(head) && TargetVersion(p.request) > 0 && p.request.Rollback?
       case Swap(head) =>
         && IsHeadDoc(head) && TargetVersion(p.request) > 0 && TargetVersion(p.request) in s.created
         && (p.request.Publish? ==>
               && s.created[p.request.job.version] == Creation(pid, p.request.job)
               && (head.Some? ==> head.value.version < p.request.job.version))
       case _ => true
  }

  ghost predicate Inv(s: State) {
    && IsHeadDoc(s.Head())
    && (s.Head().Some? ==> s.Head().value.version in s.created)
    && (forall v :: v in s.created ==> Complete(s, v))
    && (forall v :: v > 0 && VersionManifest(v) in s.objects && IsManifestOf(s.objects[VersionManifest(v)], v) ==>
        v in s.created)
    && (forall pid :: pid in s.procs ==> ProcOk(s, pid))
  }

  /** Objects other than the head, and the creation record, only grow. */
  ghost predicate Extends(s: State, s': State) {
    && Grows(s.objects, s'.objects, IndexHead)
    && (forall v :: v in s.created ==> v in s'.created && s'.created[v] == s.created[v])
  }

  lemma ExtendsKeepsProc(s: State, s': State, pid: nat)
    requires Extends(s, s') && pid in s.procs && pid in s'.procs && s'.procs[pid] == s.procs[pid] && ProcOk(s, pid)
    ensures ProcOk(s', pid)
  {
  }

  lemma ExtendsKeepsComplete(s: State, s': State, v: nat)
    requires Extends(s, s') && Complete(s, v)
    ensures Complete(s', v)
  {
  }

  /** If file `next` is created at all, it does not pose as protocol state. */
  ghost predicate NextIsHarmless(objects: map<Key, Blob>, job: Job, next: nat) {
    next < |job.files| && job.files[next].0 !in objects ==> !Poses(job.files[next])
  }

  lemma NextHarmless(objects: map<Key, Blob>, job: Job, next: nat)
    requires job.LayoutOk() && FilesPresent(objects, job, next)
    ensures NextIsHarmless(objects, job, next)
  {
    if next < |job.files| && job.files[next].0 !in objects {
      assert Uploadable(job.files, next);
    }
  }

  lemma StepUploadExtends(s: State, pid: nat, job: Job, head: Option<Blob>, next: nat)
    requires pid in s.procs && NextIsHarmless(s.objects, job, next) &&
        (forall v :: v in s.created ==> VersionManifest(v) in s.objects)
    ensures var s' := StepUpload(s, pid, job, head, next);
            Extends(s, s') && s'.procs.Keys == s.procs.Keys && forall q ::
                q in s.procs && q != pid ==> s'.procs[q] == s.procs[q]
  {
  }

  lemma StepSwapExtends(s: State, pid: nat, r: Request, head: Option<Blob>)
    requires pid in s.procs
    ensures var s' := StepSwap(s, pid, r, head);
            Extends(s, s') && s'.procs.Keys == s.procs.Keys && forall q ::
                q in s.procs && q != pid ==> s'.procs[q] == s.procs[q]
  {
  }

  lemma CreatedHaveManifests(s: State)
    requires Inv(s)
    ensures forall v :: v in s.created ==> VersionManifest(v) in s.objects
  {
    forall v | v in s.created
      ensures VersionManifest(v) in s.objects
    {
      assert Complete(s, v);
    }
  }

  /** A step moves one process and only adds objects, except for the head. */
  lemma StepExtends(s: State, pid: nat)
    requires Inv(s) && pid in s.procs
    ensures Extends(s, Step(s, pid))
    ensures Step(s, pid).procs.Keys == s.procs.Keys
    ensures forall q :: q in s.procs && q != pid ==> Step(s, pid).procs[q] == s.procs[q]
  {
    hide StepUpload, StepSwap, Inv;
    UploadIsHarmless(s, pid);
    CreatedHaveManifests(s);
    var p := s.procs[pid];
    match p.pc
    case Upload(head, next) => if p.request.Publish? { StepUploadExtends(s, pid, p.request.job, head, next); }
    case Swap(head) => StepSwapExtends(s, pid, p.request, head);
    case _ =>
  }

  lemma UploadIsHarmless(s: State, pid: nat)
    requires Inv(s) && pid in s.procs
    ensures s.procs[pid].request.Publish? ==> s.procs[pid].request.job.LayoutOk()
    ensures s.procs[pid].request.Publish? && s.procs[pid].pc.Upload? ==>
        NextIsHarmless(s.objects, s.procs[pid].request.job, s.procs[pid].pc.next)
  {
    hide Complete, Harmless, FilesPresent, NextIsHarmless;
    var p := s.procs[pid];
    assert ProcOk(s, pid);
    if p.request.Publish? && p.pc.Upload? {
      NextHarmless(s.objects, p.request.job, p.pc.next);
    }
  }

  lemma OthersKeepInv(s: State, s': State, pid: nat)
    requires Inv(s) && Extends(s, s') && pid in s'.procs && ProcOk(s', pid)
    requires forall q :: q in s'.procs && q != pid ==> q in s.procs && s'.procs[q] == s.procs[q]
    ensures forall q :: q in s'.procs ==> ProcOk(s', q)
  {
    forall q | q in s'.procs && q != pid
      ensures ProcOk(s', q)
    {
      ExtendsKeepsProc(s, s', q);
    }
  }

  lemma StepUploadProcOk(s: State, pid: nat, job: Job, head: Option<Blob>, next: nat)
    requires pid in s.procs && s.procs[pid].request == Publish(job) && s.procs[pid].pc == Upload(head, next) &&
        ProcOk(s, pid)
    ensures ProcOk(StepUpload(s, pid, job, head, next), pid)
  {
    hide FilesPresent, Harmless;
    NextHarmless(s.objects, job, next);
    NextFilePresent(s.objects, job, next);
  }

  lemma NextFilePresent(objects: map<Key, Blob>, job: Job, next: nat)
    ensures
      (FilesPresent(objects, job, next) && next < |job.files|
       && job.files[next].0 !in objects && job.files[next].0 != IndexHead) ==>
        FilesPresent(objects[job.files[next].0 := job.files[next].1], job, next + 1)
  {
  }

  /** Manifest last: a version is recorded as created only when all its files are stored. */
  lemma StepUploadCompletes(s: State, pid: nat, job: Job, head: Option<Blob>, next: nat, v: nat)
    requires pid in s.procs && s.procs[pid].request == Publish(job) && s.procs[pid].pc == Upload(head, next) &&
        ProcOk(s, pid)
    requires v in StepUpload(s, pid, job, head, next).created && v !in s.created
    ensures Complete(StepUpload(s, pid, job, head, next), v)
  {
  }

  lemma StepUploadKeepsInv(s: State, pid: nat, job: Job, head: Option<Blob>, next: nat)
    requires Inv(s) && pid in s.procs && s.procs[pid].request == Publish(job) && s.procs[pid].pc == Upload(head, next)
    ensures Inv(StepUpload(s, pid, job, head, next))
  {
    hide Complete, Step, FilesPresent, Harmless;
    var s' := StepUpload(s, pid, job, head, next);
    assert ProcOk(s, pid);
    CreatedHaveManifests(s);
    NextHarmless(s.objects, job, next);
    StepUploadExtends(s, pid, job, head, next);
    StepUploadProcOk(s, pid, job, head, next);
    OthersKeepInv(s, s', pid);
    forall v | v in s'.created
      ensures Complete(s', v)
    {
      if v in s.created {
        ExtendsKeepsComplete(s, s', v);
      } else {
        StepUploadCompletes(s, pid, job, head, next, v);
      }
    }
    assert s'.Head() == s.Head();
  }

  lemma StepSwapKeepsInv(s: State, pid: nat, head: Option<Blob>)
    requires Inv(s) && pid in s.procs && s.procs[pid].pc == Swap(head)
    ensures Inv(StepSwap(s, pid, s.procs[pid].request, head))
  {
    hide Complete, FilesPresent;
    var s' := StepSwap(s, pid, s.procs[pid].request, head);
    assert ProcOk(s, pid);
    StepSwapExtends(s, pid, s.procs[pid].request, head);
    OthersKeepInv(s, s', pid);
    forall v | v in s'.created
      ensures Complete(s', v)
    {
      ExtendsKeepsComplete(s, s', v);
    }
  }

  lemma MoveKeepsInv(s: State, s': State, pid: nat)
    requires Inv(s) && s'.objects == s.objects && s'.created == s.created && pid in s'.procs && ProcOk(s', pid)
    requires forall q :: q in s'.procs && q != pid ==> q in s.procs && s'.procs[q] == s.procs[q]
    ensures Inv(s')
  {
    OthersKeepInv(s, s', pid);
    forall v | v in s'.created
      ensures Complete(s', v)
    {
      ExtendsKeepsComplete(s, s', v);
    }
  }

  lemma ApplyKeepsInv(s: State, e: Event)
    requires Inv(s) && LayoutOk(e)
    ensures Inv(Apply(s, e)) && Extends(s, Apply(s, e))
  {
    hide Inv, ProcOk;
    var s' := Apply(s, e);
    match e
    case Act(pid) =>
      if pid in s.procs {
        StepExtends(s, pid);
        StepKeepsInv(s, pid);
      }
    case Spawn(pid, request) => if s' != s { FreshProcOk(s', pid); MoveKeepsInv(s, s', pid); }
    case SpawnWorker(pid) => if s' != s { FreshProcOk(s', pid); MoveKeepsInv(s, s', pid); }
    case Number(pid, job) => if s' != s { FreshProcOk(s', pid); MoveKeepsInv(s, s', pid); }
    case Crash(pid) => if pid in s.procs { UploadIsHarmless(s, pid); FreshProcOk(s', pid); MoveKeepsInv(s, s', pid); }
  }

  lemma FreshProcOk(s: State, pid: nat)
    requires pid in s.procs && (s.procs[pid].request.Publish? ==> s.procs[pid].request.job.LayoutOk())
    requires s.procs[pid].pc.Start? || s.procs[pid].pc.Assign? || s.procs[pid].pc.Failed?
    ensures ProcOk(s, pid)
  {
  }

  lemma StepKeepsInv(s: State, pid: nat)
    requires Inv(s) && pid in s.procs
    ensures Inv(Step(s, pid))
  {
    hide Complete, FilesPresent, StepUpload, StepSwap;
    var p := s.procs[pid];
    assert ProcOk(s, pid);
    var s' := Step(s, pid);
    match p.pc
    case Upload(head, next) => if p.request.Publish? { StepUploadKeepsInv(s, pid, p.request.job, head, next); }
    case Swap(head) => StepSwapKeepsInv(s, pid, head);
    case _ => if s' != s { MoveKeepsInv(s, s', pid); }
  }

  lemma {:induction false} RunKeepsInv(s: State, events: seq<Event>)
    requires Inv(s) && AllLayoutOk(events)
    ensures Inv(Run(s, events)) && Extends(s, Run(s, events))
  {
    if events != [] {
      var n := |events| - 1;
      RunKeepsInv(s, events[..n]);
      ApplyKeepsInv(Run(s, events[..n]), events[n]);
    }
  }

  lemma {:induction false} RunAppend(s: State, first: seq<Event>, later: seq<Event>)
    ensures Run(s, first + later) == Run(Run(s, first), later)
  {
    if later == [] {
      assert first + later == first;
    } else {
      var n := |later| - 1;
      RunAppend(s, first, later[..n]);
      assert (first + later)[..|first + later| - 1] == first + later[..n];
    }
  }

  /** In every interleaving with crashes anywhere: whenever the head names a version, that version's manifest and
      every file its creator listed are stored with the uploaded bytes, and no later event changes them. */
  lemma HeadNamesCompleteVersion(events: seq<Event>, later: seq<Event>)
    requires AllLayoutOk(events + later)
    ensures var s, s' := Run(Init(), events), Run(Init(), events + later);
            s.Head().Some? ==>
              && s.Head().value.HeadDoc?
              && var v := s.Head().value.version;
                && Complete(s, v) && Complete(s', v) && s'.created[v] == s.created[v]
                && Grows(s.objects, s'.objects, IndexHead)
  {
    assert forall i :: 0 <= i < |events| ==> events[i] == (events + later)[i];
    assert forall i :: 0 <= i < |later| ==> later[i] == (events + later)[|events| + i];
    RunKeepsInv(Init(), events);
    RunAppend(Init(), events, later);
    RunKeepsInv(Run(Init(), events), later);
  }

  // ----- which layouts are safe -----

  ghost predicate FilesAllowed(e: Event, allowed: seq<(Key, Blob)> -> bool) {
    match e
    case Spawn(_, Publish(job)) => allowed(job.files)
    case Number(_, job) => allowed(job.files)
    case _ => true
  }

  /** The head, if there is one, is a head document naming a completely stored version. */
  ghost predicate HeadOk(s: State) {
    s.Head().Some? ==> s.Head().value.HeadDoc? && Complete(s, s.Head().value.version)
  }

  /** Whatever is requested with directories of these shapes, the head stays honest. */
  ghost predicate AlwaysHeadOk(allowed: seq<(Key, Blob)> -> bool) {
    forall events: seq<Event> ::
      (forall i :: 0 <= i < |events| ==> FilesAllowed(events[i], allowed)) ==> HeadOk(Run(Init(), events))
  }

  lemma RunSnoc(s: State, events: seq<Event>, e: Event)
    ensures Run(s, events + [e]) == Apply(Run(s, events), e)
  {
    assert (events + [e])[..|events|] == events;
  }

  /** A publish of these files into an empty store. */
  function JobOf(files: seq<(Key, Blob)>): Job {
    Job(1, ManifestDoc(1, ""), files, None, MIN_PLAUSIBLE_EPOCH_MILLIS)
  }

  /** It starts and uploads `n` files. */
  ghost function UploadRun(files: seq<(Key, Blob)>, n: nat): seq<Event> {
    if n == 0 then [Spawn(0, Publish(JobOf(files)))] + [Act(0)] else UploadRun(files, n - 1) + [Act(0)]
  }

  ghost predicate UploadedAt(s: State, files: seq<(Key, Blob)>, n: nat) {
    && n <= |files| && s.created == map[]
    && s.procs == map[0 := Proc(Publish(JobOf(files)), Upload(None, n), false, false)]
    && (forall key :: key in s.objects <==> exists i :: 0 <= i < n && files[i].0 == key)
    && (forall i :: 0 <= i < n ==> files[i].0 in s.objects && s.objects[files[i].0] == files[i].1)
  }

  lemma UploadStarts(files: seq<(Key, Blob)>)
    ensures UploadedAt(Run(Init(), UploadRun(files, 0)), files, 0)
  {
    var spawn := Spawn(0, Publish(JobOf(files)));
    RunSnoc(Init(), [], spawn);
    assert [] + [spawn] == [spawn];
    RunSnoc(Init(), [spawn], Act(0));
    assert Apply(Init(), spawn).procs[0] == Proc(Publish(JobOf(files)), Start, false, false);
  }

  lemma UploadStep(s: State, job: Job, n: nat)
    requires 0 in s.procs && s.procs[0] == Proc(Publish(job), Upload(None, n), false, false) && n < |job.files| &&
        job.files[n].0 !in s.objects
    ensures Apply(s, Act(0)) ==
        s.(objects := s.objects[job.files[n].0 := job.files[n].1],
        procs := s.procs[0 := Proc(Publish(job), Upload(None, n + 1), false, false)])
  {
  }

  lemma UploadOne(s: State, files: seq<(Key, Blob)>, n: nat)
    requires UploadedAt(s, files, n) && Uploadable(files, n)
    ensures UploadedAt(Apply(s, Act(0)), files, n + 1)
  {
    hide Apply;
    UploadStep(s, JobOf(files), n);
    var s' := Apply(s, Act(0));
    forall key
      ensures key in s'.objects <==> exists i :: 0 <= i < n + 1 && files[i].0 == key
    {
      if key in s.objects {
        var i :| 0 <= i < n && files[i].0 == key;
      }
    }
  }

  lemma {:induction false} Uploads(files: seq<(Key, Blob)>, n: nat)
    requires n == 0 || Uploadable(files, n - 1)
    ensures UploadedAt(Run(Init(), UploadRun(files, n)), files, n)
  {
    hide UploadedAt, Apply;
    if n == 0 {
      UploadStarts(files);
    } else {
      Uploads(files, n - 1);
      RunSnoc(Init(), UploadRun(files, n - 1), Act(0));
      UploadOne(Run(Init(), UploadRun(files, n - 1)), files, n - 1);
    }
  }

  lemma {:induction false} UploadRunAllowed(files: seq<(Key, Blob)>, n: nat, allowed: seq<(Key, Blob)> -> bool)
    requires allowed(files)
    ensures forall i :: 0 <= i < |UploadRun(files, n)| ==> FilesAllowed(UploadRun(files, n)[i], allowed)
  {
    if n > 0 {
      UploadRunAllowed(files, n - 1, allowed);
    }
  }

  /** A harmful directory has a first file that poses. */
  lemma {:induction false} FirstPosing(files: seq<(Key, Blob)>, i: nat) returns (first: nat)
    requires Uploadable(files, i) && Poses(files[i])
    ensures Uploadable(files, first) && Poses(files[first]) && forall j :: 0 <= j < first ==> !Poses(files[j])
    decreases i
  {
    if j: nat :| j < i && Poses(files[j]) {
      first := FirstPosing(files, j);
    } else {
      first := i;
    }
  }

  /** A file under the head's key becomes the head. */
  lemma HeadPlanted(files: seq<(Key, Blob)>, i: nat)
    requires Uploadable(files, i) && files[i].0.IndexHead?
    ensures !HeadOk(Run(Init(), UploadRun(files, i + 1)))
  {
    hide Run, UploadRun;
    Uploads(files, i + 1);
    assert Run(Init(), UploadRun(files, i + 1)).Head() == Some(files[i].1);
  }

  /** A rollback to `v` by another process, finding no head. */
  function RollbackEvent(v: nat): Event {
    Spawn(1, Rollback(v, None, MIN_PLAUSIBLE_EPOCH_MILLIS))
  }

  lemma RollbackActivates(s: State, v: nat)
    requires s.Head().None? && 1 !in s.procs && v > 0
    requires VersionManifest(v) in s.objects && IsManifestOf(s.objects[VersionManifest(v)], v)
    ensures
      var after := Apply(Apply(Apply(Apply(s, RollbackEvent(v)), Act(1)), Act(1)), Act(1));
      after.Head() == Some(HeadDoc(v, MIN_PLAUSIBLE_EPOCH_MILLIS)) && after.created == s.created
  {
    var s1 := Apply(s, RollbackEvent(v));
    assert s1.procs[1] == Proc(Rollback(v, None, MIN_PLAUSIBLE_EPOCH_MILLIS), Start, false, false);
    var s2 := Apply(s1, Act(1));
    assert s2.procs[1].pc == CheckTarget(None);
    var s3 := Apply(s2, Act(1));
    assert s3.procs[1].pc == Swap(None);
  }

  lemma ManifestStored(s: State, files: seq<(Key, Blob)>, i: nat)
    requires UploadedAt(s, files, i + 1) && Poses(files[i]) && files[i].0.VersionManifest? && forall j ::
        0 <= j < i ==> !Poses(files[j])
    ensures s.Head().None? && s.created == map[] && 1 !in s.procs
    ensures VersionManifest(files[i].0.version) in s.objects &&
        IsManifestOf(s.objects[VersionManifest(files[i].0.version)], files[i].0.version)
  {
    assert files[i].0 in s.objects && s.objects[files[i].0] == files[i].1;
  }

  /** A file that passes for a version's manifest is activated by a rollback to that version. */
  lemma ManifestPlanted(files: seq<(Key, Blob)>, i: nat)
    requires Uploadable(files, i) && Poses(files[i]) && files[i].0.VersionManifest?
    requires forall j :: 0 <= j < i ==> !Poses(files[j])
    ensures !HeadOk(Run(Init(),
        UploadRun(files, i + 1) + [RollbackEvent(files[i].0.version)] + [Act(1)] + [Act(1)] + [Act(1)]))
  {
    hide Run, UploadRun, Apply, UploadedAt;
    var uploads, rollback := UploadRun(files, i + 1), RollbackEvent(files[i].0.version);
    Uploads(files, i + 1);
    RunSnoc(Init(), uploads, rollback);
    RunSnoc(Init(), uploads + [rollback], Act(1));
    RunSnoc(Init(), uploads + [rollback] + [Act(1)], Act(1));
    RunSnoc(Init(), uploads + [rollback] + [Act(1)] + [Act(1)], Act(1));
    ManifestStored(Run(Init(), uploads), files, i);
    RollbackActivates(Run(Init(), uploads), files[i].0.version);
  }

  lemma HarmfulPlants(files: seq<(Key, Blob)>, allowed: seq<(Key, Blob)> -> bool)
    requires allowed(files) && !Harmless(files)
    ensures !AlwaysHeadOk(allowed)
  {
    hide Run, HeadOk, FilesAllowed, Poses, AlwaysHeadOk;
    var posing: nat :| Uploadable(files, posing) && Poses(files[posing]);
    var i := FirstPosing(files, posing);
    var events := UploadRun(files, i + 1);
    UploadRunAllowed(files, i + 1, allowed);
    if files[i].0.IndexHead? {
      HeadPlanted(files, i);
    } else {
      assert files[i].0.VersionManifest? by {
        PosesMeans(files[i]);
      }
      ManifestPlanted(files, i);
      events := WithRollback(files, i + 1, files[i].0.version, allowed);
    }
    Refuted(events, allowed);
  }

  lemma PosesMeans(file: (Key, Blob))
    requires Poses(file) && !file.0.IndexHead?
    ensures file.0.VersionManifest?
  {
  }

  lemma WithRollback(files: seq<(Key, Blob)>, n: nat, v: nat, allowed: seq<(Key, Blob)> -> bool)
      returns (events: seq<Event>)
    requires forall i :: 0 <= i < |UploadRun(files, n)| ==> FilesAllowed(UploadRun(files, n)[i], allowed)
    ensures events == UploadRun(files, n) + [RollbackEvent(v)] + [Act(1)] + [Act(1)] + [Act(1)]
    ensures forall i :: 0 <= i < |events| ==> FilesAllowed(events[i], allowed)
  {
    hide UploadRun;
    events := UploadRun(files, n) + [RollbackEvent(v)] + [Act(1)] + [Act(1)] + [Act(1)];
  }

  lemma Refuted(events: seq<Event>, allowed: seq<(Key, Blob)> -> bool)
    requires (forall i :: 0 <= i < |events| ==> FilesAllowed(events[i], allowed)) && !HeadOk(Run(Init(), events))
    ensures !AlwaysHeadOk(allowed)
  {
  }

  lemma HarmlessKeepsHead(events: seq<Event>, allowed: seq<(Key, Blob)> -> bool)
    requires (forall files :: allowed(files) ==> Harmless(files)) && forall i ::
        0 <= i < |events| ==> FilesAllowed(events[i], allowed)
    ensures HeadOk(Run(Init(), events))
  {
    hide Harmless, Run, Complete;
    forall i | 0 <= i < |events|
      ensures LayoutOk(events[i])
    {
      assert FilesAllowed(events[i], allowed);
    }
    RunKeepsInv(Init(), events);
  }

  /** The directory shapes with which the head names only complete versions, whatever versions, expectations and times
      are requested, are exactly the harmless ones. */
  lemma SafeLayoutsExactly(allowed: seq<(Key, Blob)> -> bool)
    ensures AlwaysHeadOk(allowed) <==> forall files :: allowed(files) ==> Harmless(files)
  {
    hide Harmless, HeadOk, Run;
    if AlwaysHeadOk(allowed) {
      forall files | allowed(files)
        ensures Harmless(files)
      {
        if !Harmless(files) {
          HarmfulPlants(files, allowed);
        }
      }
    }
    if forall files :: allowed(files) ==> Harmless(files) {
      forall events: seq<Event> | forall i :: 0 <= i < |events| ==> FilesAllowed(events[i], allowed)
        ensures HeadOk(Run(Init(), events))
      {
        HarmlessKeepsHead(events, allowed);
      }
    }
  }

  /** For one, a shard directory holding `index/_head` makes its create-only upload plant a head naming a version nobody
      created. */
  lemma LayoutIsNeeded(at: int)
    ensures var files := [(IndexHead, HeadDoc(7, at))];
            var s := Run(Init(), UploadRun(files, 1));
            s.Head() == Some(HeadDoc(7, at)) && VersionManifest(7) !in s.objects
  {
    hide Run, UploadRun;
    var files := [(IndexHead, HeadDoc(7, at))];
    Uploads(files, 1);
    assert files[0].0 == IndexHead;
  }

  /** The builder's layout is one of them: shard directories hold artifacts only. */
  lemma ArtifactsAreHarmless(files: seq<(Key, Blob)>)
    requires forall i :: 0 <= i < |files| ==> files[i].0.Artifact?
    ensures Harmless(files)
  {
  }

  // ----- the sequential code -----

  /** One publisher alone on `objects`, after `n` of its object operations. */
  ghost function Alone(objects: map<Key, Blob>, job: Job, n: nat): (s: State)
    ensures 0 in s.procs && s.procs[0].request == Publish(job) && !s.procs[0].worker
  {
    if n == 0 then State(objects, map[0 := Proc(Publish(job), Start, false, false)], map[], [])
    else Apply(Alone(objects, job, n - 1), Act(0))
  }

  /** Where the lone publisher is after `n` operations. */
  ghost predicate AloneAt(objects: map<Key, Blob>, job: Job, n: nat, now: map<Key, Blob>, pc: Pc) {
    Alone(objects, job, n).objects == now && Alone(objects, job, n).procs[0].pc == pc
  }

  lemma AloneStarts(objects: map<Key, Blob>, job: Job)
    ensures AloneAt(objects, job, 1, objects, StartPublish(job, Get(objects, IndexHead)))
  {
    assert Alone(objects, job, 0).procs[0].pc == Start;
  }

  lemma AloneUploads(objects: map<Key, Blob>, job: Job, n: nat, now: map<Key, Blob>, head: Option<Blob>, i: nat)
    requires AloneAt(objects, job, n, now, Upload(head, i))
    ensures i < |job.files| ==>
              var put := PutIfAbsent(now, job.files[i].0, job.files[i].1);
              AloneAt(objects, job, n + 1,
                  if put.Some? then put.value else now, if put.Some? then Upload(head, i + 1) else Failed(false))
    ensures i >= |job.files| ==>
              var put := PutIfAbsent(now, VersionManifest(job.version), job.manifest);
              AloneAt(objects, job, n + 1,
                  if put.Some? then put.value else now, if put.Some? then Swap(head) else Failed(false))
  {
    hide PutIfAbsent;
  }

  lemma AloneSwaps(objects: map<Key, Blob>, job: Job, n: nat, now: map<Key, Blob>, head: Option<Blob>)
    requires AloneAt(objects, job, n, now, Swap(head))
    ensures var put := CompareAndSwap(now, IndexHead, TagOf(head), HeadDoc(job.version, job.updatedAt));
            AloneAt(objects, job, n + 1,
                if put.Some? then put.value else now, if put.Some? then Done(VersionOf(head)) else Failed(true))
  {
    hide CompareAndSwap;
  }

  /** The store with the first `n` files added. */
  ghost function WithFiles(objects: map<Key, Blob>, files: seq<(Key, Blob)>, n: nat): map<Key, Blob>
    requires n <= |files|
  {
    if n == 0 then objects else WithFiles(objects, files, n - 1)[files[n - 1].0 := files[n - 1].1]
  }

  lemma {:induction false} WithFilesHas(objects: map<Key, Blob>, files: seq<(Key, Blob)>, n: nat, key: Key)
    requires n <= |files|
    ensures key in WithFiles(objects, files, n) <==> key in objects || exists i :: 0 <= i < n && files[i].0 == key
    ensures (forall i :: 0 <= i < n ==> files[i].0 != key) ==>
        Get(WithFiles(objects, files, n), key) == Get(objects, key)
  {
    if n > 0 {
      WithFilesHas(objects, files, n - 1, key);
    }
  }

  lemma {:induction false} WithFilesHolds(objects: map<Key, Blob>, files: seq<(Key, Blob)>, n: nat, i: nat)
    requires i < n <= |files| && forall a, b :: 0 <= a < b < n ==> files[a].0 != files[b].0
    ensures Get(WithFiles(objects, files, n), files[i].0) == Some(files[i].1)
  {
    if i < n - 1 {
      WithFilesHolds(objects, files, n - 1, i);
    }
  }

  /** The store after a publish, key by key. */
  lemma PublishedStore(objects: map<Key, Blob>, job: Job, after: map<Key, Blob>)
    requires FreshFiles(objects, job.files, |job.files|)
    requires forall i :: 0 <= i < |job.files| ==>
        job.files[i].0 != IndexHead && job.files[i].0 != VersionManifest(job.version)
    requires after == WithFiles(objects, job.files, |job.files|)
                      [VersionManifest(job.version) := job.manifest][IndexHead := HeadDoc(job.version, job.updatedAt)]
    ensures Get(after, IndexHead) == Some(HeadDoc(job.version, job.updatedAt))
    ensures Get(after, VersionManifest(job.version)) == Some(job.manifest)
    ensures forall i :: 0 <= i < |job.files| ==> Get(after, job.files[i].0) == Some(job.files[i].1)
    ensures forall k ::
        (k != IndexHead && k != VersionManifest(job.version)
         && forall i :: 0 <= i < |job.files| ==> k != job.files[i].0) ==>
          Get(after, k) == Get(objects, k)
  {
    hide WithFiles;
    forall i | 0 <= i < |job.files|
      ensures Get(after, job.files[i].0) == Some(job.files[i].1)
    {
      WithFilesHolds(objects, job.files, |job.files|, i);
    }
    forall k | k != IndexHead && k != VersionManifest(job.version)
        && forall i :: 0 <= i < |job.files| ==> k != job.files[i].0
      ensures Get(after, k) == Get(objects, k)
    {
      WithFilesHas(objects, job.files, |job.files|, k);
    }
  }

  /** The first `n` files have keys of their own that the store did not have. */
  ghost predicate FreshFiles(objects: map<Key, Blob>, files: seq<(Key, Blob)>, n: nat) {
    && n <= |files|
    && (forall a, b :: 0 <= a < b < n ==> files[a].0 != files[b].0)
    && (forall i :: 0 <= i < n ==> files[i].0 !in objects)
  }

  /** A create-only upload of the next file succeeds exactly if its key is fresh too. */
  lemma NextFresh(objects: map<Key, Blob>, files: seq<(Key, Blob)>, n: nat)
    requires FreshFiles(objects, files, n) && n < |files|
    ensures files[n].0 !in WithFiles(objects, files, n) <==> FreshFiles(objects, files, n + 1)
  {
    WithFilesHas(objects, files, n, files[n].0);
  }

  /** The manifest can be created after the files, and the head is still what it was. */
  lemma ManifestFresh(objects: map<Key, Blob>, files: seq<(Key, Blob)>, v: nat)
    requires FreshFiles(objects, files, |files|)
    ensures VersionManifest(v) !in WithFiles(objects, files, |files|) <==>
        VersionManifest(v) !in objects && forall i :: 0 <= i < |files| ==> files[i].0 != VersionManifest(v)
    ensures Get(WithFiles(objects, files, |files|), IndexHead) == Get(objects, IndexHead) <==>
        forall i :: 0 <= i < |files| ==> files[i].0 != IndexHead
  {
    WithFilesHas(objects, files, |files|, VersionManifest(v));
    WithFilesHas(objects, files, |files|, IndexHead);
  }

  /** `publish`: read and check the head, create every file, then the manifest, then swap the head. Undisturbed it
      does exactly what its process does in the protocol, and it succeeds exactly when the request and the head are
      valid, the head is the expected one and lower, the manifest file is the version's, and every upload finds its
      key free. */
  method PublishVersion(bucket: Bucket<Key, Blob>, job: Job) returns (pc: Pc, ghost steps: nat)
    modifies bucket
    ensures pc.Done? || pc.Failed?
    ensures AloneAt(old(bucket.objects), job, steps, bucket.objects, pc)
    ensures
      pc.Done?
      <==>
        && job.version > 0 && job.updatedAt >= MIN_PLAUSIBLE_EPOCH_MILLIS
        && (IndexHead in old(bucket.objects) ==>
              && old(bucket.objects)[IndexHead].HeadDoc?
              && old(bucket.objects)[IndexHead].updatedAt >= MIN_PLAUSIBLE_EPOCH_MILLIS
              && 0 < old(bucket.objects)[IndexHead].version < job.version)
        && (job.expected.Some? ==>
              && IndexHead in old(bucket.objects) && old(bucket.objects)[IndexHead].HeadDoc?
              && old(bucket.objects)[IndexHead].version == job.expected.value)
        && job.manifest.ManifestDoc? && job.manifest.version == job.version
        && (forall a, b :: 0 <= a < b < |job.files| ==> job.files[a].0 != job.files[b].0)
        && (forall i :: 0 <= i < |job.files| ==>
              && job.files[i].0 !in old(bucket.objects)
              && job.files[i].0 != IndexHead && job.files[i].0 != VersionManifest(job.version))
        && VersionManifest(job.version) !in old(bucket.objects)
    ensures pc.Done? ==>
              && pc.previous == VersionOf(Get(old(bucket.objects), IndexHead))
              && bucket.objects == WithFiles(old(bucket.objects), job.files, |job.files|)
                                   [VersionManifest(job.version) := job.manifest]
                                   [IndexHead := HeadDoc(job.version, job.updatedAt)]
    ensures pc.Done? ==>
              && Get(bucket.objects, IndexHead) == Some(HeadDoc(job.version, job.updatedAt))
              && Get(bucket.objects, VersionManifest(job.version)) == Some(job.manifest)
              && (forall i :: 0 <= i < |job.files| ==> Get(bucket.objects, job.files[i].0) == Some(job.files[i].1))
              && (forall k ::
                    (k != IndexHead && k != VersionManifest(job.version)
                     && forall i :: 0 <= i < |job.files| ==> k != job.files[i].0) ==>
                      Get(bucket.objects, k) == Get(old(bucket.objects), k))
    ensures
      (job.version > 0 && job.updatedAt >= MIN_PLAUSIBLE_EPOCH_MILLIS
       && (IndexHead in old(bucket.objects) ==>
             && old(bucket.objects)[IndexHead].HeadDoc? && 0 < old(bucket.objects)[IndexHead].version
             && old(bucket.objects)[IndexHead].updatedAt >= MIN_PLAUSIBLE_EPOCH_MILLIS)
       && forall i :: 0 <= i < |job.files| ==> job.files[i].0 != IndexHead) ==>
        (pc == Failed(true)
         <==>
           || (job.expected.Some?
               && (IndexHead !in old(bucket.objects) || old(bucket.objects)[IndexHead].version != job.expected.value))
           || (IndexHead in old(bucket.objects) && job.version <= old(bucket.objects)[IndexHead].version))
    ensures pc.Done? && job.LayoutOk() ==> FilesPresent(bucket.objects, job, |job.files|)
    ensures pc.Failed? && job.LayoutOk() ==> Get(bucket.objects, IndexHead) == Get(old(bucket.objects), IndexHead)
    ensures Grows(old(bucket.objects), bucket.objects, IndexHead)
  {
    hide AloneAt, FilesPresent, Harmless, FreshFiles, WithFiles;
    ghost var objects := bucket.objects;
    var head := bucket.Read(IndexHead);
    pc := StartPublish(job, head);
    steps := 1;
    AloneStarts(objects, job);
    NoFilesYet(objects, job.files);
    if pc.Failed? {
      return;
    }
    NoFilesPresent(bucket.objects, job);
    for i := 0 to |job.files|
      invariant AloneAt(objects, job, steps, bucket.objects, Upload(head, i))
      invariant FreshFiles(objects, job.files, i) && bucket.objects == WithFiles(objects, job.files, i)
      invariant job.LayoutOk() ==> FilesPresent(bucket.objects, job, i) && Get(bucket.objects, IndexHead) == head
      invariant Grows(objects, bucket.objects, IndexHead)
    {
      AloneUploads(objects, job, steps, bucket.objects, head, i);
      NextFilePresent(bucket.objects, job, i);
      NextKeepsHead(bucket.objects, job, i);
      NextFresh(objects, job.files, i);
      NextStored(objects, job.files, i);
      steps := steps + 1;
      var ok := bucket.UploadFile(job.files[i].0, job.files[i].1, CreateOnly);
      if !ok {
        NotAllFresh(objects, job.files, i + 1);
        return Failed(false), steps;
      }
    }
    AloneUploads(objects, job, steps, bucket.objects, head, |job.files|);
    ManifestFresh(objects, job.files, job.version);
    AllFresh(objects, job.files);
    ghost var uploaded := bucket.objects;
    steps := steps + 1;
    var created := bucket.UploadFile(VersionManifest(job.version), job.manifest, CreateOnly);
    if !created {
      return Failed(false), steps;
    }
    AloneSwaps(objects, job, steps, bucket.objects, head);
    SwapSucceedsIffUnchanged(bucket.objects, IndexHead, head, HeadDoc(job.version, job.updatedAt));
    steps := steps + 1;
    var swapped := bucket.Swap(IndexHead, TagOf(head), HeadDoc(job.version, job.updatedAt));
    pc := if swapped then Done(VersionOf(head)) else Failed(true);
    GrowsKeepsFiles(uploaded, bucket.objects, job);
    if swapped {
      PublishedStore(objects, job, bucket.objects);
    }
  }

  lemma NoFilesYet(objects: map<Key, Blob>, files: seq<(Key, Blob)>)
    ensures FreshFiles(objects, files, 0) && WithFiles(objects, files, 0) == objects
  {
  }

  lemma NextStored(objects: map<Key, Blob>, files: seq<(Key, Blob)>, n: nat)
    requires n < |files|
    ensures WithFiles(objects, files, n + 1) == WithFiles(objects, files, n)[files[n].0 := files[n].1]
  {
  }

  lemma NotAllFresh(objects: map<Key, Blob>, files: seq<(Key, Blob)>, n: nat)
    requires n <= |files| && !FreshFiles(objects, files, n)
    ensures !((forall a, b :: 0 <= a < b < |files| ==> files[a].0 != files[b].0)
              && (forall i :: 0 <= i < |files| ==> files[i].0 !in objects))
  {
  }

  lemma AllFresh(objects: map<Key, Blob>, files: seq<(Key, Blob)>)
    requires FreshFiles(objects, files, |files|)
    ensures forall a, b :: 0 <= a < b < |files| ==> files[a].0 != files[b].0
    ensures forall i :: 0 <= i < |files| ==> files[i].0 !in objects
  {
  }

  lemma NoFilesPresent(objects: map<Key, Blob>, job: Job)
    ensures FilesPresent(objects, job, 0)
  {
  }

  lemma NextKeepsHead(objects: map<Key, Blob>, job: Job, next: nat)
    ensures
      (job.LayoutOk() && FilesPresent(objects, job, next) && next < |job.files| && job.files[next].0 !in objects) ==>
        job.files[next].0 != IndexHead
  {
    hide Harmless, FilesPresent;
    if job.LayoutOk() && FilesPresent(objects, job, next) {
      NextHarmless(objects, job, next);
    }
  }

  lemma GrowsKeepsFiles(objects: map<Key, Blob>, later: map<Key, Blob>, job: Job)
    requires Grows(objects, later, IndexHead)
    ensures FilesPresent(objects, job, |job.files|) ==> FilesPresent(later, job, |job.files|)
  {
  }

  /** `rollback`: succeeds exactly when the request is valid, the head is the expected one and the target's manifest
      is stored intact; then it changes the head alone, and otherwise nothing. */
  method RollbackVersion(bucket: Bucket<Key, Blob>, target: nat, expectedHead: Option<nat>, at: int) returns (pc: Pc)
    modifies bucket
    ensures pc.Done? || pc.Failed?
    ensures pc.Done? <==>
              && target > 0 && at >= MIN_PLAUSIBLE_EPOCH_MILLIS
              && ParsesAsHead(Get(old(bucket.objects), IndexHead)) &&
                  VersionOf(Get(old(bucket.objects), IndexHead)) == expectedHead
              && VersionManifest(target) in old(bucket.objects) &&
                  old(bucket.objects)[VersionManifest(target)].ManifestDoc?
              && old(bucket.objects)[VersionManifest(target)].version == target
    ensures pc.Done? ==>
        pc.previous == expectedHead && bucket.objects == old(bucket.objects)[IndexHead := HeadDoc(target, at)]
    ensures pc.Failed? ==> bucket.objects == old(bucket.objects)
  {
    var head := bucket.Read(IndexHead);
    pc := StartRollback(target, expectedHead, at, head);
    if pc.Failed? {
      return;
    }
    var stored := bucket.Read(VersionManifest(target));
    if stored.None? || !stored.value.ManifestDoc? || stored.value.version != target {
      return Failed(false);
    }
    SwapSucceedsIffUnchanged(bucket.objects, IndexHead, head, HeadDoc(target, at));
    var swapped := bucket.Swap(IndexHead, TagOf(head), HeadDoc(target, at));
    return if swapped then Done(VersionOf(head)) else Failed(true);
  }
}
