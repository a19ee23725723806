/** The history of `index/_head` over every run of the publish protocol, and what it becomes
    when queue workers are the only publishers (src/build_worker.rs). */
module VersionHistory {
  import opened Wrappers
  import opened ObjectStore
  import opened Publisher

  /** A published version is published once, raises the head it replaced, and no process waiting to swap shares it. */
  ghost predicate HistoryOk(s: State) {
    && (forall i :: 0 <= i < |s.history| && s.history[i].published ==> s.history[i].version in s.created)
    && (forall i, j :: 0 <= i < j < |s.history| && s.history[i].published && s.history[j].published ==>
          s.history[i].version != s.history[j].version)
    && (forall i :: 0 <= i < |s.history| && s.history[i].published ==> Raises(s.history[i]))
    && (forall pid :: pid in s.procs && AboutToSwap(s.procs[pid]) ==> NotPublished(s, s.procs[pid].request.job.version))
  }

  predicate Raises(a: Activation) {
    a.replaced.Some? ==> a.replaced.value < a.version
  }

  /** A publisher that has created its manifest and not yet swapped. */
  predicate AboutToSwap(p: Proc) {
    p.pc.Swap? && p.request.Publish?
  }

  ghost predicate NotPublished(s: State, v: nat) {
    forall i :: 0 <= i < |s.history| && s.history[i].published ==> s.history[i].version != v
  }

  lemma SwapKeepsHistory(s: State, pid: nat, head: Option<Blob>)
    requires Inv(s) && HistoryOk(s) && pid in s.procs && s.procs[pid].pc == Swap(head)
    ensures HistoryOk(StepSwap(s, pid, s.procs[pid].request, head))
  {
    hide Complete, Get;
    var r := s.procs[pid].request;
    var s' := StepSwap(s, pid, r, head);
    assert ProcOk(s, pid);
    forall q | q in s'.procs && AboutToSwap(s'.procs[q])
      ensures NotPublished(s', s'.procs[q].request.job.version)
    {
      assert q != pid && s'.procs[q] == s.procs[q];
      assert ProcOk(s, q);
    }
  }

  lemma UploadKeepsHistory(s: State, pid: nat, job: Job, head: Option<Blob>, next: nat)
    requires Inv(s) && HistoryOk(s) && pid in s.procs && s.procs[pid].request == Publish(job) &&
        s.procs[pid].pc == Upload(head, next)
    ensures HistoryOk(StepUpload(s, pid, job, head, next))
  {
    hide Complete;
    var s' := StepUpload(s, pid, job, head, next);
    CreatedHaveManifests(s);
    forall q | q in s'.procs && AboutToSwap(s'.procs[q])
      ensures NotPublished(s', s'.procs[q].request.job.version)
    {
      if q != pid {
        assert s'.procs[q] == s.procs[q];
      }
    }
  }

  lemma MoveKeepsHistory(s: State, s': State, pid: nat)
    requires HistoryOk(s) && s'.history == s.history && s'.created == s.created && pid in s'.procs &&
        !AboutToSwap(s'.procs[pid])
    requires forall q :: q in s'.procs && q != pid ==> q in s.procs && s'.procs[q] == s.procs[q]
    ensures HistoryOk(s')
  {
    forall q | q in s'.procs && AboutToSwap(s'.procs[q])
      ensures NotPublished(s', s'.procs[q].request.job.version)
    {
      assert NotPublished(s, s.procs[q].request.job.version);
    }
  }

  lemma StepKeepsHistory(s: State, pid: nat)
    requires Inv(s) && HistoryOk(s) && pid in s.procs
    ensures HistoryOk(Step(s, pid))
  {
    hide Inv, HistoryOk, StepUpload, StepSwap;
    var p := s.procs[pid];
    assert ProcOk(s, pid) by { ProcIsOk(s, pid); }
    var s' := Step(s, pid);
    match p.pc
    case Upload(head, next) => if p.request.Publish? { UploadKeepsHistory(s, pid, p.request.job, head, next); }
    case Swap(head) => SwapKeepsHistory(s, pid, head);
    case _ => if s' != s { MoveKeepsHistory(s, s', pid); }
  }

  lemma ProcIsOk(s: State, pid: nat)
    requires Inv(s) && pid in s.procs
    ensures ProcOk(s, pid)
  {
  }

  lemma ApplyKeepsHistory(s: State, e: Event)
    requires Inv(s) && HistoryOk(s)
    ensures HistoryOk(Apply(s, e))
  {
    hide Inv, HistoryOk, Step;
    var s' := Apply(s, e);
    if s' != s {
      match e
      case Act(pid) => StepKeepsHistory(s, pid);
      case Spawn(pid, _) => MoveKeepsHistory(s, s', pid);
      case SpawnWorker(pid) => MoveKeepsHistory(s, s', pid);
      case Number(pid, _) => MoveKeepsHistory(s, s', pid);
      case Crash(pid) => MoveKeepsHistory(s, s', pid);
    }
  }

  /** Over every run, at most one publish of a version succeeds and each success raises the head it replaced. */
  lemma {:induction false} EachVersionPublishedOnce(events: seq<Event>)
    requires AllLayoutOk(events)
    ensures HistoryOk(Run(Init(), events))
  {
    if events != [] {
      var n := |events| - 1;
      EachVersionPublishedOnce(events[..n]);
      RunKeepsInv(Init(), events[..n]);
      ApplyKeepsHistory(Run(Init(), events[..n]), events[n]);
    }
  }

  // ----- queue workers as the only publishers -----

  predicate IsWorkerEvent(e: Event) {
    !e.Spawn?
  }

  /** A job numbered by `next_version_id` from some head. */
  predicate Numbered(job: Job) {
    match job.expected case None => job.version == 1 case Some(v) => job.version == v + 1
  }

  ghost predicate WorkerOk(s: State, p: Proc) {
    match p.pc
    case Start => p.request.Publish? && Numbered(p.request.job)
    case Upload(head, _) =>
      && p.request.Publish? && Numbered(p.request.job) && VersionOf(head) == p.request.job.expected
      && (head == s.Head() || p.request.job.version <= |s.history|)
    case Swap(head) =>
      p.request.Publish? && Numbered(p.request.job) && VersionOf(head) == p.request.job.expected && head == s.Head()
    case CheckTarget(_) => false
    case _ => true
  }

  /** The i-th success activated version i+1 in place of version i. */
  ghost predicate Consecutive(history: seq<Activation>) {
    forall i :: 0 <= i < |history| ==> history[i] == Activation(i + 1, if i == 0 then None else Some(i), true)
  }

  ghost predicate WorkersInv(s: State) {
    && Consecutive(s.history)
    && VersionOf(s.Head()) == (if |s.history| == 0 then None else Some(|s.history|))
    && (s.Head().None? <==> s.history == [])
    && (forall v :: 1 <= v <= |s.history| ==> v in s.created)
    && (forall pid :: pid in s.procs ==> WorkerOk(s, s.procs[pid]))
  }

  /** A worker that has created its manifest wins the swap: the head is still what it read. */
  lemma WorkerSwapSucceeds(s: State, pid: nat)
    requires WorkersInv(s) && pid in s.procs && s.procs[pid].pc.Swap?
    ensures Step(s, pid).procs[pid].pc == Done(VersionOf(s.Head()))
    ensures Step(s, pid).Head() == Some(NewHead(s.procs[pid].request))
  {
    var p := s.procs[pid];
    assert WorkerOk(s, p);
    SwapSucceedsIffUnchanged(s.objects, IndexHead, p.pc.head, NewHead(p.request));
  }

  lemma SwapKeepsWorkers(s: State, pid: nat, head: Option<Blob>)
    requires Inv(s) && WorkersInv(s) && pid in s.procs && s.procs[pid].pc == Swap(head)
    ensures WorkersInv(StepSwap(s, pid, s.procs[pid].request, head))
  {
    hide Complete, Inv, HistoryOk;
    var r := s.procs[pid].request;
    var s' := StepSwap(s, pid, r, head);
    WorkerSwapSucceeds(s, pid);
    assert WorkerOk(s, s.procs[pid]);
    ProcIsOk(s, pid);
    assert s'.history == s.history + [Activation(|s.history| + 1, VersionOf(s.Head()), true)];
    forall q | q in s'.procs
      ensures WorkerOk(s', s'.procs[q])
    {
      if q != pid {
        assert s'.procs[q] == s.procs[q];
        assert WorkerOk(s, s.procs[q]);
        ProcIsOk(s, q);
      }
    }
  }

  /** The uploading worker itself: if the head moved on, its version is already created and the manifest upload fails.
      */
  lemma UploaderStaysOk(s: State, pid: nat, job: Job, head: Option<Blob>, next: nat)
    requires WorkersInv(s) && pid in s.procs && s.procs[pid].request == Publish(job) &&
        s.procs[pid].pc == Upload(head, next)
    requires (forall v :: v in s.created ==> VersionManifest(v) in s.objects) && NextIsHarmless(s.objects, job, next)
    ensures var s' := StepUpload(s, pid, job, head, next); s'.Head() == s.Head() && WorkerOk(s', s'.procs[pid])
  {
    assert WorkerOk(s, s.procs[pid]);
  }

  lemma UploadKeepsWorkers(s: State, pid: nat, job: Job, head: Option<Blob>, next: nat)
    requires Inv(s) && WorkersInv(s) && pid in s.procs && s.procs[pid].request == Publish(job) &&
        s.procs[pid].pc == Upload(head, next)
    ensures WorkersInv(StepUpload(s, pid, job, head, next))
  {
    hide Inv, PutIfAbsent;
    var s' := StepUpload(s, pid, job, head, next);
    CreatedHaveManifests(s);
    UploadIsHarmless(s, pid);
    StepUploadExtends(s, pid, job, head, next);
    UploaderStaysOk(s, pid, job, head, next);
    forall q | q in s'.procs && q != pid
      ensures WorkerOk(s', s'.procs[q])
    {
      assert WorkerOk(s, s.procs[q]);
    }
  }

  lemma MoveKeepsWorkers(s: State, s': State, pid: nat)
    requires WorkersInv(s) && s'.history == s.history && s'.created == s.created && s'.objects == s.objects
    requires pid in s'.procs && WorkerOk(s', s'.procs[pid])
    requires forall q :: q in s'.procs && q != pid ==> q in s.procs && s'.procs[q] == s.procs[q]
    ensures WorkersInv(s')
  {
    forall q | q in s'.procs && q != pid
      ensures WorkerOk(s', s'.procs[q])
    {
      assert WorkerOk(s, s.procs[q]);
    }
  }

  lemma StepKeepsWorkers(s: State, pid: nat)
    requires Inv(s) && WorkersInv(s) && pid in s.procs
    ensures WorkersInv(Step(s, pid))
  {
    hide Inv, StepUpload, StepSwap;
    var p := s.procs[pid];
    assert WorkerOk(s, p);
    var s' := Step(s, pid);
    match p.pc
    case Upload(head, next) => UploadKeepsWorkers(s, pid, p.request.job, head, next);
    case Swap(head) => SwapKeepsWorkers(s, pid, head);
    case _ => if s' != s { MoveKeepsWorkers(s, s', pid); }
  }

  lemma ApplyKeepsWorkers(s: State, e: Event)
    requires Inv(s) && WorkersInv(s) && IsWorkerEvent(e)
    ensures WorkersInv(Apply(s, e))
  {
    hide Inv, WorkersInv, Step;
    var s' := Apply(s, e);
    if s' != s {
      match e
      case Act(pid) => StepKeepsWorkers(s, pid);
      case SpawnWorker(pid) => MoveKeepsWorkers(s, s', pid);
      case Number(pid, job) => MoveKeepsWorkers(s, s', pid);
      case Crash(pid) => MoveKeepsWorkers(s, s', pid);
    }
  }

  /** With workers as the only publishers, the head history is exactly 1, 2, 3, ... with no gap. */
  lemma {:induction false} WorkersCountUp(events: seq<Event>)
    requires AllLayoutOk(events) && forall i :: 0 <= i < |events| ==> IsWorkerEvent(events[i])
    ensures WorkersInv(Run(Init(), events))
  {
    if events != [] {
      var n := |events| - 1;
      WorkersCountUp(events[..n]);
      RunKeepsInv(Init(), events[..n]);
      ApplyKeepsWorkers(Run(Init(), events[..n]), events[n]);
    }
  }

  /** In such a run a worker that created its manifest never loses the swap. */
  lemma WorkerNeverLoses(events: seq<Event>, pid: nat)
    requires AllLayoutOk(events) && forall i :: 0 <= i < |events| ==> IsWorkerEvent(events[i])
    ensures var s := Run(Init(), events);
            pid in s.procs && s.procs[pid].pc.Swap? ==>
              Run(Init(), events + [Act(pid)]).procs[pid].pc == Done(VersionOf(s.Head()))
  {
    WorkersCountUp(events);
    var s := Run(Init(), events);
    if pid in s.procs && s.procs[pid].pc.Swap? {
      WorkerSwapSucceeds(s, pid);
      assert (events + [Act(pid)])[..|events|] == events;
    }
  }
}
