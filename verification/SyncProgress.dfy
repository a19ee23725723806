/** That the reader's sync of src/adapters/s3_artifact_sync.rs gets somewhere: what one sync does in any state of the
    protocol when nobody else moves meanwhile and the store answers its list requests. */
module SyncProgress {
  import opened Wrappers
  import opened ObjectStore
  import opened StaticActivation
  import opened ArtifactSync

  /** The sync's next operation: its list requests are answered from `pages`. */
  ghost function Next(s: State, pid: nat, pages: int -> Listing): Event {
    if pid in s.syncs && s.syncs[pid].List? then Page(pid, pages(s.syncs[pid].token)) else Sync(pid)
  }

  /** `n` operations of the sync. */
  ghost function Steps(sha: string -> string, s: State, pid: nat, pages: int -> Listing, n: nat): State {
    if n == 0 then s
    else
      var before := Steps(sha, s, pid, pages, n - 1);
      Apply(sha, before, Next(before, pid, pages))
  }

  lemma {:induction false} StepsGoOn(sha: string -> string, s: State, pid: nat, pages: int -> Listing, n: nat, m: nat)
    ensures Steps(sha, Steps(sha, s, pid, pages, n), pid, pages, m) == Steps(sha, s, pid, pages, n + m)
  {
    hide Apply, Next;
    if m > 0 {
      StepsGoOn(sha, s, pid, pages, n, m - 1);
    }
  }

  lemma OneSync(sha: string -> string, s: State, pid: nat, pages: int -> Listing)
    ensures Steps(sha, s, pid, pages, 1) == Apply(sha, s, Next(s, pid, pages))
  {
    hide Apply, Next;
    assert Steps(sha, s, pid, pages, 0) == s;
  }

  /** `t` is `s` with the sync at `pc` and `staged` in its staging directory. */
  ghost predicate SyncsAt(s: State, t: State, pid: nat, pc: SyncPc, staged: Dir) {
    t == s.(syncs := s.syncs[pid := pc], local := s.local.(staging := s.local.staging[pid := staged]))
  }

  lemma DownloadOne(sha: string -> string, s: State, t: State, pid: nat, id: string, todo: seq<Name>, token: int,
      last: bool, staged: Dir)
    requires SyncsAt(s, t, pid, Download(id, todo, token, last), staged) && todo != []
    requires ReleaseObject(id, todo[0]) in s.objects
    ensures SyncsAt(s, Apply(sha, t, Sync(pid)), pid, Download(id, todo[1..], token, last),
        staged[todo[0] := s.objects[ReleaseObject(id, todo[0])]])
  {
    var t' := Apply(sha, t, Sync(pid));
    var pc' := Download(id, todo[1..], token, last);
    assert t'.syncs == s.syncs[pid := pc'];
    assert t'.local.staging == s.local.staging[pid := staged[todo[0] := s.objects[ReleaseObject(id, todo[0])]]];
  }

  lemma DownloadEnds(sha: string -> string, s: State, t: State, pid: nat, id: string, token: int, last: bool,
      staged: Dir)
    requires SyncsAt(s, t, pid, Download(id, [], token, last), staged)
    ensures SyncsAt(s, Apply(sha, t, Sync(pid)), pid, if last then Promote(id) else List(id, token), staged)
  {
    assert Apply(sha, t, Sync(pid)).syncs == s.syncs[pid := if last then Promote(id) else List(id, token)];
  }

  /** A page's objects are downloaded one by one. */
  lemma {:induction false} Downloads(sha: string -> string, s: State, t: State, pid: nat, id: string, todo: seq<Name>,
      token: int, last: bool, staged: Dir, pages: int -> Listing) returns (n: nat, after: Dir)
    requires SyncsAt(s, t, pid, Download(id, todo, token, last), staged)
    requires forall i :: 0 <= i < |todo| ==> todo[i] in Prefix(s.objects, id)
    ensures SyncsAt(s, Steps(sha, t, pid, pages, n), pid, if last then Promote(id) else List(id, token), after)
    ensures forall name :: name in after <==> name in staged || name in todo
    ensures forall name :: name in after ==>
        if name in todo then after[name] == Prefix(s.objects, id)[name] else after[name] == staged[name]
    decreases |todo|
  {
    hide Apply;
    OneSync(sha, t, pid, pages);
    assert t.syncs[pid] == Download(id, todo, token, last);
    if todo == [] {
      n, after := 1, staged;
      DownloadEnds(sha, s, t, pid, id, token, last, staged);
    } else {
      assert todo[0] in Prefix(s.objects, id);
      assert ReleaseObject(id, todo[0]) in s.objects;
      var blob := s.objects[ReleaseObject(id, todo[0])];
      DownloadOne(sha, s, t, pid, id, todo, token, last, staged);
      var m;
      m, after := Downloads(sha, s, Steps(sha, t, pid, pages, 1), pid, id, todo[1..], token, last,
          staged[todo[0] := blob],
          pages);
      StepsGoOn(sha, t, pid, pages, 1, m);
      n := 1 + m;
      assert todo == [todo[0]] + todo[1..];
    }
  }

  lemma PageArrives(sha: string -> string, s: State, t: State, pid: nat, id: string, token: int, staged: Dir,
      pages: int -> Listing)
    requires SyncsAt(s, t, pid, List(id, token), staged) && IsPage(Prefix(s.objects, id), token, pages(token))
    ensures SyncsAt(s, Steps(sha, t, pid, pages, 1), pid,
        Download(id, pages(token).names, pages(token).next, pages(token).last), staged)
  {
    hide IsPage, Prefix, Steps;
    OneSync(sha, t, pid, pages);
    assert t.syncs[pid] == List(id, token) && t.objects == s.objects;
    assert Steps(sha, t, pid, pages, 1).syncs
        == s.syncs[pid := Download(id, pages(token).names, pages(token).next, pages(token).last)];
  }

  /** Page after page, the whole release is staged. */
  lemma {:induction false} Lists(sha: string -> string, s: State, t: State, pid: nat, id: string, token: int,
      staged: Dir, pages: int -> Listing, end: int) returns (n: nat)
    requires ListsOf(Prefix(s.objects, id), pages, end)
    requires SyncsAt(s, t, pid, List(id, token), staged) && StagedUpTo(Prefix(s.objects, id), staged, token)
    ensures SyncsAt(s, Steps(sha, t, pid, pages, n), pid, Promote(id), Prefix(s.objects, id))
    decreases if token < end then end - token else 0
  {
    hide Steps, IsPage, StagedUpTo, SyncsAt;
    var dir, page := Prefix(s.objects, id), pages(token);
    assert IsPage(dir, token, page) && (page.last || token < page.next <= end);
    PageArrives(sha, s, t, pid, id, token, staged, pages);
    var u := Steps(sha, t, pid, pages, 1);
    PageIsStored(dir, token, page);
    var m, after := Downloads(sha, s, u, pid, id, page.names, page.next, page.last, staged, pages);
    StepsGoOn(sha, t, pid, pages, 1, m);
    n := 1 + m;
    StagedIsStored(dir, staged, token);
    PageStages(dir, token, page, staged, after);
    if !page.last {
      var rest := Lists(sha, s, Steps(sha, t, pid, pages, n), pid, id, page.next, after, pages, end);
      StepsGoOn(sha, t, pid, pages, n, rest);
      n := n + rest;
    }
  }

  lemma PageIsStored(dir: Dir, token: int, page: Listing)
    requires IsPage(dir, token, page)
    ensures forall i :: 0 <= i < |page.names| ==> page.names[i] in dir
  {
  }

  /** What the local directory becomes. */
  ghost predicate Planted(s: State, t: State, pid: nat, id: string, releases: map<string, Dir>) {
    && pid in t.syncs && t.syncs[pid].Synced? && t.local.head == Names(id) && t.local.releases == releases
    && t.objects == s.objects
  }

  lemma PlantSteps(sha: string -> string, t: State, pid: nat, id: string, pages: int -> Listing)
    requires pid in t.syncs && t.syncs[pid] == Truncate(id)
    ensures Planted(t, Steps(sha, t, pid, pages, 2), pid, id, t.local.releases)
  {
    hide Steps;
    OneSync(sha, t, pid, pages);
    var u := Steps(sha, t, pid, pages, 1);
    assert u == t.(local := t.local.(head := Torn), syncs := t.syncs[pid := Plant(id)]);
    OneSync(sha, u, pid, pages);
    StepsGoOn(sha, t, pid, pages, 1, 1);
  }

  lemma PromoteStep(sha: string -> string, s: State, t: State, pid: nat, id: string, staged: Dir, pages: int -> Listing)
    requires SyncsAt(s, t, pid, Promote(id), staged) && !Installed(s.local.releases, id)
    ensures
      var u := Steps(sha, t, pid, pages, 1);
      && pid in u.syncs && u.objects == s.objects && u.local.head == s.local.head
      && (if MANIFEST !in staged then u.syncs[pid].Abandoned? && u.local.releases == s.local.releases
          else if Free(s.local.releases, id)
          then u.syncs[pid] == Truncate(id) && u.local.releases == s.local.releases[id := staged]
          else u.syncs[pid] == Raced(id) && u.local.releases == s.local.releases)
  {
    hide Steps;
    OneSync(sha, t, pid, pages);
    assert t.syncs[pid] == Promote(id) && StagingOf(t, pid) == staged;
  }

  lemma RacedStep(sha: string -> string, u: State, pid: nat, id: string, pages: int -> Listing)
    requires pid in u.syncs && u.syncs[pid] == Raced(id) && !Installed(u.local.releases, id)
    ensures
      var t := Steps(sha, u, pid, pages, 1);
      pid in t.syncs && t.syncs[pid].Abandoned? && t.local == u.local && t.objects == u.objects
  {
    OneSync(sha, u, pid, pages);
  }

  lemma GateSteps(sha: string -> string, s: State, pid: nat, id: string, pages: int -> Listing)
    requires pid !in s.syncs && pid !in s.local.staging && s.Head() == Some(HeadDoc(id))
    ensures
      var t := Steps(sha, Apply(sha, s, StartSync(pid)), pid, pages, 2);
      if Installed(s.local.releases, id) then t == s.(syncs := s.syncs[pid := Truncate(id)])
      else SyncsAt(s, t, pid, List(id, -1), map[])
  {
    hide Steps;
    var t0 := Apply(sha, s, StartSync(pid));
    assert t0 == s.(syncs := s.syncs[pid := ReadRemoteHead]);
    OneSync(sha, t0, pid, pages);
    var t1 := Steps(sha, t0, pid, pages, 1);
    assert t1.syncs == s.syncs[pid := Gate(id)];
    assert t1 == s.(syncs := s.syncs[pid := Gate(id)]);
    OneSync(sha, t1, pid, pages);
    StepsGoOn(sha, t0, pid, pages, 1, 1);
    var t2 := Steps(sha, t1, pid, pages, 1);
    assert t2.syncs == s.syncs[pid := if Installed(s.local.releases, id) then Truncate(id) else List(id, -1)];
  }

  /** In any state, a sync that nobody disturbs ends with the local pointer naming the release the store's names
      exactly if that release is installed, or its manifest is stored and its name is free; the release is then
      installed as the store has it. Otherwise pointer and releases stay as they were. */
  lemma SyncsExactly(sha: string -> string, s: State, pid: nat, id: string, pages: int -> Listing, end: int)
      returns (n: nat)
    requires pid !in s.syncs && pid !in s.local.staging && s.Head() == Some(HeadDoc(id))
    requires ListsOf(Prefix(s.objects, id), pages, end)
    ensures
      var t := Steps(sha, Apply(sha, s, StartSync(pid)), pid, pages, n);
      && pid in t.syncs && t.objects == s.objects
      && if Installed(s.local.releases, id) || (MANIFEST in Prefix(s.objects, id) && Free(s.local.releases, id))
         then
           && t.syncs[pid].Synced? && t.local.head == Names(id)
           && t.local.releases == if Installed(s.local.releases, id) then s.local.releases
                                  else s.local.releases[id := Prefix(s.objects, id)]
         else t.syncs[pid].Abandoned? && t.local.head == s.local.head && t.local.releases == s.local.releases
  {
    hide Steps, Prefix, ListsOf, StagedUpTo;
    var start := Apply(sha, s, StartSync(pid));
    GateSteps(sha, s, pid, id, pages);
    var t := Steps(sha, start, pid, pages, 2);
    if Installed(s.local.releases, id) {
      n := 4;
      PlantSteps(sha, t, pid, id, pages);
      StepsGoOn(sha, start, pid, pages, 2, 2);
    } else {
      NothingStaged(Prefix(s.objects, id));
      var m := Lists(sha, s, t, pid, id, -1, map[], pages, end);
      StepsGoOn(sha, start, pid, pages, 2, m);
      var u := Steps(sha, t, pid, pages, m);
      PromoteStep(sha, s, u, pid, id, Prefix(s.objects, id), pages);
      StepsGoOn(sha, start, pid, pages, 2 + m, 1);
      var v := Steps(sha, u, pid, pages, 1);
      n := 3 + m;
      if v.syncs[pid].Truncate? {
        PlantSteps(sha, v, pid, id, pages);
        StepsGoOn(sha, start, pid, pages, 3 + m, 2);
        n := 5 + m;
      } else if v.syncs[pid].Raced? {
        RacedStep(sha, v, pid, id, pages);
        StepsGoOn(sha, start, pid, pages, 3 + m, 1);
        n := 4 + m;
      }
    }
  }

  /** With no pointer in the store, or a malformed one, a sync changes nothing local. */
  lemma NothingToSync(sha: string -> string, s: State, pid: nat, pages: int -> Listing)
    requires pid !in s.syncs && pid !in s.local.staging && (s.Head().None? || !s.Head().value.HeadDoc?)
    ensures
      var t := Steps(sha, Apply(sha, s, StartSync(pid)), pid, pages, 1);
      && pid in t.syncs && t.local == s.local && t.objects == s.objects
      && (if s.Head().None? then t.syncs[pid].Synced? else t.syncs[pid].Abandoned?)
  {
    OneSync(sha, Apply(sha, s, StartSync(pid)), pid, pages);
  }

  /** A sync starts only under a process id and a staging name nobody uses, and stops wherever it is: abandoned, with or
      without its staging directory, and nothing else has changed. */
  lemma StartsAndStops(sha: string -> string, s: State, pid: nat, cleanup: bool)
    ensures
      var t := Apply(sha, s, StartSync(pid));
      if pid in s.syncs || pid in s.local.staging then t == s else t == s.(syncs := s.syncs[pid := ReadRemoteHead])
    ensures
      var t := Apply(sha, s, StopSync(pid, cleanup));
      && t.objects == s.objects && t.local.releases == s.local.releases && t.local.head == s.local.head
      && (pid in s.syncs ==> t.syncs == s.syncs[pid := Abandoned])
      && (pid in s.syncs ==> t.local.staging == if cleanup then s.local.staging - {pid} else s.local.staging)
      && (pid !in s.syncs ==> t == s)
  {
  }
}
