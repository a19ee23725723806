/** Static release activation (src/bin/static_activate.rs, activate_static_pointer in
    src/indexing/static_publisher.rs) and the reader's sync (src/adapters/s3_artifact_sync.rs),
    composed. Any number of activators and of concurrent syncs on one machine share one bucket;
    each event is one store or filesystem operation and any process may stop anywhere. */
module StaticActivation {
  import opened Wrappers
  import opened ObjectStore

  /** A file name, by its position in the store's lexicographic listing order. */
  type Name = nat

  /** `release_manifest.json` lists between the asset files and the image files. */
  const MANIFEST: Name := 4

  datatype Key = StaticHead | ReleaseObject(id: string, name: Name)

  datatype Output = Output(name: Name, size: nat, sha256: string)

  /** `source` is not part of what the id is derived from. */
  datatype Manifest = Manifest(id: string, outputs: seq<Output>, source: string)

  datatype Blob = HeadDoc(id: string) | ManifestDoc(manifest: Manifest) | Bin(bytes: string) | Malformed

  type Dir = map<Name, Blob>

  /** The file has the size and the sha256 its manifest entry states. */
  predicate Matches(sha: string -> string, o: Output, blob: Blob) {
    blob.Bin? && |blob.bytes| == o.size && sha(blob.bytes) == o.sha256
  }

  /** A directory with a manifest for `id` and every file it lists, intact. */
  ghost predicate CompleteDir(sha: string -> string, dir: Dir, id: string) {
    && MANIFEST in dir && dir[MANIFEST].ManifestDoc? && dir[MANIFEST].manifest.id == id
    && forall i :: 0 <= i < |dir[MANIFEST].manifest.outputs| ==> OutputIn(sha, dir, dir[MANIFEST].manifest.outputs[i])
  }

  ghost predicate OutputIn(sha: string -> string, dir: Dir, o: Output) {
    o.name in dir && Matches(sha, o, dir[o.name])
  }

  /** The objects under `static/releases/<id>/`. */
  function Prefix(objects: map<Key, Blob>, id: string): Dir {
    map k | k in objects && k.ReleaseObject? && k.id == id :: k.name := objects[k]
  }

  /** What `verify_release_dir` establishes about the local directory: it is complete for its manifest's id,
      and no listed output is the manifest itself. */
  ghost predicate Verified(sha: string -> string, dir: Dir) {
    && MANIFEST in dir && dir[MANIFEST].ManifestDoc?
    && CompleteDir(sha, dir, dir[MANIFEST].manifest.id)
    && forall i :: 0 <= i < |dir[MANIFEST].manifest.outputs| ==> dir[MANIFEST].manifest.outputs[i].name != MANIFEST
  }

  datatype ActPc =
    | Upload(next: nat)              // about to create file `next`, or the manifest after the last
    | CheckFile(next: nat)           // a create-only conflict: about to read the object back
    | CheckManifest
    | ReadHead
    | Swap(head: Option<Blob>)
    | Activated
    | Rejected

  /** An activator of a verified local directory. */
  datatype Activator = Activator(dir: Dir, pc: ActPc) {
    function Id(): string
      requires MANIFEST in dir && dir[MANIFEST].ManifestDoc?
    {
      dir[MANIFEST].manifest.id
    }

    function Outputs(): seq<Output>
      requires MANIFEST in dir && dir[MANIFEST].ManifestDoc?
    {
      dir[MANIFEST].manifest.outputs
    }
  }

  datatype SyncPc =
    | ReadRemoteHead
    | Gate(id: string)                                           // is the release's manifest already local?
    | List(id: string, token: int)                               // about to list the page after `token`
    | Download(id: string, todo: seq<Name>, token: int, last: bool)
    | Promote(id: string)                                        // about to check and rename the staging directory
    | Raced(id: string)                                          // the rename failed: did someone else promote?
    | Truncate(id: string)                                       // about to open `static/_head` for writing
    | Plant(id: string)
    | Synced
    | Abandoned

  /** A local head being rewritten names nothing. */
  datatype LocalHead = NoHead | Torn | Names(id: string)

  /** `staging` is keyed by the one sync that owns each directory. */
  datatype Local = Local(head: LocalHead, releases: map<string, Dir>, staging: map<nat, Dir>)

  datatype State = State(objects: map<Key, Blob>, acts: map<nat, Activator>, syncs: map<nat, SyncPc>, local: Local) {
    function Head(): Option<Blob> {
      Get(objects, StaticHead)
    }
  }

  /** One list response: its names, the token to go on after, and whether none remain. */
  datatype Listing = Listing(names: seq<Name>, next: int, last: bool)

  datatype Event =
    | Activate(pid: nat, dir: Dir)                       // starts on a directory that passed verification
    | Act(pid: nat)
    | StopAct(pid: nat)
    | StartSync(pid: nat)
    | Sync(pid: nat)
    | Page(pid: nat, listing: Listing)                   // the store's answer to a list request
    | StopSync(pid: nat, cleanup: bool)                  // an error (which removes its staging directory) or a crash

  // ----- one operation of an activator -----

  function GotoAct(s: State, pid: nat, pc: ActPc): State
    requires pid in s.acts
  {
    s.(acts := s.acts[pid := s.acts[pid].(pc := pc)])
  }

  function StepAct(sha: string -> string, s: State, pid: nat): State
    requires pid in s.acts
  {
    var a := s.acts[pid];
    if MANIFEST !in a.dir || !a.dir[MANIFEST].ManifestDoc? then s
    else
      match a.pc
      case Upload(next) =>
        if next < |a.Outputs()| then
          var name := a.Outputs()[next].name;
          if name !in a.dir then GotoAct(s, pid, Rejected)
          else
            (match PutIfAbsent(s.objects, ReleaseObject(a.Id(), name), a.dir[name])
             case Some(objects) => GotoAct(s.(objects := objects), pid, Upload(next + 1))
             case None => GotoAct(s, pid, CheckFile(next)))
        else
          (match PutIfAbsent(s.objects, ReleaseObject(a.Id(), MANIFEST), a.dir[MANIFEST])
           case Some(objects) => GotoAct(s.(objects := objects), pid, ReadHead)
           case None => GotoAct(s, pid, CheckManifest))
      case CheckFile(next) =>
        if next >= |a.Outputs()| then GotoAct(s, pid, Rejected)
        else
          var stored := Get(s.objects, ReleaseObject(a.Id(), a.Outputs()[next].name));
          GotoAct(s, pid, if stored.Some? && Matches(sha, a.Outputs()[next], stored.value) then Upload(next + 1)
              else Rejected)
      case CheckManifest =>
        GotoAct(s, pid, if Get(s.objects, ReleaseObject(a.Id(), MANIFEST)) == Some(a.dir[MANIFEST]) then ReadHead
            else Rejected)
      case ReadHead =>
        GotoAct(s, pid, if s.Head().Some? && !s.Head().value.HeadDoc? then Rejected else Swap(s.Head()))
      case Swap(head) =>
        (match CompareAndSwap(s.objects, StaticHead, TagOf(head), HeadDoc(a.Id()))
         case Some(objects) => GotoAct(s.(objects := objects), pid, Activated)
         case None => GotoAct(s, pid, Rejected))
      case _ => s
  }

  // ----- one operation of a sync -----

  function GotoSync(s: State, pid: nat, pc: SyncPc): State {
    s.(syncs := s.syncs[pid := pc])
  }

  function RemoveStaging(s: State, pid: nat): State {
    s.(local := s.local.(staging := s.local.staging - {pid}))
  }

  function StagingOf(s: State, pid: nat): Dir {
    if pid in s.local.staging then s.local.staging[pid] else map[]
  }

  /** The cache gate: a release whose manifest is local is not pulled again. */
  function StepGate(s: State, pid: nat, id: string): State {
    if id in s.local.releases && MANIFEST in s.local.releases[id] then GotoSync(s, pid, Truncate(id))
    else GotoSync(s.(local := s.local.(staging := s.local.staging[pid := map[]])), pid, List(id, -1))
  }

  function StepDownload(s: State, pid: nat, id: string, todo: seq<Name>, token: int, last: bool): State {
    if todo == [] then GotoSync(s, pid, if last then Promote(id) else List(id, token))
    else
      match Get(s.objects, ReleaseObject(id, todo[0]))
      case None => GotoSync(RemoveStaging(s, pid), pid, Abandoned)
      case Some(blob) =>
        GotoSync(s.(local := s.local.(staging := s.local.staging[pid := StagingOf(s, pid)[todo[0] := blob]])), pid,
                 Download(id, todo[1..], token, last))
  }

  /** The rename succeeds only where no directory, or an empty one, stands. */
  function StepPromote(s: State, pid: nat, id: string): State {
    if MANIFEST !in StagingOf(s, pid) then GotoSync(RemoveStaging(s, pid), pid, Abandoned)
    else if id in s.local.releases && s.local.releases[id] != map[] then GotoSync(s, pid, Raced(id))
    else
      GotoSync(RemoveStaging(s.(local := s.local.(releases := s.local.releases[id := StagingOf(s, pid)])), pid), pid,
          Truncate(id))
  }

  function StepRaced(s: State, pid: nat, id: string): State {
    if id in s.local.releases && MANIFEST in s.local.releases[id]
        then GotoSync(RemoveStaging(s, pid), pid, Truncate(id))
    else GotoSync(s, pid, Abandoned)
  }

  function StepSync(s: State, pid: nat): (s': State)
    requires pid in s.syncs
    ensures pid in s'.syncs
  {
    match s.syncs[pid]
    case ReadRemoteHead =>
      (match s.Head()
       case None => GotoSync(s, pid, Synced)
       case Some(head) => GotoSync(s, pid, if head.HeadDoc? then Gate(head.id) else Abandoned))
    case Gate(id) => StepGate(s, pid, id)
    case Download(id, todo, token, last) => StepDownload(s, pid, id, todo, token, last)
    case Promote(id) => StepPromote(s, pid, id)
    case Raced(id) => StepRaced(s, pid, id)
    case Truncate(id) => GotoSync(s.(local := s.local.(head := Torn)), pid, Plant(id))
    case Plant(id) => GotoSync(s.(local := s.local.(head := Names(id))), pid, Synced)
    case _ => s
  }

  /** The names in order after `token`, up to the token to go on after if more remain; a page may be empty. */
  ghost predicate IsPage(dir: Dir, token: int, page: Listing) {
    && (forall i :: 0 <= i < |page.names| ==>
        page.names[i] in dir && token < page.names[i] && (page.last || page.names[i] <= page.next))
    && (forall i, j :: 0 <= i < j < |page.names| ==> page.names[i] < page.names[j])
    && (forall n :: n in dir && token < n && (page.last || n <= page.next) ==> n in page.names)
  }

  ghost function Apply(sha: string -> string, s: State, e: Event): State {
    match e
    case Activate(pid, dir) =>
      if pid in s.acts || !Verified(sha, dir) then s else s.(acts := s.acts[pid := Activator(dir, Upload(0))])
    case Act(pid) => if pid in s.acts then StepAct(sha, s, pid) else s
    case StopAct(pid) => if pid in s.acts then GotoAct(s, pid, Rejected) else s
    case StartSync(pid) => if pid in s.syncs || pid in s.local.staging then s else GotoSync(s, pid, ReadRemoteHead)
    case Sync(pid) => if pid in s.syncs then StepSync(s, pid) else s
    case Page(pid, page) =>
      if pid in s.syncs && s.syncs[pid].List? && IsPage(Prefix(s.objects, s.syncs[pid].id), s.syncs[pid].token, page)
      then GotoSync(s, pid, Download(s.syncs[pid].id, page.names, page.next, page.last))
      else s
    case StopSync(pid, cleanup) =>
      if pid in s.syncs then GotoSync(if cleanup then RemoveStaging(s, pid) else s, pid, Abandoned) else s
  }

  ghost function Run(sha: string -> string, s: State, events: seq<Event>): State {
    if events == [] then s else Apply(sha, Run(sha, s, events[..|events| - 1]), events[|events| - 1])
  }

  // ----- what every step keeps -----

  /** The first `n` files the activator lists are stored intact, whoever put them there. */
  ghost predicate Uploaded(sha: string -> string, s: State, a: Activator, n: nat) {
    && Verified(sha, a.dir) && n <= |a.Outputs()|
    && forall i :: 0 <= i < n ==> OutputIn(sha, Prefix(s.objects, a.Id()), a.Outputs()[i])
  }

  ghost predicate ActOk(sha: string -> string, s: State, a: Activator) {
    match a.pc
    case Upload(next) => Uploaded(sha, s, a, next)
    case CheckFile(next) => Uploaded(sha, s, a, next) && next < |a.Outputs()|
    case CheckManifest => Verified(sha, a.dir) && Uploaded(sha, s, a, |a.Outputs()|)
    case ReadHead => Verified(sha, a.dir) && CompleteDir(sha, Prefix(s.objects, a.Id()), a.Id())
    case Swap(_) => Verified(sha, a.dir) && CompleteDir(sha, Prefix(s.objects, a.Id()), a.Id())
    case _ => true
  }

  /** Everything staged is the store's, and every stored name up to `token` is staged or about to be. */
  ghost predicate Staged(s: State, pid: nat, id: string, todo: seq<Name>, token: int, all: bool) {
    && (forall n :: n in StagingOf(s, pid) ==>
        ReleaseObject(id, n) in s.objects && s.objects[ReleaseObject(id, n)] == StagingOf(s, pid)[n])
    && (forall n: Name :: Needed(s, id, n) && (all || n <= token) ==> n in StagingOf(s, pid) || n in todo)
  }

  /** The manifest of `id` and the outputs it lists. */
  ghost predicate Needed(s: State, id: string, n: Name) {
    var dir := Prefix(s.objects, id);
    MANIFEST in dir && dir[MANIFEST].ManifestDoc?
    && (n == MANIFEST ||
        exists i :: 0 <= i < |dir[MANIFEST].manifest.outputs| && dir[MANIFEST].manifest.outputs[i].name == n)
  }

  ghost predicate SyncOk(sha: string -> string, s: State, pid: nat, pc: SyncPc) {
    match pc
    case Gate(id) => CompleteDir(sha, Prefix(s.objects, id), id)
    case List(id, token) => CompleteDir(sha, Prefix(s.objects, id), id) && Staged(s, pid, id, [], token, false)
    case Download(id, todo, token, last) => CompleteDir(sha, Prefix(s.objects, id), id) &&
        Staged(s, pid, id, todo, token, last)
    case Promote(id) => CompleteDir(sha, Prefix(s.objects, id), id) && Staged(s, pid, id, [], 0, true)
    case Raced(id) => CompleteDir(sha, Prefix(s.objects, id), id)
    case Truncate(id) => id in s.local.releases && CompleteDir(sha, s.local.releases[id], id)
    case Plant(id) => id in s.local.releases && CompleteDir(sha, s.local.releases[id], id)
    case _ => true
  }

  /** A local release directory with a manifest is complete; without one it is residue nothing names. */
  ghost predicate LocalOk(sha: string -> string, local: Local) {
    && (forall id :: id in local.releases && MANIFEST in local.releases[id] ==>
        CompleteDir(sha, local.releases[id], id))
    && (local.head.Names? ==>
        local.head.id in local.releases && CompleteDir(sha, local.releases[local.head.id], local.head.id))
  }

  ghost predicate RemoteOk(sha: string -> string, s: State) {
    s.Head().Some? && s.Head().value.HeadDoc? ==>
        CompleteDir(sha, Prefix(s.objects, s.Head().value.id), s.Head().value.id)
  }

  ghost predicate Inv(sha: string -> string, s: State) {
    && RemoteOk(sha, s) && LocalOk(sha, s.local)
    && (forall pid :: pid in s.acts ==> ActOk(sha, s, s.acts[pid]))
    && (forall pid :: pid in s.syncs ==> SyncOk(sha, s, pid, s.syncs[pid]))
  }

  /** A complete local release stays as it is. */
  ghost predicate KeepsComplete(local: Local, local': Local) {
    forall id :: id in local.releases && local.releases[id] != map[] ==>
        id in local'.releases && local'.releases[id] == local.releases[id]
  }

  /** Release objects are never rewritten. */
  ghost predicate Extends(s: State, s': State) {
    Grows(s.objects, s'.objects, StaticHead) && KeepsComplete(s.local, s'.local)
  }

  lemma PrefixGrows(s: State, s': State, id: string)
    requires Grows(s.objects, s'.objects, StaticHead)
    ensures forall n :: n in Prefix(s.objects, id) ==>
        n in Prefix(s'.objects, id) && Prefix(s'.objects, id)[n] == Prefix(s.objects, id)[n]
  {
    forall n | n in Prefix(s.objects, id)
      ensures n in Prefix(s'.objects, id) && Prefix(s'.objects, id)[n] == Prefix(s.objects, id)[n]
    {
      assert ReleaseObject(id, n) in s'.objects;
    }
  }

  /** What a directory holds intact, a larger directory holds intact. */
  lemma CompleteGrows(sha: string -> string, dir: Dir, dir': Dir, id: string)
    requires CompleteDir(sha, dir, id) && forall n :: n in dir ==> n in dir' && dir'[n] == dir[n]
    ensures CompleteDir(sha, dir', id)
  {
    forall i | 0 <= i < |dir'[MANIFEST].manifest.outputs|
      ensures OutputIn(sha, dir', dir'[MANIFEST].manifest.outputs[i])
    {
      assert OutputIn(sha, dir, dir[MANIFEST].manifest.outputs[i]);
    }
  }

  lemma CompleteKept(sha: string -> string, s: State, s': State, id: string)
    requires Grows(s.objects, s'.objects, StaticHead) && CompleteDir(sha, Prefix(s.objects, id), id)
    ensures CompleteDir(sha, Prefix(s'.objects, id), id)
  {
    PrefixGrows(s, s', id);
    CompleteGrows(sha, Prefix(s.objects, id), Prefix(s'.objects, id), id);
  }

  lemma UploadedKept(sha: string -> string, s: State, s': State, a: Activator, n: nat)
    requires Grows(s.objects, s'.objects, StaticHead) && Uploaded(sha, s, a, n)
    ensures Uploaded(sha, s', a, n)
  {
    PrefixGrows(s, s', a.Id());
    forall i | 0 <= i < n
      ensures OutputIn(sha, Prefix(s'.objects, a.Id()), a.Outputs()[i])
    {
      assert OutputIn(sha, Prefix(s.objects, a.Id()), a.Outputs()[i]);
    }
  }

  lemma ActKept(sha: string -> string, s: State, s': State, a: Activator)
    requires Grows(s.objects, s'.objects, StaticHead) && ActOk(sha, s, a)
    ensures ActOk(sha, s', a)
  {
    hide Uploaded, CompleteDir, Prefix;
    match a.pc
    case Upload(next) => UploadedKept(sha, s, s', a, next);
    case CheckFile(next) => UploadedKept(sha, s, s', a, next);
    case CheckManifest => UploadedKept(sha, s, s', a, |a.Outputs()|);
    case ReadHead => CompleteKept(sha, s, s', a.Id());
    case Swap(_) => CompleteKept(sha, s, s', a.Id());
    case _ =>
  }

  lemma StagedKept(sha: string -> string, s: State, s': State, pid: nat, id: string, todo: seq<Name>, token: int,
      all: bool)
    requires Grows(s.objects, s'.objects, StaticHead) && StagingOf(s', pid) == StagingOf(s, pid)
    requires CompleteDir(sha, Prefix(s.objects, id), id) && Staged(s, pid, id, todo, token, all)
    ensures Staged(s', pid, id, todo, token, all)
  {
    PrefixGrows(s, s', id);
    forall n: Name | Needed(s', id, n)
      ensures Needed(s, id, n)
    {
    }
  }

  lemma SyncKept(sha: string -> string, s: State, s': State, pid: nat, pc: SyncPc)
    requires Extends(s, s') && StagingOf(s', pid) == StagingOf(s, pid) && SyncOk(sha, s, pid, pc)
    ensures SyncOk(sha, s', pid, pc)
  {
    hide CompleteDir, Prefix, Staged, StagingOf;
    match pc
    case Gate(id) => CompleteKept(sha, s, s', id);
    case List(id, token) => CompleteKept(sha, s, s', id); StagedKept(sha, s, s', pid, id, [], token, false);
    case Download(id, todo, token, last) => CompleteKept(sha, s, s', id);
        StagedKept(sha, s, s', pid, id, todo, token, last);
    case Promote(id) => CompleteKept(sha, s, s', id); StagedKept(sha, s, s', pid, id, [], 0, true);
    case Raced(id) => CompleteKept(sha, s, s', id);
    case Truncate(id) => CompleteIsNotEmpty(sha, s.local.releases[id], id);
    case Plant(id) => CompleteIsNotEmpty(sha, s.local.releases[id], id);
    case _ =>
  }

  lemma CompleteIsNotEmpty(sha: string -> string, dir: Dir, id: string)
    requires CompleteDir(sha, dir, id)
    ensures dir != map[]
  {
  }

  // ----- activators -----

  /** Creating or checking one listed file leaves it stored intact. */
  lemma NextUploaded(sha: string -> string, s: State, s': State, a: Activator, n: nat)
    requires Uploaded(sha, s, a, n) && n < |a.Outputs()| && Grows(s.objects, s'.objects, StaticHead)
    requires OutputIn(sha, Prefix(s'.objects, a.Id()), a.Outputs()[n])
    ensures Uploaded(sha, s', a, n + 1)
  {
    UploadedKept(sha, s, s', a, n);
  }

  /** Manifest last: once it is stored with the local bytes, the stored release is complete. */
  lemma ManifestCompletes(sha: string -> string, s: State, a: Activator)
    requires Verified(sha, a.dir) && Uploaded(sha, s, a, |a.Outputs()|)
    requires Get(s.objects, ReleaseObject(a.Id(), MANIFEST)) == Some(a.dir[MANIFEST])
    ensures CompleteDir(sha, Prefix(s.objects, a.Id()), a.Id())
  {
  }

  lemma StepUploadOk(sha: string -> string, s: State, pid: nat, next: nat)
    requires pid in s.acts && ActOk(sha, s, s.acts[pid]) && s.acts[pid].pc == Upload(next)
    ensures var s' := StepAct(sha, s, pid);
            Grows(s.objects, s'.objects, StaticHead) && s'.Head() == s.Head() && ActOk(sha, s', s'.acts[pid])
  {
    hide CompleteDir;
    var a, s' := s.acts[pid], StepAct(sha, s, pid);
    if next < |a.Outputs()| {
      VerifiedOutput(sha, a.dir, next);
      var name := a.Outputs()[next].name;
      if ReleaseObject(a.Id(), name) !in s.objects {
        assert s'.objects[ReleaseObject(a.Id(), name)] == a.dir[name];
        NextUploaded(sha, s, s', a, next);
      }
    } else if ReleaseObject(a.Id(), MANIFEST) !in s.objects {
      UploadedKept(sha, s, s', a, next);
      ManifestCompletes(sha, s', a);
    }
  }

  lemma VerifiedOutput(sha: string -> string, dir: Dir, i: nat)
    requires Verified(sha, dir) && i < |dir[MANIFEST].manifest.outputs|
    ensures OutputIn(sha, dir, dir[MANIFEST].manifest.outputs[i])
  {
  }

  lemma StepCheckOk(sha: string -> string, s: State, pid: nat)
    requires pid in s.acts && ActOk(sha, s, s.acts[pid]) && (s.acts[pid].pc.CheckFile? || s.acts[pid].pc.CheckManifest?)
    ensures var s' := StepAct(sha, s, pid); s'.objects == s.objects && ActOk(sha, s', s'.acts[pid])
  {
    hide CompleteDir;
    var a, s' := s.acts[pid], StepAct(sha, s, pid);
    match a.pc
    case CheckFile(next) => if s'.acts[pid].pc == Upload(next + 1) { NextUploaded(sha, s, s', a, next); }
    case CheckManifest => if s'.acts[pid].pc.ReadHead? { ManifestCompletes(sha, s, a); }
    case _ =>
  }

  /** The head is as it was, or names a release that was already complete. */
  ghost predicate HeadOk(sha: string -> string, s: State, s': State) {
    s'.Head() == s.Head()
    || (s'.Head().Some? && s'.Head().value.HeadDoc? &&
        CompleteDir(sha, Prefix(s.objects, s'.Head().value.id), s'.Head().value.id))
  }

  /** What one operation of an activator does to the store, and where it leaves the activator. */
  lemma StepActOk(sha: string -> string, s: State, pid: nat)
    requires pid in s.acts && ActOk(sha, s, s.acts[pid])
    ensures var s' := StepAct(sha, s, pid);
            && Grows(s.objects, s'.objects, StaticHead) && HeadOk(sha, s, s')
            && pid in s'.acts && ActOk(sha, s', s'.acts[pid])
  {
    hide Uploaded, CompleteDir, Prefix, Verified, Matches;
    var a := s.acts[pid];
    match a.pc
    case Upload(next) => StepUploadOk(sha, s, pid, next);
    case CheckFile(_) => StepCheckOk(sha, s, pid);
    case CheckManifest => StepCheckOk(sha, s, pid);
    case _ =>
  }

  lemma StepActFrame(sha: string -> string, s: State, pid: nat)
    requires pid in s.acts
    ensures var s' := StepAct(sha, s, pid);
            && s'.syncs == s.syncs && s'.local == s.local && s'.acts.Keys == s.acts.Keys
            && forall q :: q in s.acts && q != pid ==> s'.acts[q] == s.acts[q]
  {
  }

  lemma StepActKeepsInv(sha: string -> string, s: State, pid: nat)
    requires Inv(sha, s) && pid in s.acts
    ensures Inv(sha, StepAct(sha, s, pid)) && Extends(s, StepAct(sha, s, pid))
  {
    hide StepAct, SyncOk, LocalOk, ActOk;
    var s' := StepAct(sha, s, pid);
    StepActOk(sha, s, pid);
    StepActFrame(sha, s, pid);
    forall q | q in s'.acts
      ensures ActOk(sha, s', s'.acts[q])
    {
      if q != pid {
        ActKept(sha, s, s', s.acts[q]);
      }
    }
    forall q | q in s'.syncs
      ensures SyncOk(sha, s', q, s'.syncs[q])
    {
      SyncKept(sha, s, s', q, s.syncs[q]);
    }
    RemoteKept(sha, s, s');
  }

  lemma RemoteKept(sha: string -> string, s: State, s': State)
    requires RemoteOk(sha, s) && Grows(s.objects, s'.objects, StaticHead)
    requires HeadOk(sha, s, s')
    ensures RemoteOk(sha, s')
  {
    if s'.Head().Some? && s'.Head().value.HeadDoc? {
      CompleteKept(sha, s, s', s'.Head().value.id);
    }
  }

  // ----- syncs -----

  /** Everything needed is staged with the store's bytes, so the staging directory is a complete release. */
  lemma StagingComplete(sha: string -> string, s: State, pid: nat, id: string)
    requires CompleteDir(sha, Prefix(s.objects, id), id) && Staged(s, pid, id, [], 0, true)
    ensures CompleteDir(sha, StagingOf(s, pid), id)
  {
    var dir, staged := Prefix(s.objects, id), StagingOf(s, pid);
    assert Needed(s, id, MANIFEST);
    assert ReleaseObject(id, MANIFEST) in s.objects;
    assert staged[MANIFEST] == dir[MANIFEST];
    forall i | 0 <= i < |dir[MANIFEST].manifest.outputs|
      ensures OutputIn(sha, staged, dir[MANIFEST].manifest.outputs[i])
    {
      var o := dir[MANIFEST].manifest.outputs[i];
      assert OutputIn(sha, dir, o);
      assert Needed(s, id, o.name);
      assert ReleaseObject(id, o.name) in s.objects;
    }
  }

  /** A page's names join the staged ones: nothing needed up to the new token is missed. */
  lemma PageKeepsStaged(sha: string -> string, s: State, s': State, pid: nat, id: string, token: int, page: Listing)
    requires CompleteDir(sha, Prefix(s.objects, id), id) && Staged(s, pid, id, [], token, false)
    requires IsPage(Prefix(s.objects, id), token, page)
    requires s'.objects == s.objects && StagingOf(s', pid) == StagingOf(s, pid)
    ensures Staged(s', pid, id, page.names, page.next, page.last)
  {
    forall n: Name | Needed(s', id, n) && (page.last || n <= page.next)
      ensures n in StagingOf(s', pid) || n in page.names
    {
      assert Needed(s, id, n);
      NeededIsStored(sha, s, id, n);
    }
  }

  lemma NeededIsStored(sha: string -> string, s: State, id: string, n: Name)
    requires CompleteDir(sha, Prefix(s.objects, id), id) && Needed(s, id, n)
    ensures n in Prefix(s.objects, id)
  {
    var dir := Prefix(s.objects, id);
    if n != MANIFEST {
      var i :| 0 <= i < |dir[MANIFEST].manifest.outputs| && dir[MANIFEST].manifest.outputs[i].name == n;
      assert OutputIn(sha, dir, dir[MANIFEST].manifest.outputs[i]);
    }
  }

  /** One downloaded object moves from the page to the staging directory. */
  lemma DownloadKeepsStaged(s: State, s': State, pid: nat, id: string, todo: seq<Name>, token: int, all: bool)
    requires Staged(s, pid, id, todo, token, all) && todo != [] && ReleaseObject(id, todo[0]) in s.objects
    requires s'.objects == s.objects
    requires StagingOf(s', pid) == StagingOf(s, pid)[todo[0] := s.objects[ReleaseObject(id, todo[0])]]
    ensures Staged(s', pid, id, todo[1..], token, all)
  {
    forall n: Name | Needed(s', id, n) && (all || n <= token)
      ensures n in StagingOf(s', pid) || n in todo[1..]
    {
      assert Needed(s, id, n);
      assert todo == [todo[0]] + todo[1..];
    }
  }

  /** What one operation of a sync may change: its own staging directory, an unclaimed release directory, the head. */
  ghost predicate SyncFrame(s: State, s': State, pid: nat) {
    && s'.objects == s.objects && s'.acts == s.acts && KeepsComplete(s.local, s'.local)
    && (forall q :: q in s'.syncs && q != pid ==> q in s.syncs && s'.syncs[q] == s.syncs[q])
    && (forall q :: q != pid ==> StagingOf(s', q) == StagingOf(s, q))
  }

  lemma OthersKeepInv(sha: string -> string, s: State, s': State, pid: nat)
    requires Inv(sha, s) && SyncFrame(s, s', pid) && LocalOk(sha, s'.local)
    requires pid in s'.syncs ==> SyncOk(sha, s', pid, s'.syncs[pid])
    ensures Inv(sha, s') && Extends(s, s')
  {
    hide SyncOk, LocalOk, ActOk, StagingOf;
    forall q | q in s'.acts
      ensures ActOk(sha, s', s'.acts[q])
    {
      ActKept(sha, s, s', s.acts[q]);
    }
    forall q | q in s'.syncs
      ensures SyncOk(sha, s', q, s'.syncs[q])
    {
      if q != pid {
        SyncKept(sha, s, s', q, s.syncs[q]);
      }
    }
    RemoteKept(sha, s, s');
  }

  lemma GateFrame(s: State, pid: nat, id: string)
    ensures SyncFrame(s, StepGate(s, pid, id), pid)
  {
  }

  lemma StagedOneFrame(s: State, pid: nat, name: Name, blob: Blob, pc: SyncPc)
    ensures var local := s.local.(staging := s.local.staging[pid := StagingOf(s, pid)[name := blob]]);
            SyncFrame(s, GotoSync(s.(local := local), pid, pc), pid)
  {
  }

  lemma CleanedUpFrame(s: State, pid: nat, pc: SyncPc)
    ensures SyncFrame(s, GotoSync(RemoveStaging(s, pid), pid, pc), pid) && SyncFrame(s, GotoSync(s, pid, pc), pid)
  {
  }

  lemma DownloadFrame(s: State, pid: nat, id: string, todo: seq<Name>, token: int, last: bool)
    ensures SyncFrame(s, StepDownload(s, pid, id, todo, token, last), pid)
  {
    hide SyncFrame, GotoSync, RemoveStaging;
    if todo == [] {
      CleanedUpFrame(s, pid, if last then Promote(id) else List(id, token));
    } else if ReleaseObject(id, todo[0]) in s.objects {
      StagedOneFrame(s, pid, todo[0], s.objects[ReleaseObject(id, todo[0])], Download(id, todo[1..], token, last));
    } else {
      CleanedUpFrame(s, pid, Abandoned);
    }
  }

  lemma PromoteFrame(s: State, pid: nat, id: string)
    ensures SyncFrame(s, StepPromote(s, pid, id), pid)
  {
    hide SyncFrame, GotoSync, RemoveStaging, StagingOf;
    CleanedUpFrame(s, pid, Abandoned);
    CleanedUpFrame(s, pid, Raced(id));
    if id !in s.local.releases || s.local.releases[id] == map[] {
      PromotedFrame(s, pid, id, StagingOf(s, pid), Truncate(id));
    }
  }

  lemma PromotedFrame(s: State, pid: nat, id: string, dir: Dir, pc: SyncPc)
    requires id !in s.local.releases || s.local.releases[id] == map[]
    ensures SyncFrame(s,
        GotoSync(RemoveStaging(s.(local := s.local.(releases := s.local.releases[id := dir])), pid), pid, pc), pid)
  {
  }

  lemma RacedFrame(s: State, pid: nat, id: string)
    ensures SyncFrame(s, StepRaced(s, pid, id), pid)
  {
    hide SyncFrame, GotoSync, RemoveStaging;
    CleanedUpFrame(s, pid, Truncate(id));
    CleanedUpFrame(s, pid, Abandoned);
  }

  lemma StepSyncFrame(s: State, pid: nat)
    requires pid in s.syncs
    ensures SyncFrame(s, StepSync(s, pid), pid)
  {
    hide StepGate, StepDownload, StepPromote, StepRaced;
    match s.syncs[pid]
    case Gate(id) => GateFrame(s, pid, id);
    case Download(id, todo, token, last) => DownloadFrame(s, pid, id, todo, token, last);
    case Promote(id) => PromoteFrame(s, pid, id);
    case Raced(id) => RacedFrame(s, pid, id);
    case _ =>
  }

  /** The local directories and head after one operation of a sync. */
  lemma StepSyncLocal(sha: string -> string, s: State, pid: nat)
    requires Inv(sha, s) && pid in s.syncs
    ensures LocalOk(sha, StepSync(s, pid).local)
  {
    hide CompleteDir, Prefix, Staged;
    assert SyncOk(sha, s, pid, s.syncs[pid]);
    if s.syncs[pid].Promote? {
      StagingComplete(sha, s, pid, s.syncs[pid].id);
      if s.local.head.Names? {
        CompleteIsNotEmpty(sha, s.local.releases[s.local.head.id], s.local.head.id);
      }
    }
  }

  lemma StepPullOk(sha: string -> string, s: State, pid: nat)
    requires pid in s.syncs && SyncOk(sha, s, pid, s.syncs[pid]) && (s.syncs[pid].Gate? || s.syncs[pid].Download?)
    requires LocalOk(sha, s.local)
    ensures SyncOk(sha, StepSync(s, pid), pid, StepSync(s, pid).syncs[pid])
  {
    hide CompleteDir, Prefix, Needed;
    var pc, s' := s.syncs[pid], StepSync(s, pid);
    match pc
    case Gate(id) => if s'.syncs[pid].List? { EmptyStaging(s', pid, id); }
    case Download(id, todo, token, last) =>
      if s'.syncs[pid].Download? {
        DownloadKeepsStaged(s, s', pid, id, todo, token, last);
      } else if todo == [] {
        StagedKept(sha, s, s', pid, id, [], token, last);
      }
  }

  /** Where one operation leaves the sync. */
  lemma StepSyncOk(sha: string -> string, s: State, pid: nat)
    requires Inv(sha, s) && pid in s.syncs
    ensures SyncOk(sha, StepSync(s, pid), pid, StepSync(s, pid).syncs[pid])
  {
    hide CompleteDir, Prefix, ActOk, Staged, StepDownload, StepGate;
    var pc, s' := s.syncs[pid], StepSync(s, pid);
    assert SyncOk(sha, s, pid, pc);
    match pc
    case Gate(_) => StepPullOk(sha, s, pid);
    case Download(_, _, _, _) => StepPullOk(sha, s, pid);
    case Promote(id) => if s'.syncs[pid].Truncate? { StagingComplete(sha, s, pid, id); }
    case _ =>
  }

  lemma EmptyStaging(s: State, pid: nat, id: string)
    requires StagingOf(s, pid) == map[]
    ensures Staged(s, pid, id, [], -1, false)
  {
  }

  lemma StepSyncKeepsInv(sha: string -> string, s: State, pid: nat)
    requires Inv(sha, s) && pid in s.syncs
    ensures Inv(sha, StepSync(s, pid)) && Extends(s, StepSync(s, pid))
  {
    hide StepSync, Inv, CompleteDir;
    StepSyncFrame(s, pid);
    StepSyncLocal(sha, s, pid);
    StepSyncOk(sha, s, pid);
    OthersKeepInv(sha, s, StepSync(s, pid), pid);
  }

  lemma ApplyKeepsInv(sha: string -> string, s: State, e: Event)
    requires Inv(sha, s)
    ensures Inv(sha, Apply(sha, s, e)) && Extends(s, Apply(sha, s, e))
  {
    hide StepAct, StepSync, Inv, IsPage, CompleteDir, Verified, Extends;
    match e
    case Act(pid) => if pid in s.acts { StepActKeepsInv(sha, s, pid); } else { SameKeepsInv(s); }
    case Activate(_, _) => ActEventKeepsInv(sha, s, e);
    case StopAct(_) => ActEventKeepsInv(sha, s, e);
    case Sync(pid) => if pid in s.syncs { StepSyncKeepsInv(sha, s, pid); } else { SameKeepsInv(s); }
    case Page(pid, page) => PageKeepsInv(sha, s, pid, page);
    case StartSync(_) => SyncEventKeepsInv(sha, s, e);
    case StopSync(_, _) => SyncEventKeepsInv(sha, s, e);
  }

  lemma ActEventKeepsInv(sha: string -> string, s: State, e: Event)
    requires Inv(sha, s) && (e.Activate? || e.StopAct?)
    ensures Inv(sha, Apply(sha, s, e)) && Extends(s, Apply(sha, s, e))
  {
    hide Inv, Verified, Extends;
    ActMoveKeepsInv(sha, s, Apply(sha, s, e));
  }

  lemma SyncEventKeepsInv(sha: string -> string, s: State, e: Event)
    requires Inv(sha, s) && (e.StartSync? || e.StopSync?)
    ensures Inv(sha, Apply(sha, s, e)) && Extends(s, Apply(sha, s, e))
  {
    hide Inv, Extends;
    SyncMoveKeepsInv(sha, s, Apply(sha, s, e), e.pid);
  }

  lemma SameKeepsInv(s: State)
    ensures Extends(s, s)
  {
  }

  lemma PageKeepsInv(sha: string -> string, s: State, pid: nat, page: Listing)
    requires Inv(sha, s)
    ensures Inv(sha, Apply(sha, s, Page(pid, page))) && Extends(s, Apply(sha, s, Page(pid, page)))
  {
    hide CompleteDir, Prefix, ActOk, IsPage, Needed, Staged;
    var s' := Apply(sha, s, Page(pid, page));
    if s' != s {
      var pc := s.syncs[pid];
      assert SyncOk(sha, s, pid, pc);
      PageKeepsStaged(sha, s, s', pid, pc.id, pc.token, page);
      OthersKeepInv(sha, s, s', pid);
    }
  }

  lemma ActMoveKeepsInv(sha: string -> string, s: State, s': State)
    requires Inv(sha, s) && s'.objects == s.objects && s'.local == s.local && s'.syncs == s.syncs
    requires forall q :: q in s'.acts ==>
               (q in s.acts && s'.acts[q] == s.acts[q]) || s'.acts[q].pc.Rejected? ||
                   (Verified(sha, s'.acts[q].dir) && s'.acts[q].pc == Upload(0))
    ensures Inv(sha, s') && Extends(s, s')
  {
    hide SyncOk, LocalOk, CompleteDir, Prefix, Verified;
    forall q | q in s'.acts
      ensures ActOk(sha, s', s'.acts[q])
    {
      if q in s.acts && s'.acts[q] == s.acts[q] {
        ActKept(sha, s, s', s.acts[q]);
      }
    }
    forall q | q in s'.syncs
      ensures SyncOk(sha, s', q, s'.syncs[q])
    {
      SyncKept(sha, s, s', q, s.syncs[q]);
    }
    RemoteKept(sha, s, s');
  }

  lemma SyncMoveKeepsInv(sha: string -> string, s: State, s': State, pid: nat)
    requires Inv(sha, s) && SyncFrame(s, s', pid) && s'.local.releases == s.local.releases &&
        s'.local.head == s.local.head
    requires pid in s'.syncs ==> s'.syncs[pid].ReadRemoteHead? || s'.syncs[pid].Abandoned? || s' == s
    ensures Inv(sha, s') && Extends(s, s')
  {
    hide CompleteDir, Prefix, ActOk;
    OthersKeepInv(sha, s, s', pid);
  }

  lemma {:induction false} RunKeepsInv(sha: string -> string, s: State, events: seq<Event>)
    requires Inv(sha, s)
    ensures Inv(sha, Run(sha, s, events)) && Extends(s, Run(sha, s, events))
  {
    if events != [] {
      var n := |events| - 1;
      RunKeepsInv(sha, s, events[..n]);
      ApplyKeepsInv(sha, Run(sha, s, events[..n]), events[n]);
    }
  }

  /** Before anything ran: each pointer names a complete release if it names one, local directories with a manifest are
      complete, and objects may be planted anywhere under the release prefixes. */
  ghost predicate Initial(sha: string -> string, s: State) {
    RemoteOk(sha, s) && LocalOk(sha, s.local) && s.acts == map[] && s.syncs == map[]
  }

  /** End to end, over any runs of activations and syncs, concurrent or stopped anywhere, whatever was planted under
      the release prefixes: the store's head names only a release all of whose listed files match their size and
      sha256, the local head names only a complete local release directory, and both stay complete afterwards. */
  lemma HeadsNameCompleteReleases(sha: string -> string, s0: State, events: seq<Event>, later: seq<Event>)
    requires Initial(sha, s0)
    ensures var s := Run(sha, s0, events); var s' := Run(sha, s, later);
            && (s.Head().Some? && s.Head().value.HeadDoc? ==>
                  var id := s.Head().value.id;
                  CompleteDir(sha, Prefix(s.objects, id), id) && CompleteDir(sha, Prefix(s'.objects, id), id))
            && (s.local.head.Names? ==>
                  var id := s.local.head.id;
                  && id in s.local.releases && CompleteDir(sha, s.local.releases[id], id)
                  && id in s'.local.releases && s'.local.releases[id] == s.local.releases[id])
  {
    hide CompleteDir, Prefix, SyncOk, ActOk;
    RunKeepsInv(sha, s0, events);
    var s := Run(sha, s0, events);
    RunKeepsInv(sha, s, later);
    var s' := Run(sha, s, later);
    if s.Head().Some? && s.Head().value.HeadDoc? {
      CompleteKept(sha, s, s', s.Head().value.id);
    }
    if s.local.head.Names? {
      CompleteIsNotEmpty(sha, s.local.releases[s.local.head.id], s.local.head.id);
    }
  }
}
