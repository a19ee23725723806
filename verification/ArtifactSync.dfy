/** One uninterrupted sync of the active static release (src/adapters/s3_artifact_sync.rs) from a bucket that does not
    change meanwhile. The interleaved and interrupted runs are those of StaticActivation. */
module ArtifactSync {
  import opened Wrappers
  import opened ObjectStore
  import opened StaticActivation

  /** The local artifact root: the pointer file, the release directories and the staging directories of each attempt. */
  class Disk {
    var head: LocalHead
    var releases: map<string, Dir>
    var staging: map<nat, Dir>

    constructor ()
      ensures head == NoHead && releases == map[] && staging == map[]
    {
      head, releases, staging := NoHead, map[], map[];
    }
  }

  /** A rename onto this name succeeds: nothing stands there, or an empty directory. */
  predicate Free(releases: map<string, Dir>, id: string) {
    id !in releases || releases[id] == map[]
  }

  predicate Installed(releases: map<string, Dir>, id: string) {
    id in releases && MANIFEST in releases[id]
  }

  /** The store's answers to list requests, by continuation token: each goes on further, up to some last token. */
  ghost predicate ListsOf(dir: Dir, pages: int -> Listing, end: int) {
    forall token: int :: IsPage(dir, token, pages(token)) && (pages(token).last || token < pages(token).next <= end)
  }

  /** Everything up to `token` is staged. */
  ghost predicate StagedUpTo(dir: Dir, staged: Dir, token: int) {
    staged == map n | n in dir && n <= token :: dir[n]
  }

  lemma PageStages(dir: Dir, token: int, page: Listing, before: Dir, after: Dir)
    requires IsPage(dir, token, page) && StagedUpTo(dir, before, token) && (page.last || token < page.next)
    requires forall n :: n in after <==> n in before || n in page.names
    requires forall n :: n in after ==> n in dir && after[n] == dir[n]
    ensures if page.last then after == dir else StagedUpTo(dir, after, page.next)
  {
    forall n | n in dir && (page.last || n <= page.next)
      ensures n in after
    {
      if n <= token {
        assert n in before;
      }
    }
  }

  /** One page: every listed object is written under the staging directory. */
  method DownloadPage(objects: map<Key, Blob>, id: string, disk: Disk, attempt: nat, page: Listing, ghost token: int)
    requires IsPage(Prefix(objects, id), token, page) && attempt in disk.staging
    requires forall n :: n in disk.staging[attempt] ==>
        n in Prefix(objects, id) && disk.staging[attempt][n] == Prefix(objects, id)[n]
    modifies disk`staging
    ensures attempt in disk.staging && disk.staging == old(disk.staging)[attempt := disk.staging[attempt]]
    ensures forall n :: n in disk.staging[attempt] <==> n in old(disk.staging[attempt]) || n in page.names
    ensures forall n :: n in disk.staging[attempt] ==>
        n in Prefix(objects, id) && disk.staging[attempt][n] == Prefix(objects, id)[n]
  {
    hide IsPage, Prefix;
    var names, staged := page.names, disk.staging[attempt];
    for i := 0 to |names|
      invariant forall n :: n in staged <==> n in old(disk.staging[attempt]) || n in names[..i]
      invariant forall n :: n in staged ==> n in Prefix(objects, id) && staged[n] == Prefix(objects, id)[n]
      invariant disk.staging == old(disk.staging)[attempt := staged]
    {
      ListedIsStored(objects, id, token, page, i);
      staged := staged[names[i] := objects[ReleaseObject(id, names[i])]];
      disk.staging := disk.staging[attempt := staged];
    }
    assert names[..|names|] == names;
  }

  /** `sync_prefix_to`: page after page until the list is no longer truncated. */
  method SyncPrefixTo(objects: map<Key, Blob>, id: string, pages: int -> Listing, disk: Disk, attempt: nat,
      ghost end: int)
    requires ListsOf(Prefix(objects, id), pages, end) && attempt in disk.staging && disk.staging[attempt] == map[]
    modifies disk`staging
    ensures disk.staging == old(disk.staging)[attempt := Prefix(objects, id)]
  {
    hide IsPage, Prefix, StagedUpTo;
    ghost var dir := Prefix(objects, id);
    var token: int, last := -1, false;
    NothingStaged(dir);
    while !last
      invariant attempt in disk.staging && disk.staging == old(disk.staging)[attempt := disk.staging[attempt]]
      invariant if last then disk.staging[attempt] == dir else StagedUpTo(dir, disk.staging[attempt], token)
      decreases if last then 0 else 1, end - token
    {
      var page := pages(token);
      assert IsPage(dir, token, page);
      ghost var before := disk.staging[attempt];
      StagedIsStored(dir, before, token);
      DownloadPage(objects, id, disk, attempt, page, token);
      PageStages(dir, token, page, before, disk.staging[attempt]);
      last := page.last;
      if !last {
        token := page.next;
      }
    }
  }

  lemma NothingStaged(dir: Dir)
    ensures StagedUpTo(dir, map[], -1)
  {
  }

  lemma StagedIsStored(dir: Dir, staged: Dir, token: int)
    requires StagedUpTo(dir, staged, token)
    ensures forall n :: n in staged ==> n in dir && staged[n] == dir[n]
  {
  }

  lemma ListedIsStored(objects: map<Key, Blob>, id: string, token: int, page: Listing, i: nat)
    requires IsPage(Prefix(objects, id), token, page) && i < |page.names|
    ensures page.names[i] in Prefix(objects, id) && ReleaseObject(id, page.names[i]) in objects
    ensures objects[ReleaseObject(id, page.names[i])] == Prefix(objects, id)[page.names[i]]
  {
  }

  /** `pull_release_via_staging`: download beside the final name, check for the manifest, rename into place; a lost
      rename race against a complete release counts as installed. */
  method PullReleaseViaStaging(objects: map<Key, Blob>, id: string, pages: int -> Listing, disk: Disk, attempt: nat,
      ghost end: int)
    returns (ok: bool)
    requires ListsOf(Prefix(objects, id), pages, end) && attempt !in disk.staging
    modifies disk`staging, disk`releases
    ensures ok <==>
        MANIFEST in Prefix(objects, id) && (Free(old(disk.releases), id) || Installed(old(disk.releases), id))
    ensures disk.releases ==
        if ok && Free(old(disk.releases), id) then old(disk.releases)[id := Prefix(objects, id)] else old(disk.releases)
    ensures disk.staging ==
        if ok || MANIFEST !in Prefix(objects, id) then old(disk.staging)
        else old(disk.staging)[attempt := Prefix(objects, id)]
  {
    hide Prefix, ListsOf;
    disk.staging := disk.staging[attempt := map[]];
    SyncPrefixTo(objects, id, pages, disk, attempt, end);
    var pulled := disk.staging[attempt];
    if MANIFEST !in pulled {
      disk.staging := disk.staging - {attempt};
      return false;
    }
    if Free(disk.releases, id) {
      disk.releases := disk.releases[id := pulled];
      disk.staging := disk.staging - {attempt};
      return true;
    }
    if Installed(disk.releases, id) {
      disk.staging := disk.staging - {attempt};
      return true;
    }
    return false;
  }

  /** `sync_static_release`: read the pointer, pull the release unless its manifest is already local, plant the
      pointer last. */
  method SyncStaticRelease(objects: map<Key, Blob>, pages: string -> int -> Listing, disk: Disk, attempt: nat,
      ghost end: int)
    returns (ok: bool)
    requires attempt !in disk.staging && forall id :: ListsOf(Prefix(objects, id), pages(id), end)
    modifies disk
    ensures
      ok
      <==> StaticHead !in objects
           || (objects[StaticHead].HeadDoc?
               && var id := objects[StaticHead].id;
                 Installed(old(disk.releases), id) || (MANIFEST in Prefix(objects, id) && Free(old(disk.releases), id)))
    ensures StaticHead !in objects ==> disk.head == old(disk.head) && disk.releases == old(disk.releases)
    ensures StaticHead in objects && ok ==> objects[StaticHead].HeadDoc?
    ensures StaticHead in objects && ok ==>
        disk.head == Names(objects[StaticHead].id) && Installed(disk.releases, objects[StaticHead].id)
    ensures
      StaticHead in objects && ok ==>
        var id := objects[StaticHead].id;
        disk.releases == if Installed(old(disk.releases), id) then old(disk.releases)
            else old(disk.releases)[id := Prefix(objects, id)]
    ensures !ok ==> disk.head == old(disk.head) && disk.releases == old(disk.releases)
    ensures forall id :: id in old(disk.releases) && old(disk.releases)[id] != map[] ==>
        id in disk.releases && disk.releases[id] == old(disk.releases)[id]
    ensures forall id :: Installed(disk.releases, id) && !Installed(old(disk.releases), id) ==>
        disk.releases[id] == Prefix(objects, id)
  {
    hide Prefix, ListsOf;
    if StaticHead !in objects {
      return true;
    }
    if !objects[StaticHead].HeadDoc? {
      return false;
    }
    var id := objects[StaticHead].id;
    if !Installed(disk.releases, id) {
      ok := PullReleaseViaStaging(objects, id, pages(id), disk, attempt, end);
      if !ok {
        return;
      }
    }
    disk.head := Names(id);
    ok := true;
  }
}
