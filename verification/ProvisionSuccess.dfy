/** When a provisioning run of `ModelAssets` succeeds, and when it has nothing to do. */
module ProvisionSuccess {
  import opened Wrappers
  import opened ModelAssets

  /** The fetches after the manifest's give every entry from `i` on content of its size and hash. */
  predicate Served(env: Env, remote: Remote, m: AssetManifest, i: nat) {
    forall k :: i <= k < |m.files| ==>
      && remote(k + 1, m.files[k].name).Some?
      && |remote(k + 1, m.files[k].name).value| == m.files[k].bytes
      && env.sha(remote(k + 1, m.files[k].name).value) == m.files[k].sha256
  }

  lemma {:induction false} InstallSucceedsExactly(env: Env, remote: Remote, fault: Fault, text: string,
      m: AssetManifest, i: nat, files: Files)
    requires i <= |m.files|
    ensures
      var r := InstallFrom(env, remote, fault, text, m, i, files);
      && (r.ok <==> fault.budget > 2 * |m.files| + 2 && Served(env, remote, m, i))
      && (r.ok ==> MANIFEST_FILE in r.files && r.files[MANIFEST_FILE] == text)
    decreases |m.files| - i
  {
    if i < |m.files| {
      var f := m.files[i];
      if remote(i + 1, f.name).Some? {
        var data := remote(i + 1, f.name).value;
        var staged := files[PartialOf(f.name) := data];
        InstallSucceedsExactly(env, remote, fault, text, m, i + 1, (staged - {PartialOf(f.name)})[f.name := data]);
      }
    }
  }

  /** A directory whose marker parses and whose listed files have their listed sizes costs nothing: no fetch, no
      operation on a file. */
  lemma WarmIsFree(env: Env, remote: Remote, fault: Fault, files: Files, m: AssetManifest)
    requires MANIFEST_FILE in files && env.parse(files[MANIFEST_FILE]) == Some(m)
    requires forall k :: 0 <= k < |m.files| ==>
        m.files[k].name in files && |files[m.files[k].name]| == m.files[k].bytes
    ensures Provisioned(env, remote, fault, files) == Outcome(files, true)
  {
    forall f | f in m.files
      ensures f.name in files && |files[f.name]| == f.bytes
    {
      var k :| 0 <= k < |m.files| && m.files[k] == f;
    }
  }

  /** Any other directory is provisioned if and only if nothing stops the run, the remote's manifest parses and every
      file it lists is served with its size and hash; the manifest as served is then the marker. */
  lemma ColdSucceedsExactly(env: Env, remote: Remote, fault: Fault, files: Files)
    requires MANIFEST_FILE !in files || env.parse(files[MANIFEST_FILE]).None?
        || exists k ::
             var listed := env.parse(files[MANIFEST_FILE]).value.files;
             0 <= k < |listed| && (listed[k].name !in files || |files[listed[k].name]| != listed[k].bytes)
    ensures
      var r, text := Provisioned(env, remote, fault, files), remote(0, MANIFEST_FILE);
      && (r.ok <==>
            && text.Some? && env.parse(text.value).Some?
            && fault.budget > 2 * |env.parse(text.value).value.files| + 2
            && Served(env, remote, env.parse(text.value).value, 0))
      && (r.ok ==> MANIFEST_FILE in r.files && text == Some(r.files[MANIFEST_FILE]))
  {
    assert !AssetsReady(env, files);
    var text := remote(0, MANIFEST_FILE);
    if text.Some? && env.parse(text.value).Some? {
      InstallSucceedsExactly(env, remote, fault, text.value, env.parse(text.value).value, 0, files - {MANIFEST_FILE});
    }
  }
}
