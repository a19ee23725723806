/** Cold-start provisioning of model assets (src/embedding/model_assets.rs). A run may stop
    before, after or inside any filesystem operation, the remote may change between any two
    fetches, and files may be deleted between runs. */
module ModelAssets {
  import opened Wrappers

  datatype AssetFile = AssetFile(name: string, bytes: nat, sha256: string)

  datatype AssetManifest = AssetManifest(files: seq<AssetFile>) {
    /** No entry takes the marker's place. */
    predicate SparesMarker() {
      forall i :: 0 <= i < |files| ==> files[i].name != MANIFEST_FILE
    }

    /** What the packaging script promises of a bundle's names. */
    predicate NamesOk() {
      && SparesMarker()
      && (forall i, j :: 0 <= i < j < |files| ==> files[i].name != files[j].name)
      && (forall i :: 0 <= i < |files| ==> !IsPartial(files[i].name))
    }
  }

  type Files = map<string, string>

  const MANIFEST_FILE := "manifest.json"
  const PARTIAL_PREFIX := ".partial-"

  function PartialOf(name: string): string {
    PARTIAL_PREFIX + name
  }

  predicate IsPartial(name: string) {
    PARTIAL_PREFIX <= name
  }

  /** `parse` reads a manifest, `sha` hashes a file. */
  datatype Env = Env(parse: string -> Option<AssetManifest>, sha: string -> string) {
    /** A cut-off manifest does not parse as a different one. */
    ghost predicate Valid() {
      forall text: string, n: nat ::
        n <= |text| && parse(text).Some? && parse(text[..n]).Some? ==> parse(text) == parse(text[..n])
    }
  }

  /** The warm check: the manifest parses and every listed file has its listed size. */
  predicate AssetsReady(env: Env, files: Files) {
    && MANIFEST_FILE in files && env.parse(files[MANIFEST_FILE]).Some?
    && forall f :: f in env.parse(files[MANIFEST_FILE]).value.files ==> f.name in files && |files[f.name]| == f.bytes
  }

  /** Every file the on-disk manifest lists has the content it states. */
  predicate ContentMatches(env: Env, files: Files) {
    && MANIFEST_FILE in files && env.parse(files[MANIFEST_FILE]).Some?
    && forall f :: f in env.parse(files[MANIFEST_FILE]).value.files ==>
        f.name in files && env.sha(files[f.name]) == f.sha256
  }

  /** Where a run stops: after `budget` operations, leaving `garbage` in a file it was streaming and `tear` characters
      of a marker it was writing, or before it created the file or the marker. */
  datatype Fault = Fault(budget: nat, garbage: Option<string>, tear: Option<nat>)

  function Unfinished(fault: Fault, name: string, files: Files): Files {
    if fault.garbage.None? then files else files[PartialOf(name) := fault.garbage.value]
  }

  function Torn(fault: Fault, text: string, files: Files): Files {
    if fault.tear.None? then files
    else files[MANIFEST_FILE := text[..if fault.tear.value < |text| then fault.tear.value else |text|]]
  }

  /** What the remote answers to the k-th fetch of a run. */
  type Remote = (nat, string) -> Option<string>

  datatype Outcome = Outcome(files: Files, ok: bool)

  /** The effect of the run from file `i` on: the loop, then the marker. */
  function InstallFrom(env: Env, remote: Remote, fault: Fault, text: string, m: AssetManifest, i: nat,
      files: Files): Outcome
    requires i <= |m.files|
    decreases |m.files| - i
  {
    if i == |m.files| then
      if fault.budget <= 2 * i + 2 then Outcome(Torn(fault, text, files), false)
      else Outcome(files[MANIFEST_FILE := text], true)
    else
      var f := m.files[i];
      if fault.budget <= 2 * i + 2 then Outcome(Unfinished(fault, f.name, files), false)
      else
        match remote(i + 1, f.name)
        case None => Outcome(Unfinished(fault, f.name, files), false)
        case Some(data) =>
          var staged := files[PartialOf(f.name) := data];
          if |data| != f.bytes || env.sha(data) != f.sha256 || fault.budget <= 2 * i + 3 then Outcome(staged, false)
          else InstallFrom(env, remote, fault, text, m, i + 1, (staged - {PartialOf(f.name)})[f.name := data])
  }

  /** The effect of one run. */
  function Provisioned(env: Env, remote: Remote, fault: Fault, files: Files): Outcome {
    if AssetsReady(env, files) then Outcome(files, true)
    else if fault.budget == 0 then Outcome(files, false)
    else
      var invalidated := files - {MANIFEST_FILE};
      if fault.budget == 1 then Outcome(invalidated, false)
      else
        match remote(0, MANIFEST_FILE)
        case None => Outcome(invalidated, false)
        case Some(text) =>
          match env.parse(text)
          case None => Outcome(invalidated, false)
          case Some(m) => InstallFrom(env, remote, fault, text, m, 0, invalidated)
  }

  class BundleDir {
    var files: Files

    /** Invalidates the marker, downloads and verifies each file beside its final name, renames it into
        place, and writes the marker last. */
    method ProvisionWith(env: Env, remote: Remote, fault: Fault) returns (ok: bool)
      modifies this
      ensures Outcome(files, ok) == Provisioned(env, remote, fault, old(files))
    {
      if AssetsReady(env, files) {
        return true;
      }
      if fault.budget == 0 {
        return false;
      }
      if MANIFEST_FILE in files {
        files := files - {MANIFEST_FILE};
      }
      assert files == old(files) - {MANIFEST_FILE};
      if fault.budget == 1 {
        return false;
      }
      var text := remote(0, MANIFEST_FILE);
      if text.None? {
        return false;
      }
      var m := env.parse(text.value);
      if m.None? {
        return false;
      }
      for i := 0 to |m.value.files|
        invariant InstallFrom(env, remote, fault, text.value, m.value, i, files)
                  == InstallFrom(env, remote, fault, text.value, m.value, 0, old(files) - {MANIFEST_FILE})
      {
        var f := m.value.files[i];
        var partial := PartialOf(f.name);
        var data := remote(i + 1, f.name);
        if fault.budget <= 2 * i + 2 || data.None? {
          files := Unfinished(fault, f.name, files);
          return false;
        }
        files := files[partial := data.value];
        if |data.value| != f.bytes || env.sha(data.value) != f.sha256 || fault.budget <= 2 * i + 3 {
          return false;
        }
        files := (files - {partial})[f.name := data.value];
      }
      if fault.budget <= 2 * |m.value.files| + 2 {
        files := Torn(fault, text.value, files);
        return false;
      }
      files := files[MANIFEST_FILE := text.value];
      return true;
    }
  }

  // ----- what one run leaves -----

  /** Every removal of `p` as a partial file by the first `n` entries is followed by an installation under that name. */
  ghost predicate Lasts(m: AssetManifest, n: nat, p: string)
    requires n <= |m.files|
  {
    forall j :: 0 <= j < n && PartialOf(m.files[j].name) == p ==> exists k :: j < k < n && m.files[k].name == p
  }

  /** One of the first `n` entries has this name, size and hash. */
  ghost predicate Listed(env: Env, m: AssetManifest, n: nat, p: string, data: string)
    requires n <= |m.files|
  {
    exists k :: 0 <= k < n && m.files[k] == AssetFile(p, |data|, env.sha(data))
  }

  /** Some content has the entry's size and hash. */
  ghost predicate Obtainable(env: Env, f: AssetFile) {
    exists data: string :: |data| == f.bytes && env.sha(data) == f.sha256
  }

  /** After the first `n` installations exactly the listed names that last are there, each as one of its entries says;
      what an entry named `manifest.json` installs is looked at apart. */
  ghost predicate Laid(env: Env, m: AssetManifest, n: nat, files: Files) {
    && n <= |m.files|
    && (forall i :: 0 <= i < n ==> Obtainable(env, m.files[i]))
    && (forall i :: 0 <= i < n && m.files[i].name != MANIFEST_FILE ==> NameLaid(env, m, n, files, m.files[i].name))
  }

  /** Nothing an entry named `manifest.json` can install is taken for a manifest. */
  ghost predicate MarkerInert(env: Env, m: AssetManifest) {
    forall i, data: string ::
      0 <= i < |m.files| && m.files[i] == AssetFile(MANIFEST_FILE, |data|, env.sha(data)) ==> env.parse(data).None?
  }

  /** The marker has the size the entries named `manifest.json` state, if there are any. */
  predicate MarkerFits(m: AssetManifest, size: nat) {
    forall i :: 0 <= i < |m.files| && m.files[i].name == MANIFEST_FILE ==> m.files[i].bytes == size
  }

  ghost predicate Unmarked(env: Env, files: Files) {
    MANIFEST_FILE in files ==> env.parse(files[MANIFEST_FILE]).None?
  }

  ghost predicate NameLaid(env: Env, m: AssetManifest, n: nat, files: Files, p: string)
    requires n <= |m.files|
  {
    && (p in files <==> Lasts(m, n, p))
    && (p in files ==> Listed(env, m, n, p, files[p]))
  }

  lemma PartialIsLonger(name: string)
    ensures PartialOf(name) != name && PartialOf(name) != MANIFEST_FILE && IsPartial(PartialOf(name))
  {
    assert PartialOf(name)[0] == '.' && MANIFEST_FILE[0] == 'm';
  }

  lemma LayOne(env: Env, m: AssetManifest, n: nat, files: Files, data: string)
    requires n < |m.files| && Laid(env, m, n, files)
    requires |data| == m.files[n].bytes && env.sha(data) == m.files[n].sha256
    ensures var name := m.files[n].name;
            Laid(env, m, n + 1, (files[PartialOf(name) := data] - {PartialOf(name)})[name := data])
  {
    hide Lasts, Listed, NameLaid;
    var name := m.files[n].name;
    var files' := (files[PartialOf(name) := data] - {PartialOf(name)})[name := data];
    forall i | 0 <= i < n + 1 && m.files[i].name != MANIFEST_FILE
      ensures NameLaid(env, m, n + 1, files', m.files[i].name)
    {
      if i < n {
        assert NameLaid(env, m, n, files, m.files[i].name);
      }
      LayName(env, m, n, files, data, files', m.files[i].name);
    }
    assert Obtainable(env, m.files[n]);
  }

  lemma LayName(env: Env, m: AssetManifest, n: nat, files: Files, data: string, files': Files, p: string)
    requires n < |m.files| && |data| == m.files[n].bytes && env.sha(data) == m.files[n].sha256
    requires
      var name := m.files[n].name;
      files' == (files[PartialOf(name) := data] - {PartialOf(name)})[name := data]
    requires p == m.files[n].name || NameLaid(env, m, n, files, p)
    ensures NameLaid(env, m, n + 1, files', p)
  {
    var name := m.files[n].name;
    PartialIsLonger(name);
    if p == name {
      assert m.files[n] == AssetFile(p, |data|, env.sha(data));
      assert Lasts(m, n + 1, p);
    } else if p == PartialOf(name) {
      assert !Lasts(m, n + 1, p);
    } else {
      assert (p in files' <==> p in files) && (p in files ==> files'[p] == files[p]);
      LastsAlike(m, n, p);
      if p in files {
        var k :| 0 <= k < n && m.files[k] == AssetFile(p, |files[p]|, env.sha(files[p]));
        assert Listed(env, m, n + 1, p, files'[p]);
      }
    }
  }

  lemma LastsAlike(m: AssetManifest, n: nat, p: string)
    requires n < |m.files| && p != m.files[n].name && p != PartialOf(m.files[n].name)
    ensures Lasts(m, n + 1, p) <==> Lasts(m, n, p)
  {
    if Lasts(m, n + 1, p) {
      forall j | 0 <= j < n && PartialOf(m.files[j].name) == p
        ensures exists k :: j < k < n && m.files[k].name == p
      {
        var k :| j < k < n + 1 && m.files[k].name == p;
      }
    }
    if Lasts(m, n, p) {
      forall j | 0 <= j < n + 1 && PartialOf(m.files[j].name) == p
        ensures exists k :: j < k < n + 1 && m.files[k].name == p
      {
        var k :| j < k < n && m.files[k].name == p;
      }
    }
  }

  /** What the on-disk manifest and the listed files that are there say of each other. */
  ghost predicate Kept(env: Env, m: AssetManifest, files: Files) {
    && (forall i :: 0 <= i < |m.files| ==> Obtainable(env, m.files[i]))
    && (forall i :: 0 <= i < |m.files| && m.files[i].name in files && m.files[i].name != MANIFEST_FILE ==>
          Lasts(m, |m.files|, m.files[i].name) && Listed(env, m, |m.files|, m.files[i].name, files[m.files[i].name]))
  }

  /** A marker that parses is one of `m`, and then `Kept` holds. */
  ghost predicate MarkedBy(env: Env, m: AssetManifest, files: Files) {
    MANIFEST_FILE in files && env.parse(files[MANIFEST_FILE]).Some? ==>
      env.parse(files[MANIFEST_FILE]) == Some(m) && Kept(env, m, files)
  }

  lemma MarkerKeeps(env: Env, text: string, m: AssetManifest, files: Files, n: nat)
    requires env.Valid() && env.parse(text) == Some(m) && Laid(env, m, |m.files|, files) && n <= |text|
    ensures MarkedBy(env, m, files[MANIFEST_FILE := text[..n]])
    ensures n == |text| ==> text[..n] == text
  {
    hide Lasts, Listed, Obtainable;
    var marked := files[MANIFEST_FILE := text[..n]];
    if n == |text| {
      assert text[..n] == text;
    }
    forall i | 0 <= i < |m.files| && m.files[i].name in marked && m.files[i].name != MANIFEST_FILE
      ensures Lasts(m, |m.files|, m.files[i].name) &&
          Listed(env, m, |m.files|, m.files[i].name, marked[m.files[i].name])
    {
      assert NameLaid(env, m, |m.files|, files, m.files[i].name);
    }
  }

  lemma {:induction false} InstallLeaves(env: Env, remote: Remote, fault: Fault, text: string, m: AssetManifest, i: nat,
      files: Files)
    requires env.Valid() && env.parse(text) == Some(m) && MarkerInert(env, m)
    requires i <= |m.files| && Laid(env, m, i, files) && Unmarked(env, files)
    ensures
      var r := InstallFrom(env, remote, fault, text, m, i, files);
      && MarkedBy(env, m, r.files)
      && (r.ok ==> MANIFEST_FILE in r.files && r.files[MANIFEST_FILE] == text && Laid(env, m, |m.files|, r.files))
    decreases |m.files| - i
  {
    hide Laid, Kept, MarkerInert;
    if i == |m.files| {
      var tear := if fault.tear.None? then 0 else if fault.tear.value < |text| then fault.tear.value else |text|;
      MarkerKeeps(env, text, m, files, tear);
      MarkerKeeps(env, text, m, files, |text|);
      LaidBesideMarker(env, m, files, text);
    } else {
      var f := m.files[i];
      PartialIsLonger(f.name);
      var data := remote(i + 1, f.name);
      if data.Some? && |data.value| == f.bytes && env.sha(data.value) == f.sha256 && fault.budget > 2 * i + 3 {
        LayOne(env, m, i, files, data.value);
        StaysUnmarked(env, m, i, files, data.value);
        InstallLeaves(env, remote, fault, text, m, i + 1,
                      (files[PartialOf(f.name) := data.value] - {PartialOf(f.name)})[f.name := data.value]);
      }
    }
  }

  lemma LaidBesideMarker(env: Env, m: AssetManifest, files: Files, text: string)
    requires Laid(env, m, |m.files|, files)
    ensures Laid(env, m, |m.files|, files[MANIFEST_FILE := text])
  {
    hide Lasts, Listed, Obtainable;
    forall i | 0 <= i < |m.files| && m.files[i].name != MANIFEST_FILE
      ensures NameLaid(env, m, |m.files|, files[MANIFEST_FILE := text], m.files[i].name)
    {
      assert NameLaid(env, m, |m.files|, files, m.files[i].name);
    }
  }

  lemma StaysUnmarked(env: Env, m: AssetManifest, i: nat, files: Files, data: string)
    requires MarkerInert(env, m) && Unmarked(env, files) && i < |m.files|
    requires |data| == m.files[i].bytes && env.sha(data) == m.files[i].sha256
    ensures var name := m.files[i].name;
        Unmarked(env, (files[PartialOf(name) := data] - {PartialOf(name)})[name := data])
  {
    PartialIsLonger(m.files[i].name);
    if m.files[i].name == MANIFEST_FILE {
      assert m.files[i] == AssetFile(MANIFEST_FILE, |data|, env.sha(data));
    }
  }

  /** The manifest the remote would answer with. */
  function Served(env: Env, remote: Remote): Option<AssetManifest> {
    match remote(0, MANIFEST_FILE)
    case None => None
    case Some(text) => env.parse(text)
  }

  /** A run keeps the directory or leaves what its manifest says of the files that are there, wherever it stops. */
  lemma ProvisionLeaves(env: Env, remote: Remote, fault: Fault, files: Files)
    requires env.Valid() && (Served(env, remote).Some? ==> MarkerInert(env, Served(env, remote).value))
    ensures
      var r := Provisioned(env, remote, fault, files);
      && (AssetsReady(env, files) || fault.budget == 0 ==> r.files == files)
      && (!AssetsReady(env, files) && fault.budget > 0 ==>
            && (Served(env, remote).None? ==> MANIFEST_FILE !in r.files)
            && (Served(env, remote).Some? ==> MarkedBy(env, Served(env, remote).value, r.files)))
      && (!AssetsReady(env, files) && r.ok ==>
            && Served(env, remote).Some? && MANIFEST_FILE in r.files &&
                Some(r.files[MANIFEST_FILE]) == remote(0, MANIFEST_FILE)
            && Laid(env, Served(env, remote).value, |Served(env, remote).value.files|, r.files))
  {
    hide Laid, Kept, AssetsReady, MarkerInert;
    if !AssetsReady(env, files) && fault.budget > 1 && Served(env, remote).Some? {
      var m := Served(env, remote).value;
      assert Laid(env, m, 0, files - {MANIFEST_FILE}) by {
        NothingLaid(env, m, files - {MANIFEST_FILE});
      }
      InstallLeaves(env, remote, fault, remote(0, MANIFEST_FILE).value, m, 0, files - {MANIFEST_FILE});
    }
  }

  lemma NothingLaid(env: Env, m: AssetManifest, files: Files)
    ensures Laid(env, m, 0, files)
  {
  }

  // ----- success -----

  ghost predicate AllLast(m: AssetManifest) {
    forall i :: 0 <= i < |m.files| ==> Lasts(m, |m.files|, m.files[i].name)
  }

  predicate SizesAgree(m: AssetManifest) {
    forall i, j :: 0 <= i < |m.files| && 0 <= j < |m.files| && m.files[i].name == m.files[j].name ==>
        m.files[i].bytes == m.files[j].bytes
  }

  predicate HashesAgree(m: AssetManifest) {
    forall i, j :: 0 <= i < |m.files| && 0 <= j < |m.files| && m.files[i].name == m.files[j].name ==>
        m.files[i].sha256 == m.files[j].sha256
  }

  /** A ready directory's manifest could be installed, and what is there has every hash listed for it exactly if the
      marker is not listed and the hashes listed under one name agree. */
  lemma ReadyMeans(env: Env, m: AssetManifest, files: Files)
    requires MarkedBy(env, m, files) && MarkerInert(env, m) && AssetsReady(env, files)
    ensures env.parse(files[MANIFEST_FILE]) == Some(m) && SizesAgree(m) && AllLast(m) &&
        MarkerFits(m, |files[MANIFEST_FILE]|)
    ensures ContentMatches(env, files) <==> m.SparesMarker() && HashesAgree(m)
  {
    hide Obtainable, Lasts, Listed, MarkerInert, SizesAgree, HashesAgree, MarkerFits, AllLast;
    assert forall i :: 0 <= i < |m.files| ==> m.files[i] in m.files;
    SizesShown(m, files);
    ListedLast(env, m, files);
    if m.SparesMarker() && HashesAgree(m) {
      forall f | f in m.files
        ensures env.sha(files[f.name]) == f.sha256
      {
        ListedHash(env, m, files, f);
      }
    }
    if ContentMatches(env, files) {
      HashesShown(env, m, files);
    }
  }

  lemma SizesShown(m: AssetManifest, files: Files)
    requires MANIFEST_FILE in files
    requires forall i :: 0 <= i < |m.files| ==> m.files[i].name in files && |files[m.files[i].name]| == m.files[i].bytes
    ensures SizesAgree(m) && MarkerFits(m, |files[MANIFEST_FILE]|)
  {
  }

  lemma ListedHash(env: Env, m: AssetManifest, files: Files, f: AssetFile)
    requires Kept(env, m, files) && HashesAgree(m) && m.SparesMarker() && f in m.files && f.name in files
    ensures env.sha(files[f.name]) == f.sha256
  {
    var i :| 0 <= i < |m.files| && m.files[i] == f;
    var k :| 0 <= k < |m.files| && m.files[k] == AssetFile(f.name, |files[f.name]|, env.sha(files[f.name]));
    assert m.files[k].name == m.files[i].name;
  }

  lemma HashesShown(env: Env, m: AssetManifest, files: Files)
    requires MANIFEST_FILE in files && env.parse(files[MANIFEST_FILE]) == Some(m) && MarkerInert(env, m)
    requires AssetsReady(env, files) && ContentMatches(env, files)
    ensures m.SparesMarker() && HashesAgree(m)
  {
    forall i | 0 <= i < |m.files|
      ensures m.files[i] == AssetFile(m.files[i].name, |files[m.files[i].name]|, env.sha(files[m.files[i].name]))
    {
      assert m.files[i] in m.files;
    }
  }

  lemma ListedLast(env: Env, m: AssetManifest, files: Files)
    requires Kept(env, m, files) && forall i :: 0 <= i < |m.files| ==> m.files[i].name in files
    ensures AllLast(m)
  {
    forall i | 0 <= i < |m.files|
      ensures Lasts(m, |m.files|, m.files[i].name)
    {
      if m.files[i].name == MANIFEST_FILE {
        MarkerLasts(m);
      }
    }
  }

  lemma MarkerLasts(m: AssetManifest)
    ensures Lasts(m, |m.files|, MANIFEST_FILE)
  {
    forall j | 0 <= j < |m.files|
      ensures PartialOf(m.files[j].name) != MANIFEST_FILE
    {
      PartialIsLonger(m.files[j].name);
    }
  }

  /** A fresh installation ends ready if every listed name lasts and names agree in size, the marker's too. */
  lemma LaidIsReady(env: Env, m: AssetManifest, files: Files)
    requires MANIFEST_FILE in files && env.parse(files[MANIFEST_FILE]) == Some(m) && Laid(env, m, |m.files|, files)
    ensures AllLast(m) && SizesAgree(m) && MarkerFits(m, |files[MANIFEST_FILE]|) ==> AssetsReady(env, files)
  {
    hide Lasts, Obtainable;
    if AllLast(m) && SizesAgree(m) && MarkerFits(m, |files[MANIFEST_FILE]|) {
      forall f | f in m.files
        ensures f.name in files && |files[f.name]| == f.bytes
      {
        var i :| 0 <= i < |m.files| && m.files[i] == f;
        if f.name != MANIFEST_FILE {
          assert NameLaid(env, m, |m.files|, files, m.files[i].name);
          var k :| 0 <= k < |m.files| && m.files[k] == AssetFile(f.name, |files[f.name]|, env.sha(files[f.name]));
        }
      }
    }
  }

  /** A run that reports success leaves a ready directory exactly if its bundle's names last and agree in size; every
      listed file then has its listed hash exactly if the hashes agree too and the marker is not listed. */
  lemma SuccessIsReady(env: Env, remote: Remote, fault: Fault, files: Files)
    requires env.Valid() && (Served(env, remote).Some? ==> MarkerInert(env, Served(env, remote).value))
    requires !AssetsReady(env, files) && Provisioned(env, remote, fault, files).ok
    ensures
      var r, m := Provisioned(env, remote, fault, files), Served(env, remote);
      && m.Some?
      && (AssetsReady(env, r.files) <==>
          AllLast(m.value) && SizesAgree(m.value) && MarkerFits(m.value, |remote(0, MANIFEST_FILE).value|))
      && (AssetsReady(env, r.files) ==>
          (ContentMatches(env, r.files) <==> m.value.SparesMarker() && HashesAgree(m.value)))
  {
    hide Laid, MarkedBy, MarkerInert, AllLast, SizesAgree, HashesAgree, MarkerFits, AssetsReady, ContentMatches;
    var r := Provisioned(env, remote, fault, files);
    ProvisionLeaves(env, remote, fault, files);
    var m := Served(env, remote).value;
    assert fault.budget != 0;
    LaidIsReady(env, m, r.files);
    if AssetsReady(env, r.files) {
      ReadyMeans(env, m, r.files);
    }
  }

  lemma NamesOkSuffice(m: AssetManifest)
    requires m.NamesOk()
    ensures AllLast(m) && SizesAgree(m) && HashesAgree(m) && forall size :: MarkerFits(m, size)
  {
    forall i | 0 <= i < |m.files|
      ensures Lasts(m, |m.files|, m.files[i].name)
    {
      forall j | 0 <= j < |m.files| && PartialOf(m.files[j].name) == m.files[i].name
        ensures false
      {
        PartialIsLonger(m.files[j].name);
      }
    }
  }

  // ----- the warm check over all runs -----

  /** The bundle can be installed to the end and counted ready although two entries disagree on one name's hash, or an
      entry gives the marker itself a size one of the bundle's manifests has. */
  ghost predicate Conflicted(env: Env, m: AssetManifest) {
    && (forall i :: 0 <= i < |m.files| ==> Obtainable(env, m.files[i]))
    && AllLast(m) && SizesAgree(m)
    && if m.SparesMarker() then !HashesAgree(m) else exists text :: env.parse(text) == Some(m) && MarkerFits(m, |text|)
  }

  datatype Event = Provision(remote: Remote, fault: Fault) | Delete(name: string)

  function Apply(env: Env, files: Files, e: Event): Files {
    match e
    case Provision(remote, fault) => Provisioned(env, remote, fault, files).files
    case Delete(name) => files - {name}
  }

  function Run(env: Env, files: Files, events: seq<Event>): Files {
    if events == [] then files else Apply(env, Run(env, files, events[..|events| - 1]), events[|events| - 1])
  }

  /** The warm check tells the truth. */
  ghost predicate CheckIsSound(env: Env, files: Files) {
    AssetsReady(env, files) ==> ContentMatches(env, files)
  }

  ghost predicate BundleOk(env: Env, m: AssetManifest) {
    MarkerInert(env, m) && !Conflicted(env, m)
  }

  /** The invariant: the marker on disk is of a bundle without conflict and the files that are there are as it says. */
  ghost predicate Strong(env: Env, files: Files) {
    MANIFEST_FILE in files && env.parse(files[MANIFEST_FILE]).Some? ==>
      BundleOk(env, env.parse(files[MANIFEST_FILE]).value) && Kept(env, env.parse(files[MANIFEST_FILE]).value, files)
  }

  /** Under it the size-only check implies every listed hash. */
  lemma ReadyMeansIntact(env: Env, files: Files)
    requires Strong(env, files)
    ensures CheckIsSound(env, files)
  {
    hide Lasts, Listed, Obtainable, MarkerInert, AllLast, SizesAgree, HashesAgree, MarkerFits;
    if AssetsReady(env, files) {
      ReadyMeans(env, env.parse(files[MANIFEST_FILE]).value, files);
    }
  }

  ghost predicate EventOk(env: Env, e: Event) {
    e.Provision? && Served(env, e.remote).Some? ==> BundleOk(env, Served(env, e.remote).value)
  }

  /** One run, stopped anywhere, or a deletion. */
  lemma StepKeepsStrong(env: Env, files: Files, e: Event)
    requires env.Valid() && EventOk(env, e) && Strong(env, files)
    ensures Strong(env, Apply(env, files, e))
  {
    hide Lasts, Listed, Obtainable, Provisioned, AssetsReady, Conflicted, Laid, MarkerInert;
    if e.Provision? {
      ProvisionLeaves(env, e.remote, e.fault, files);
    }
  }

  /** With names as the packaging script gives them, a run that reports success leaves every listed file intact. */
  lemma ProvisionKeepsStrong(env: Env, remote: Remote, fault: Fault, files: Files)
    requires env.Valid() && Strong(env, files) && (Served(env, remote).Some? ==> Served(env, remote).value.NamesOk())
    ensures
      var r := Provisioned(env, remote, fault, files);
      Strong(env, r.files) && (r.ok ==> AssetsReady(env, r.files) && ContentMatches(env, r.files))
  {
    hide Strong, Kept, AllLast, SizesAgree, HashesAgree, MarkerFits, AssetsReady, ContentMatches;
    if Served(env, remote).Some? {
      NamesOkSuffice(Served(env, remote).value);
    }
    StepKeepsStrong(env, files, Provision(remote, fault));
    if AssetsReady(env, files) {
      ReadyMeansIntact(env, files);
    } else if Provisioned(env, remote, fault, files).ok {
      SuccessIsReady(env, remote, fault, files);
    }
  }

  lemma {:induction false} RunKeepsStrong(env: Env, files: Files, events: seq<Event>)
    requires env.Valid() && Strong(env, files) && forall i :: 0 <= i < |events| ==> EventOk(env, events[i])
    ensures Strong(env, Run(env, files, events))
  {
    hide Strong, EventOk;
    if events != [] {
      var n := |events| - 1;
      RunKeepsStrong(env, files, events[..n]);
      StepKeepsStrong(env, Run(env, files, events[..n]), events[n]);
    }
  }

  /** Over any sequence of runs failing anywhere, with the remote changing and files deleted in between: whenever the
      size-only check says ready, every listed file has the sha256 the on-disk manifest gives. */
  lemma WarmCheckIsSound(env: Env, events: seq<Event>)
    requires env.Valid() && forall i :: 0 <= i < |events| ==> EventOk(env, events[i])
    ensures CheckIsSound(env, Run(env, map[], events))
  {
    RunKeepsStrong(env, map[], events);
    ReadyMeansIntact(env, Run(env, map[], events));
  }

  // ----- a conflicted bundle -----

  /** The remote answers every manifest fetch with `m`, with nothing, or with what does not parse. */
  ghost predicate Serves(env: Env, m: AssetManifest, e: Event) {
    e.Provision? && Served(env, e.remote).Some? ==> Served(env, e.remote).value == m
  }

  ghost predicate AlwaysSound(env: Env, m: AssetManifest) {
    forall events: seq<Event> ::
      (forall i :: 0 <= i < |events| ==> Serves(env, m, events[i])) ==> CheckIsSound(env, Run(env, map[], events))
  }

  lemma {:induction false} ContentsFor(env: Env, m: AssetManifest, n: nat) returns (contents: seq<string>)
    requires n <= |m.files| && forall i :: 0 <= i < |m.files| ==> Obtainable(env, m.files[i])
    ensures |contents| == n
    ensures forall i :: 0 <= i < n ==> |contents[i]| == m.files[i].bytes && env.sha(contents[i]) == m.files[i].sha256
  {
    if n == 0 {
      contents := [];
    } else {
      contents := ContentsFor(env, m, n - 1);
      assert Obtainable(env, m.files[n - 1]);
      var data: string :| |data| == m.files[n - 1].bytes && env.sha(data) == m.files[n - 1].sha256;
      contents := contents + [data];
    }
  }

  lemma {:induction false} InstallSucceeds(env: Env, remote: Remote, fault: Fault, text: string, m: AssetManifest,
      i: nat, files: Files)
    requires i <= |m.files| && fault.budget > 2 * |m.files| + 2
    requires
      forall k :: i <= k < |m.files| ==>
        && remote(k + 1, m.files[k].name).Some?
        && |remote(k + 1, m.files[k].name).value| == m.files[k].bytes
        && env.sha(remote(k + 1, m.files[k].name).value) == m.files[k].sha256
    ensures InstallFrom(env, remote, fault, text, m, i, files).ok
    decreases |m.files| - i
  {
    if i < |m.files| {
      var f := m.files[i];
      var data := remote(i + 1, f.name).value;
      InstallSucceeds(env, remote, fault, text, m, i + 1,
          (files[PartialOf(f.name) := data] - {PartialOf(f.name)})[f.name := data]);
    }
  }

  /** A conflicted bundle, served whole, warms up with a file that is not what its manifest lists. */
  lemma ConflictWarmsUp(env: Env, text: string, m: AssetManifest) returns (e: Event)
    requires env.Valid() && env.parse(text) == Some(m) && MarkerInert(env, m) && Conflicted(env, m)
    ensures Serves(env, m, e) && !CheckIsSound(env, Apply(env, map[], e))
  {
    hide Lasts, Listed, Laid, SizesAgree, HashesAgree, AllLast, Kept, Obtainable, MarkerInert;
    var served := text;
    if !m.SparesMarker() {
      served :| env.parse(served) == Some(m) && MarkerFits(m, |served|);
    }
    var contents := ContentsFor(env, m, |m.files|);
    var remote: Remote := (k: nat, name: string) =>
        if k == 0 then Some(served) else if k <= |contents| then Some(contents[k - 1]) else None;
    var fault := Fault(2 * |m.files| + 3, None, None);
    e := Provision(remote, fault);
    InstallSucceeds(env, remote, fault, served, m, 0, map[] - {MANIFEST_FILE});
    SuccessIsReady(env, remote, fault, map[]);
  }

  /** For a bundle that installs nothing that is taken for a manifest, as every bundle that does not list
      `manifest.json`, the warm check is sound in every sequence of runs and deletions if and only if the bundle is
      not conflicted. */
  lemma AlwaysSoundExactly(env: Env, text: string, m: AssetManifest)
    requires env.Valid() && env.parse(text) == Some(m) && MarkerInert(env, m)
    ensures AlwaysSound(env, m) <==> !Conflicted(env, m)
  {
    hide Conflicted, CheckIsSound, Apply, MarkerInert;
    if Conflicted(env, m) {
      var e := ConflictWarmsUp(env, text, m);
      assert [e][..0] == [];
      assert Run(env, map[], [e]) == Apply(env, map[], e);
      assert forall i :: 0 <= i < |[e]| ==> Serves(env, m, [e][i]);
    } else {
      forall events: seq<Event> | forall i :: 0 <= i < |events| ==> Serves(env, m, events[i])
        ensures CheckIsSound(env, Run(env, map[], events))
      {
        forall i | 0 <= i < |events|
          ensures EventOk(env, events[i])
        {
          assert Serves(env, m, events[i]);
        }
        WarmCheckIsSound(env, events);
      }
    }
  }

  // ----- instances -----

  /** One name listed twice with different contents of one size is a conflict; listed twice alike, or with two sizes, it
      is none. */
  lemma TwoEntries(env: Env, name: string, a: string, b: string)
    requires name != MANIFEST_FILE && !IsPartial(name)
    ensures
      var m := AssetManifest([AssetFile(name, |a|, env.sha(a)), AssetFile(name, |b|, env.sha(b))]);
      Conflicted(env, m) <==> |a| == |b| && env.sha(a) != env.sha(b)
  {
    hide AllLast, SizesAgree, HashesAgree, MarkerFits;
    var m := AssetManifest([AssetFile(name, |a|, env.sha(a)), AssetFile(name, |b|, env.sha(b))]);
    assert Obtainable(env, m.files[0]) && Obtainable(env, m.files[1]);
    TwoAgree(m, name);
    TwoLast(m, name);
  }

  lemma TwoAgree(m: AssetManifest, name: string)
    requires |m.files| == 2 && m.files[0].name == m.files[1].name == name
    ensures SizesAgree(m) <==> m.files[0].bytes == m.files[1].bytes
    ensures HashesAgree(m) <==> m.files[0].sha256 == m.files[1].sha256
  {
  }

  lemma TwoLast(m: AssetManifest, name: string)
    requires |m.files| == 2 && m.files[0].name == m.files[1].name == name && !IsPartial(name)
    ensures AllLast(m)
  {
    PartialIsLonger(name);
    forall i | 0 <= i < 2
      ensures Lasts(m, 2, m.files[i].name)
    {
    }
  }

  lemma SparedMarkerIsInert(env: Env, m: AssetManifest)
    requires m.SparesMarker()
    ensures MarkerInert(env, m)
  {
  }

  /** A bundle that lists `manifest.json` may put a foreign manifest in the marker's place in mid-run; if the run stops
      before it writes its own marker, the warm check believes the foreign one. */
  lemma MarkerEntryIsUnsound(env: Env, remote: Remote, text: string, foreign: string, a: string, b: string)
    requires env.parse(text) ==
        Some(AssetManifest([AssetFile("y", |a|, env.sha(a)), AssetFile(MANIFEST_FILE, |foreign|, env.sha(foreign))]))
    requires env.parse(foreign) == Some(AssetManifest([AssetFile("y", |b|, env.sha(b))]))
    requires |a| == |b| && env.sha(a) != env.sha(b)
    requires remote(0, MANIFEST_FILE) == Some(text) && remote(1, "y") == Some(a) &&
        remote(2, MANIFEST_FILE) == Some(foreign)
    ensures !CheckIsSound(env, Provisioned(env, remote, Fault(6, None, None), map[]).files)
  {
    var m := env.parse(text).value;
    var none: Files := map[];
    assert none - {MANIFEST_FILE} == none;
    var one := (none[PartialOf("y") := a] - {PartialOf("y")})["y" := a];
    var two := (one[PartialOf(MANIFEST_FILE) := foreign] - {PartialOf(MANIFEST_FILE)})[MANIFEST_FILE := foreign];
    var fault := Fault(6, None, None);
    assert InstallFrom(env, remote, fault, text, m, 2, two) == Outcome(two, false);
    assert InstallFrom(env, remote, fault, text, m, 1, one) == InstallFrom(env, remote, fault, text, m, 2, two);
    assert InstallFrom(env, remote, fault, text, m, 0, none) == InstallFrom(env, remote, fault, text, m, 1, one);
    PartialIsLonger(MANIFEST_FILE);
    assert MANIFEST_FILE[0] == 'm' && "y"[0] == 'y' && PartialOf(MANIFEST_FILE)[0] == '.';
    assert two["y"] == a && two[MANIFEST_FILE] == foreign;
    assert env.parse(foreign).value.files[0] in env.parse(foreign).value.files;
  }
}
