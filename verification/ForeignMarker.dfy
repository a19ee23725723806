/** Bundles that list `manifest.json` among their files: exactly when the warm check of src/embedding/model_assets.rs
    can take what such an entry installs, or the bundle's own marker, for a complete bundle whose hashes do not hold.
    */
module ForeignMarker {
  import opened Wrappers
  import opened ModelAssets

  /** Entry `k` is `manifest.json`; names differ and none is a partial name. */
  predicate ListsMarkerOnce(m: AssetManifest, k: nat) {
    && k < |m.files| && m.files[k].name == MANIFEST_FILE
    && (forall i, j :: 0 <= i < j < |m.files| ==> m.files[i].name != m.files[j].name)
    && (forall i :: 0 <= i < |m.files| ==> !IsPartial(m.files[i].name))
  }

  ghost predicate FirstObtainable(env: Env, m: AssetManifest, n: nat) {
    n <= |m.files| && forall i :: 0 <= i < n ==> Obtainable(env, m.files[i])
  }

  predicate IsContent(env: Env, f: AssetFile, data: string) {
    |data| == f.bytes && env.sha(data) == f.sha256
  }

  // ----- the condition -----

  /** A run can leave a file under `g`'s name, of its size: the marker content, another entry's content, or whatever a
      stop leaves of a later entry's partial file. */
  ghost predicate Supplied(env: Env, m: AssetManifest, k: nat, marker: string, g: AssetFile) {
    || (g.name == MANIFEST_FILE && |marker| == g.bytes)
    || (exists j: nat ::
        j < |m.files| && j != k && m.files[j].name == g.name && m.files[j].bytes == g.bytes &&
        FirstObtainable(env, m, j + 1))
    || (exists j: nat :: k < j < |m.files| && PartialOf(m.files[j].name) == g.name && FirstObtainable(env, m, j))
  }

  /** And that file can have another hash. */
  ghost predicate Differs(env: Env, m: AssetManifest, k: nat, marker: string, f: AssetFile) {
    || (f.name == MANIFEST_FILE && env.sha(marker) != f.sha256)
    || (exists j: nat :: j < |m.files| && j != k && m.files[j].name == f.name && m.files[j].sha256 != f.sha256)
    || ((exists j: nat :: k < j < |m.files| && PartialOf(m.files[j].name) == f.name)
        && exists data: string :: |data| == f.bytes && env.sha(data) != f.sha256)
  }

  /** What the marker's entry installs reads as a manifest whose files runs can supply, not all with their hashes. */
  ghost predicate Deceives(env: Env, m: AssetManifest, k: nat, marker: string)
    requires k < |m.files|
  {
    && IsContent(env, m.files[k], marker) && FirstObtainable(env, m, k) && env.parse(marker).Some?
    && var foreign := env.parse(marker).value;
      && SizesAgree(foreign)
      && (forall g :: g in foreign.files ==> Supplied(env, m, k, marker, g))
      && (exists f :: f in foreign.files && Differs(env, m, k, marker, f))
  }

  /** The bundle can be installed whole under a manifest that has the size listed for it and another hash. */
  ghost predicate Misdescribes(env: Env, m: AssetManifest, k: nat, text: string)
    requires k < |m.files|
  {
    FirstObtainable(env, m, |m.files|) && env.parse(text) == Some(m) && |text| == m.files[k].bytes &&
        env.sha(text) != m.files[k].sha256
  }

  ghost predicate TakenOver(env: Env, m: AssetManifest, k: nat)
    requires k < |m.files|
  {
    (exists marker :: Deceives(env, m, k, marker)) || (exists text :: Misdescribes(env, m, k, text))
  }

  // ----- what runs leave -----

  /** A file other than the marker is an entry's content, or what was left of a partial file. */
  ghost predicate FileKnown(env: Env, m: AssetManifest, k: nat, p: string, data: string) {
    || (exists j: nat ::
        j < |m.files| && j != k && m.files[j].name == p && IsContent(env, m.files[j], data) &&
        FirstObtainable(env, m, j + 1))
    || (exists j: nat :: j < |m.files| && PartialOf(m.files[j].name) == p && FirstObtainable(env, m, j))
  }

  ghost predicate FilesKnown(env: Env, m: AssetManifest, k: nat, files: Files) {
    forall p :: p in files && p != MANIFEST_FILE ==> FileKnown(env, m, k, p, files[p])
  }

  /** The first `n` entries have no partial files. */
  predicate NoPartials(m: AssetManifest, n: nat, files: Files) {
    n <= |m.files| && forall j :: 0 <= j < n ==> PartialOf(m.files[j].name) !in files
  }

  /** Between two entries of a run. */
  ghost predicate MidRun(env: Env, m: AssetManifest, k: nat, n: nat, files: Files)
    requires k < |m.files|
  {
    && FilesKnown(env, m, k, files) && FirstObtainable(env, m, n) && NoPartials(m, n, files)
    && (MANIFEST_FILE in files ==> k < n && IsContent(env, m.files[k], files[MANIFEST_FILE]))
  }

  /** Wherever a run stopped: the marker is what its entry installs, or the run's own, whole or cut off. */
  ghost predicate Left(env: Env, m: AssetManifest, k: nat, files: Files)
    requires k < |m.files|
  {
    && FilesKnown(env, m, k, files)
    && (MANIFEST_FILE in files ==>
          && FirstObtainable(env, m, k + 1) && NoPartials(m, k + 1, files)
          && (IsContent(env, m.files[k], files[MANIFEST_FILE])
              || (FirstObtainable(env, m, |m.files|) &&
                  (env.parse(files[MANIFEST_FILE]).Some? ==> env.parse(files[MANIFEST_FILE]) == Some(m)))))
  }

  lemma InstallStaysMid(env: Env, m: AssetManifest, k: nat, n: nat, files: Files, data: string)
    requires ListsMarkerOnce(m, k) && n < |m.files| && MidRun(env, m, k, n, files) && IsContent(env, m.files[n], data)
    ensures var name := m.files[n].name;
            MidRun(env, m, k, n + 1, (files[PartialOf(name) := data] - {PartialOf(name)})[name := data])
  {
    hide FileKnown;
    var name := m.files[n].name;
    var files' := (files[PartialOf(name) := data] - {PartialOf(name)})[name := data];
    assert Obtainable(env, m.files[n]);
    PartialIsLonger(name);
    forall p | p in files' && p != MANIFEST_FILE
      ensures FileKnown(env, m, k, p, files'[p])
    {
      if p == name {
        EntryKnown(env, m, k, n, data);
      }
    }
    forall j | 0 <= j < n + 1
      ensures PartialOf(m.files[j].name) !in files'
    {
      PartialIsLonger(m.files[j].name);
    }
  }

  lemma EntryKnown(env: Env, m: AssetManifest, k: nat, n: nat, data: string)
    requires n < |m.files| && n != k && IsContent(env, m.files[n], data) && FirstObtainable(env, m, n + 1)
    ensures FileKnown(env, m, k, m.files[n].name, data)
  {
  }

  lemma StopLeaves(env: Env, m: AssetManifest, k: nat, n: nat, files: Files, data: string)
    requires ListsMarkerOnce(m, k) && n < |m.files| && MidRun(env, m, k, n, files)
    ensures Left(env, m, k, files) && Left(env, m, k, files[PartialOf(m.files[n].name) := data])
  {
    hide FileKnown;
    var partial := PartialOf(m.files[n].name);
    PartialIsLonger(m.files[n].name);
    assert FileKnown(env, m, k, partial, data) by {
      PartialKnown(env, m, k, n, data);
    }
    forall j | 0 <= j < n
      ensures PartialOf(m.files[j].name) != partial
    {
      PartialsDiffer(m.files[j].name, m.files[n].name);
    }
  }

  lemma PartialKnown(env: Env, m: AssetManifest, k: nat, n: nat, data: string)
    requires n < |m.files| && FirstObtainable(env, m, n)
    ensures FileKnown(env, m, k, PartialOf(m.files[n].name), data)
  {
  }

  lemma PartialsDiffer(a: string, b: string)
    ensures PartialOf(a) == PartialOf(b) ==> a == b
  {
    assert PartialOf(a)[|PARTIAL_PREFIX|..] == a && PartialOf(b)[|PARTIAL_PREFIX|..] == b;
  }

  lemma MarkLeaves(env: Env, m: AssetManifest, k: nat, files: Files, text: string, n: nat)
    requires env.Valid() && ListsMarkerOnce(m, k) && MidRun(env, m, k, |m.files|, files) &&
        env.parse(text) == Some(m) && n <= |text|
    ensures Left(env, m, k, files) && Left(env, m, k, files[MANIFEST_FILE := text[..n]])
  {
    hide FileKnown;
    forall j | 0 <= j < |m.files|
      ensures PartialOf(m.files[j].name) != MANIFEST_FILE
    {
      PartialIsLonger(m.files[j].name);
    }
  }

  lemma {:induction false} InstallLeft(env: Env, remote: Remote, fault: Fault, text: string, m: AssetManifest, k: nat,
      i: nat, files: Files)
    requires env.Valid() && env.parse(text) == Some(m) && ListsMarkerOnce(m, k) && i <= |m.files| &&
        MidRun(env, m, k, i, files)
    ensures Left(env, m, k, InstallFrom(env, remote, fault, text, m, i, files).files)
    decreases |m.files| - i
  {
    hide MidRun, Left, ListsMarkerOnce;
    if i == |m.files| {
      MarkLeaves(env, m, k, files, text,
          if fault.tear.None? then 0 else if fault.tear.value < |text| then fault.tear.value else |text|);
      MarkLeaves(env, m, k, files, text, |text|);
      assert text[..|text|] == text;
    } else {
      var f := m.files[i];
      var data := remote(i + 1, f.name);
      StopLeaves(env, m, k, i, files, if fault.garbage.None? then "" else fault.garbage.value);
      if data.Some? && fault.budget > 2 * i + 2 {
        StopLeaves(env, m, k, i, files, data.value);
        if IsContent(env, f, data.value) && fault.budget > 2 * i + 3 {
          InstallStaysMid(env, m, k, i, files, data.value);
          InstallLeft(env, remote, fault, text, m, k, i + 1,
              (files[PartialOf(f.name) := data.value] - {PartialOf(f.name)})[f.name := data.value]);
        }
      }
    }
  }

  lemma StepLeaves(env: Env, m: AssetManifest, k: nat, files: Files, e: Event)
    requires env.Valid() && ListsMarkerOnce(m, k) && Serves(env, m, e) && Left(env, m, k, files)
    ensures Left(env, m, k, Apply(env, files, e))
  {
    hide FileKnown, AssetsReady, InstallFrom;
    if e.Provision? && !AssetsReady(env, files) && e.fault.budget > 1 && Served(env, e.remote).Some? {
      InstallLeft(env, e.remote, e.fault, e.remote(0, MANIFEST_FILE).value, m, k, 0, files - {MANIFEST_FILE});
    }
  }

  lemma {:induction false} RunLeaves(env: Env, m: AssetManifest, k: nat, events: seq<Event>)
    requires env.Valid() && ListsMarkerOnce(m, k) && forall i :: 0 <= i < |events| ==> Serves(env, m, events[i])
    ensures Left(env, m, k, Run(env, map[], events))
  {
    hide Serves, Apply;
    if events != [] {
      var n := |events| - 1;
      RunLeaves(env, m, k, events[..n]);
      StepLeaves(env, m, k, Run(env, map[], events[..n]), events[n]);
    }
  }

  // ----- soundness -----

  /** A known file of a listed size under a listed name is one that can be supplied, and differs if it does not match.
      */
  lemma KnownIsSupplied(env: Env, m: AssetManifest, k: nat, files: Files, f: AssetFile)
    requires ListsMarkerOnce(m, k) && Left(env, m, k, files) && MANIFEST_FILE in files && f.name in files &&
        |files[f.name]| == f.bytes
    ensures Supplied(env, m, k, files[MANIFEST_FILE], f)
    ensures env.sha(files[f.name]) != f.sha256 ==> Differs(env, m, k, files[MANIFEST_FILE], f)
  {
    if f.name != MANIFEST_FILE {
      assert FileKnown(env, m, k, f.name, files[f.name]);
      if j: nat :| j < |m.files| && PartialOf(m.files[j].name) == f.name && FirstObtainable(env, m, j) {
        assert k < j;
      }
    }
  }

  lemma SoundIfLeft(env: Env, m: AssetManifest, k: nat, files: Files)
    requires ListsMarkerOnce(m, k) && Left(env, m, k, files) && !CheckIsSound(env, files)
    ensures TakenOver(env, m, k)
  {
    hide Supplied, Differs, FileKnown;
    var marker := files[MANIFEST_FILE];
    var foreign := env.parse(marker).value;
    var f :| f in foreign.files && env.sha(files[f.name]) != f.sha256;
    if IsContent(env, m.files[k], marker) {
      forall g | g in foreign.files
        ensures Supplied(env, m, k, marker, g)
      {
        KnownIsSupplied(env, m, k, files, g);
      }
      KnownIsSupplied(env, m, k, files, f);
      ReadySizesAgree(env, files);
      assert Deceives(env, m, k, marker);
    } else {
      assert m.files[k] in m.files;
      assert Misdescribes(env, m, k, marker);
    }
  }

  lemma ReadySizesAgree(env: Env, files: Files)
    requires AssetsReady(env, files)
    ensures SizesAgree(env.parse(files[MANIFEST_FILE]).value)
  {
    var m := env.parse(files[MANIFEST_FILE]).value;
    assert forall i :: 0 <= i < |m.files| ==> m.files[i] in m.files;
  }

  // ----- the deceiving runs -----

  /** What installing entries `i` to `n` makes of `files`. */
  function Filled(m: AssetManifest, contents: seq<string>, i: nat, n: nat, files: Files): Files
    requires i <= n <= |m.files| && n <= |contents|
    decreases n - i
  {
    if i == n then files
    else
      var name := m.files[i].name;
      Filled(m, contents, i + 1, n, (files[PartialOf(name) := contents[i]] - {PartialOf(name)})[name := contents[i]])
  }

  predicate Untouched(m: AssetManifest, i: nat, n: nat, p: string)
    requires n <= |m.files|
  {
    forall j :: i <= j < n ==> p != m.files[j].name && p != PartialOf(m.files[j].name)
  }

  lemma {:induction false} FilledKeeps(m: AssetManifest, contents: seq<string>, i: nat, n: nat, files: Files, p: string)
    requires i <= n <= |m.files| && n <= |contents| && Untouched(m, i, n, p)
    ensures
      var filled := Filled(m, contents, i, n, files);
      (p in filled <==> p in files) && (p in files ==> filled[p] == files[p])
    decreases n - i
  {
    if i < n {
      var name := m.files[i].name;
      FilledKeeps(m, contents, i + 1, n,
          (files[PartialOf(name) := contents[i]] - {PartialOf(name)})[name := contents[i]], p);
    }
  }

  lemma {:induction false} FilledHas(m: AssetManifest, k: nat, contents: seq<string>, i: nat, n: nat, files: Files,
      j: nat)
    requires ListsMarkerOnce(m, k) && i <= j < n <= |m.files| && n <= |contents|
    ensures
      var filled := Filled(m, contents, i, n, files);
      m.files[j].name in filled && filled[m.files[j].name] == contents[j]
    decreases n - i
  {
    var name := m.files[i].name;
    var files' := (files[PartialOf(name) := contents[i]] - {PartialOf(name)})[name := contents[i]];
    if i < j {
      FilledHas(m, k, contents, i + 1, n, files', j);
    } else {
      NameUntouched(m, k, i, n);
      FilledKeeps(m, contents, i + 1, n, files', name);
    }
  }

  lemma NameUntouched(m: AssetManifest, k: nat, i: nat, n: nat)
    requires ListsMarkerOnce(m, k) && i < n <= |m.files|
    ensures Untouched(m, i + 1, n, m.files[i].name)
  {
    forall j | i + 1 <= j < n
      ensures m.files[i].name != PartialOf(m.files[j].name)
    {
      PartialIsLonger(m.files[j].name);
    }
  }

  /** A remote that serves `text` and these contents. */
  function Source(text: string, contents: seq<string>): Remote {
    (k: nat, name: string) => if k == 0 then Some(text) else if k <= |contents| then Some(contents[k - 1]) else None
  }

  ghost predicate AreContents(env: Env, m: AssetManifest, contents: seq<string>) {
    |contents| <= |m.files| && forall j :: 0 <= j < |contents| ==> IsContent(env, m.files[j], contents[j])
  }

  lemma {:induction false} InstallFills(env: Env, text: string, contents: seq<string>, fault: Fault, m: AssetManifest,
      i: nat, n: nat, files: Files)
    requires AreContents(env, m, contents) && i <= n <= |contents| && fault.budget > 2 * n + 1
    ensures
      InstallFrom(env, Source(text, contents), fault, text, m, i, files)
      == InstallFrom(env, Source(text, contents), fault, text, m, n, Filled(m, contents, i, n, files))
    decreases n - i
  {
    if i < n {
      assert IsContent(env, m.files[i], contents[i]);
      var name := m.files[i].name;
      InstallFills(env, text, contents, fault, m, i + 1, n,
          (files[PartialOf(name) := contents[i]] - {PartialOf(name)})[name := contents[i]]);
    }
  }

  /** The run stops at entry `n`, leaving `garbage` of it. */
  function StopAt(text: string, contents: seq<string>, n: nat, garbage: string): Event {
    Provision(Source(text, contents), Fault(2 * n + 2, Some(garbage), None))
  }

  lemma StopAtLeaves(env: Env, m: AssetManifest, text: string, contents: seq<string>, n: nat, garbage: string,
      files: Files)
    requires env.parse(text) == Some(m) && AreContents(env, m, contents) && n <= |contents| && MANIFEST_FILE !in files
    ensures
      var filled := Filled(m, contents, 0, n, files);
      Apply(env, files, StopAt(text, contents, n, garbage)) ==
          if n < |m.files| then filled[PartialOf(m.files[n].name) := garbage] else filled
  {
    InstallFills(env, text, contents, Fault(2 * n + 2, Some(garbage), None), m, 0, n, files);
    assert files - {MANIFEST_FILE} == files;
  }

  /** All of `contents` are installed, `marker` among them, and partial files from entry `n` on hold what they are to
      hold. */
  ghost predicate Stocked(m: AssetManifest, k: nat, contents: seq<string>, garbage: string -> string, n: nat,
      files: Files)
    requires |contents| <= |m.files|
  {
    && (forall j :: 0 <= j < |contents| ==> m.files[j].name in files && files[m.files[j].name] == contents[j])
    && (forall j :: n <= j < |m.files| && j <= |contents| ==>
          PartialOf(m.files[j].name) in files &&
              files[PartialOf(m.files[j].name)] == garbage(PartialOf(m.files[j].name)))
  }

  /** One more run, stopped at an earlier entry, restocks what it overwrites. */
  lemma StopStocks(env: Env, m: AssetManifest, k: nat, text: string, contents: seq<string>, garbage: string -> string,
      n: nat, files: Files)
    requires ListsMarkerOnce(m, k) && env.parse(text) == Some(m) && AreContents(env, m, contents) && k < n <= |contents|
    requires n == |contents| || Stocked(m, k, contents, garbage, n + 1, files)
    ensures
      var g := if n < |m.files| then garbage(PartialOf(m.files[n].name)) else "";
      Stocked(m, k, contents, garbage, n, Apply(env, files - {MANIFEST_FILE}, StopAt(text, contents, n, g)))
  {
    hide Apply, StopAt, AreContents, Stocked, Filled;
    ContentsFit(env, m, contents);
    var g := if n < |m.files| then garbage(PartialOf(m.files[n].name)) else "";
    var start := files - {MANIFEST_FILE};
    var filled := Filled(m, contents, 0, n, start);
    StopAtLeaves(env, m, text, contents, n, g, start);
    var after := if n < |m.files| then filled[PartialOf(m.files[n].name) := g] else filled;
    forall j | 0 <= j < |contents|
      ensures m.files[j].name in after && after[m.files[j].name] == contents[j]
    {
      NameStocked(m, k, contents, garbage, n, files, after, g, j);
    }
    forall j | n <= j < |m.files| && j <= |contents|
      ensures PartialOf(m.files[j].name) in after &&
          after[PartialOf(m.files[j].name)] == garbage(PartialOf(m.files[j].name))
    {
      PartialStocked(m, k, contents, garbage, n, files, after, g, j);
    }
    StockedFrom(m, k, contents, garbage, n, after);
  }

  lemma StockedFrom(m: AssetManifest, k: nat, contents: seq<string>, garbage: string -> string, n: nat, files: Files)
    requires |contents| <= |m.files|
    requires forall j :: 0 <= j < |contents| ==> m.files[j].name in files && files[m.files[j].name] == contents[j]
    requires
      forall j :: n <= j < |m.files| && j <= |contents| ==>
        PartialOf(m.files[j].name) in files && files[PartialOf(m.files[j].name)] == garbage(PartialOf(m.files[j].name))
    ensures Stocked(m, k, contents, garbage, n, files)
  {
  }

  lemma NameStocked(m: AssetManifest, k: nat, contents: seq<string>, garbage: string -> string, n: nat, files: Files,
      after: Files, g: string, j: nat)
    requires ListsMarkerOnce(m, k) && k < n <= |contents| <= |m.files| &&
        (n == |contents| || Stocked(m, k, contents, garbage, n + 1, files))
    requires
      var filled := Filled(m, contents, 0, n, files - {MANIFEST_FILE});
      after == if n < |m.files| then filled[PartialOf(m.files[n].name) := g] else filled
    requires j < |contents|
    ensures m.files[j].name in after && after[m.files[j].name] == contents[j]
  {
    hide Filled;
    if n < |m.files| {
      PartialIsLonger(m.files[n].name);
    }
    if n <= j {
      LaterUntouched(m, k, n, j);
      FilledKeeps(m, contents, 0, n, files - {MANIFEST_FILE}, m.files[j].name);
    } else {
      FilledHas(m, k, contents, 0, n, files - {MANIFEST_FILE}, j);
    }
  }

  lemma PartialStocked(m: AssetManifest, k: nat, contents: seq<string>, garbage: string -> string, n: nat, files: Files,
      after: Files, g: string, j: nat)
    requires ListsMarkerOnce(m, k) && k < n <= |contents| <= |m.files| &&
        (n == |contents| || Stocked(m, k, contents, garbage, n + 1, files))
    requires
      var filled := Filled(m, contents, 0, n, files - {MANIFEST_FILE});
      after == if n < |m.files| then filled[PartialOf(m.files[n].name) := g] else filled
    requires n <= j < |m.files| && j <= |contents| && g == garbage(PartialOf(m.files[n].name))
    ensures PartialOf(m.files[j].name) in after &&
        after[PartialOf(m.files[j].name)] == garbage(PartialOf(m.files[j].name))
  {
    hide Filled;
    if n < j {
      LaterUntouched(m, k, n, j);
      FilledKeeps(m, contents, 0, n, files - {MANIFEST_FILE}, PartialOf(m.files[j].name));
      PartialsDiffer(m.files[j].name, m.files[n].name);
    }
  }

  lemma ContentsFit(env: Env, m: AssetManifest, contents: seq<string>)
    requires AreContents(env, m, contents)
    ensures |contents| <= |m.files|
  {
  }

  lemma LaterUntouched(m: AssetManifest, k: nat, n: nat, j: nat)
    requires ListsMarkerOnce(m, k) && k < n <= j < |m.files|
    ensures Untouched(m, 0, n, m.files[j].name) && Untouched(m, 0, n, PartialOf(m.files[j].name))
    ensures m.files[j].name != MANIFEST_FILE && PartialOf(m.files[j].name) != MANIFEST_FILE
  {
    PartialIsLonger(m.files[j].name);
    forall i | 0 <= i < n
      ensures m.files[j].name != m.files[i].name && m.files[j].name != PartialOf(m.files[i].name)
      ensures PartialOf(m.files[j].name) != m.files[i].name && PartialOf(m.files[j].name) != PartialOf(m.files[i].name)
    {
      PartialIsLonger(m.files[i].name);
      PartialsDiffer(m.files[j].name, m.files[i].name);
    }
  }

  /** Runs stopped at ever earlier entries stock the directory. */
  lemma {:induction false} Stocking(env: Env, m: AssetManifest, k: nat, text: string, contents: seq<string>,
      garbage: string -> string, n: nat)
    returns (events: seq<Event>)
    requires ListsMarkerOnce(m, k) && env.parse(text) == Some(m) && AreContents(env, m, contents) && k < n <= |contents|
    ensures forall i :: 0 <= i < |events| ==> Serves(env, m, events[i])
    ensures Stocked(m, k, contents, garbage, n, Run(env, map[], events))
    decreases |contents| - n
  {
    hide Apply, Stocked, AreContents;
    ContentsFit(env, m, contents);
    events := [];
    if n < |contents| {
      events := Stocking(env, m, k, text, contents, garbage, n + 1);
    }
    var g := if n < |m.files| then garbage(PartialOf(m.files[n].name)) else "";
    var files := Run(env, map[], events);
    StopStocks(env, m, k, text, contents, garbage, n, files);
    TwoMore(env, events, Delete(MANIFEST_FILE), StopAt(text, contents, n, g));
    assert Apply(env, files, Delete(MANIFEST_FILE)) == files - {MANIFEST_FILE} by {
      DeleteRemoves(env, files);
    }
    events := events + [Delete(MANIFEST_FILE)] + [StopAt(text, contents, n, g)];
  }

  lemma DeleteRemoves(env: Env, files: Files)
    ensures Apply(env, files, Delete(MANIFEST_FILE)) == files - {MANIFEST_FILE}
  {
  }

  lemma TwoMore(env: Env, events: seq<Event>, d: Event, e: Event)
    ensures Run(env, map[], events + [d] + [e]) == Apply(env, Apply(env, Run(env, map[], events), d), e)
  {
    hide Apply;
    assert (events + [d])[..|events|] == events && (events + [d] + [e])[..|events| + 1] == events + [d];
  }

  lemma {:induction false} Longest(env: Env, m: AssetManifest, n: nat) returns (longest: nat)
    requires FirstObtainable(env, m, n)
    ensures n <= longest && FirstObtainable(env, m, longest) && forall l: nat ::
        FirstObtainable(env, m, l) ==> l <= longest
    decreases |m.files| - n
  {
    hide Obtainable;
    if FirstObtainable(env, m, n + 1) {
      longest := Longest(env, m, n + 1);
    } else {
      longest := n;
    }
  }

  lemma {:induction false} ContentsWith(env: Env, m: AssetManifest, k: nat, marker: string, n: nat)
      returns (contents: seq<string>)
    requires k < |m.files| && FirstObtainable(env, m, n) && IsContent(env, m.files[k], marker)
    ensures |contents| == n && AreContents(env, m, contents) && (k < n ==> contents[k] == marker)
  {
    if n == 0 {
      contents := [];
    } else {
      contents := ContentsWith(env, m, k, marker, n - 1);
      assert Obtainable(env, m.files[n - 1]);
      var data: string :| |data| == m.files[n - 1].bytes && env.sha(data) == m.files[n - 1].sha256;
      contents := contents + [if n - 1 == k then marker else data];
    }
  }

  /** A content for the file `p` that its entries in `foreign` list the size of, with another hash if there is one. */
  ghost predicate Garbles(env: Env, foreign: AssetManifest, p: string, data: string) {
    exists f :: f in foreign.files && f.name == p && |data| == f.bytes && env.sha(data) != f.sha256
  }

  ghost function Garbage(env: Env, foreign: AssetManifest, p: string): string {
    if exists data: string :: Garbles(env, foreign, p, data) then
      var data: string :| Garbles(env, foreign, p, data); data
    else if exists f :: f in foreign.files && f.name == p then
      var f :| f in foreign.files && f.name == p; seq(f.bytes, _ => 'x')
    else ""
  }

  lemma GarbageFits(env: Env, foreign: AssetManifest, g: AssetFile)
    requires SizesAgree(foreign) && g in foreign.files
    ensures |Garbage(env, foreign, g.name)| == g.bytes
  {
    hide SizesAgree;
    forall f | f in foreign.files && f.name == g.name
      ensures f.bytes == g.bytes
    {
      SameSize(foreign, f, g);
    }
  }

  lemma SameSize(foreign: AssetManifest, f: AssetFile, g: AssetFile)
    requires SizesAgree(foreign) && f in foreign.files && g in foreign.files && f.name == g.name
    ensures f.bytes == g.bytes
  {
    var i :| 0 <= i < |foreign.files| && foreign.files[i] == f;
    var j :| 0 <= j < |foreign.files| && foreign.files[j] == g;
  }

  // ----- the stocked directory deceives -----

  lemma StockSupplies(env: Env, m: AssetManifest, k: nat, contents: seq<string>, foreign: AssetManifest, files: Files,
      g: AssetFile)
    requires ListsMarkerOnce(m, k) && AreContents(env, m, contents) && k < |contents| && SizesAgree(foreign) &&
        g in foreign.files
    requires forall l: nat :: FirstObtainable(env, m, l) ==> l <= |contents|
    requires Stocked(m, k, contents, p => Garbage(env, foreign, p), k + 1, files) && Supplied(env, m, k, contents[k], g)
    ensures g.name in files && |files[g.name]| == g.bytes
  {
    hide Garbage, FirstObtainable, SizesAgree;
    GarbageFits(env, foreign, g);
    if g.name == MANIFEST_FILE && |contents[k]| == g.bytes {
      assert files[m.files[k].name] == contents[k];
    } else if j: nat :|
      j < |m.files| && j != k && m.files[j].name == g.name && m.files[j].bytes == g.bytes &&
          FirstObtainable(env, m, j + 1) {
      assert files[m.files[j].name] == contents[j] && IsContent(env, m.files[j], contents[j]);
    }
  }

  lemma StockDiffers(env: Env, m: AssetManifest, k: nat, contents: seq<string>, foreign: AssetManifest, files: Files,
      f: AssetFile)
    returns (bad: AssetFile)
    requires ListsMarkerOnce(m, k) && AreContents(env, m, contents) && k < |contents| && SizesAgree(foreign) &&
        f in foreign.files
    requires forall l: nat :: FirstObtainable(env, m, l) ==> l <= |contents|
    requires Stocked(m, k, contents, p => Garbage(env, foreign, p), k + 1, files)
    requires Supplied(env, m, k, contents[k], f) && Differs(env, m, k, contents[k], f)
    ensures bad in foreign.files && bad.name in files && env.sha(files[bad.name]) != bad.sha256
  {
    hide FirstObtainable, SizesAgree;
    bad := f;
    if f.name == MANIFEST_FILE {
      assert files[m.files[k].name] == contents[k];
    } else if j: nat :| j < |m.files| && j != k && m.files[j].name == f.name && m.files[j].sha256 != f.sha256 {
      EntrySupplied(env, m, k, contents[k], f, j);
      assert files[m.files[j].name] == contents[j] && IsContent(env, m.files[j], contents[j]);
    } else {
      var j: nat :| k < j < |m.files| && PartialOf(m.files[j].name) == f.name;
      var data: string :| |data| == f.bytes && env.sha(data) != f.sha256;
      assert Garbles(env, foreign, f.name, data);
      assert Garbles(env, foreign, f.name, Garbage(env, foreign, f.name));
      bad :| bad in foreign.files && bad.name == f.name && |Garbage(env, foreign, f.name)| == bad.bytes &&
          env.sha(Garbage(env, foreign, f.name)) != bad.sha256;
      PartialSupplied(env, m, k, contents[k], f, j);
    }
  }

  lemma EntrySupplied(env: Env, m: AssetManifest, k: nat, marker: string, f: AssetFile, j: nat)
    requires ListsMarkerOnce(m, k) && Supplied(env, m, k, marker, f) && j < |m.files| && j != k &&
        m.files[j].name == f.name
    ensures FirstObtainable(env, m, j + 1)
  {
    PartialIsLonger(MANIFEST_FILE);
    forall i | 0 <= i < |m.files|
      ensures PartialOf(m.files[i].name) != f.name
    {
      PartialIsLonger(m.files[i].name);
    }
    assert f.name != MANIFEST_FILE;
  }

  lemma PartialSupplied(env: Env, m: AssetManifest, k: nat, marker: string, f: AssetFile, j: nat)
    requires ListsMarkerOnce(m, k) && Supplied(env, m, k, marker, f) && k < j < |m.files| &&
        PartialOf(m.files[j].name) == f.name
    ensures FirstObtainable(env, m, j)
  {
    PartialIsLonger(m.files[j].name);
    if i: nat :| k < i < |m.files| && PartialOf(m.files[i].name) == f.name && FirstObtainable(env, m, i) {
      PartialsDiffer(m.files[i].name, m.files[j].name);
    }
  }

  lemma DeceivingRuns(env: Env, m: AssetManifest, k: nat, text: string, marker: string) returns (events: seq<Event>)
    requires ListsMarkerOnce(m, k) && env.parse(text) == Some(m) && Deceives(env, m, k, marker)
    ensures forall i :: 0 <= i < |events| ==> Serves(env, m, events[i])
    ensures !CheckIsSound(env, Run(env, map[], events))
  {
    hide Supplied, Differs, SizesAgree, Run, AreContents, Serves;
    var foreign := env.parse(marker).value;
    assert Obtainable(env, m.files[k]);
    var n := Longest(env, m, k + 1);
    var contents := ContentsWith(env, m, k, marker, n);
    events := Stocking(env, m, k, text, contents, p => Garbage(env, foreign, p), k + 1);
    var files := Run(env, map[], events);
    forall g | g in foreign.files
      ensures g.name in files && |files[g.name]| == g.bytes
    {
      StockSupplies(env, m, k, contents, foreign, files, g);
    }
    var f :| f in foreign.files && Differs(env, m, k, marker, f);
    var bad := StockDiffers(env, m, k, contents, foreign, files, f);
    assert files[m.files[k].name] == contents[k];
  }

  lemma MisdescribedRun(env: Env, m: AssetManifest, k: nat, text: string) returns (events: seq<Event>)
    requires ListsMarkerOnce(m, k) && Misdescribes(env, m, k, text)
    ensures forall i :: 0 <= i < |events| ==> Serves(env, m, events[i])
    ensures !CheckIsSound(env, Run(env, map[], events))
  {
    var n := |m.files|;
    assert Obtainable(env, m.files[k]);
    var marker: string :| |marker| == m.files[k].bytes && env.sha(marker) == m.files[k].sha256;
    var contents := ContentsWith(env, m, k, marker, n);
    var e := Provision(Source(text, contents), Fault(2 * n + 3, None, None));
    events := [e];
    assert [e][..0] == [];
    WholeRun(env, m, k, text, contents, e);
  }

  lemma WholeRun(env: Env, m: AssetManifest, k: nat, text: string, contents: seq<string>, e: Event)
    requires ListsMarkerOnce(m, k) && env.parse(text) == Some(m) && AreContents(env, m, contents) &&
        |contents| == |m.files|
    requires |text| == m.files[k].bytes && env.sha(text) != m.files[k].sha256
    requires e == Provision(Source(text, contents), Fault(2 * |m.files| + 3, None, None))
    ensures !CheckIsSound(env, Apply(env, map[], e))
  {
    var n := |m.files|;
    var none: Files := map[];
    assert none - {MANIFEST_FILE} == none;
    InstallFills(env, text, contents, e.fault, m, 0, n, none);
    var files := Filled(m, contents, 0, n, none)[MANIFEST_FILE := text];
    assert Apply(env, none, e) == files;
    forall f | f in m.files
      ensures f.name in files && |files[f.name]| == f.bytes
    {
      var j :| 0 <= j < n && m.files[j] == f;
      assert IsContent(env, m.files[j], contents[j]);
      FilledHas(m, k, contents, 0, n, none, j);
    }
    assert m.files[k] in m.files;
  }

  /** For a bundle that lists `manifest.json` once, with distinct names and no partial ones: the warm check is sound
      in every sequence of runs and deletions if and only if neither a manifest its entry installs nor its own can
      pass for a complete bundle whose hashes do not hold. */
  lemma SoundUnlessTakenOver(env: Env, text: string, m: AssetManifest, k: nat)
    requires env.Valid() && env.parse(text) == Some(m) && ListsMarkerOnce(m, k)
    ensures AlwaysSound(env, m) <==> !TakenOver(env, m, k)
  {
    hide CheckIsSound, Deceives, Misdescribes, Run, Serves, ListsMarkerOnce;
    assert k < |m.files| by { MarkerEntry(m, k); }
    if TakenOver(env, m, k) {
      if marker :| Deceives(env, m, k, marker) {
        var events := DeceivingRuns(env, m, k, text, marker);
      } else {
        var served :| Misdescribes(env, m, k, served);
        var events := MisdescribedRun(env, m, k, served);
      }
    } else {
      forall events: seq<Event> | forall i :: 0 <= i < |events| ==> Serves(env, m, events[i])
        ensures CheckIsSound(env, Run(env, map[], events))
      {
        RunLeaves(env, m, k, events);
        if !CheckIsSound(env, Run(env, map[], events)) {
          SoundIfLeft(env, m, k, Run(env, map[], events));
        }
      }
    }
  }

  lemma MarkerEntry(m: AssetManifest, k: nat)
    requires ListsMarkerOnce(m, k)
    ensures k < |m.files|
  {
  }
}
