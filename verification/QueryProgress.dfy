/** What becomes of the requests of `QueryCache`: an undisturbed request is answered with the pair the pointers say, and
    a request whose version moves under its bootstrap starts over once. */
module QueryProgress {
  import opened Wrappers
  import opened QueryCache

  /** Request `id` runs on alone; the flags say which of its reads and builds succeed. */
  function Alone(s: State, id: nat, version: bool, release: bool, manifest: bool, build: bool): State
    requires s.log != []
  {
    Resolved(Loaded(s, id, version, release), id, manifest, build)
  }

  function Loaded(s: State, id: nat, version: bool, release: bool): (s': State)
    requires s.log != []
    ensures s'.log == s.log
  {
    OnLoadRelease(OnLoadVersion(s, id, version), id, release)
  }

  function Resolved(s: State, id: nat, manifest: bool, build: bool): State
    requires s.log != []
  {
    OnReply(OnBuild(OnReadManifest(OnLock(s, id), id, manifest), id, build), id)
  }

  /** Both pointers are read, or the request fails. */
  lemma KeyLoaded(s: State, id: nat, version: bool, release: bool)
    requires s.log != [] && PcOf(s, id).Loading?
    ensures
      var s' := Loaded(s, id, version, release);
      && s' == s.(requests := s.requests[id := PcOf(s', id)])
      && (PcOf(s', id).HasKey? <==> version && release) && (PcOf(s', id).Failed? <==> !(version && release))
      && (version && release ==> PcOf(s', id).key == s.log[|s.log| - 1])
  {
  }

  /** A key just loaded is served from the cache or built. */
  lemma KeyResolved(s: State, id: nat, manifest: bool, build: bool)
    requires s.log != [] && CacheOk(s.cache) && s.mutex == None
    requires PcOf(s, id).HasKey? && PcOf(s, id).key == s.log[|s.log| - 1]
    ensures
      var pair, s' := s.log[|s.log| - 1], Resolved(s, id, manifest, build);
      var served := (s.cache.Some? && s.cache.value.key == pair) || (manifest && build);
      && (PcOf(s', id).Answered? <==> served) && (PcOf(s', id).Failed? <==> !served)
      && (served ==> PcOf(s', id).response == Response(pair.version, pair.releaseId))
      && (served ==> s'.cache.Some? && s'.cache.value.key == pair && BuiltFor(s'.cache.value.handler, pair))
      && (!served ==> s'.cache == s.cache)
      && s'.log == s.log && s'.mutex == None && s'.requests == s.requests[id := PcOf(s', id)]
  {
    var locked := OnLock(s, id);
    if s.cache.Some? && s.cache.value.key == s.log[|s.log| - 1] {
      assert PcOf(locked, id).HasHandler?;
    } else {
      assert PcOf(locked, id).Missed? && locked.mutex == Some(id);
      assert PcOf(OnReadManifest(locked, id, manifest), id).Building? <==> manifest;
    }
  }

  lemma FailedStays(s: State, id: nat, manifest: bool, build: bool)
    requires s.log != [] && PcOf(s, id).Failed?
    ensures Resolved(s, id, manifest, build) == s
  {
  }

  /** An undisturbed request is answered if and only if both pointers are read and the pair they form is cached or
      built; the answer names that pair, which is then the cached one. Otherwise it fails and the cache stays. */
  lemma AnsweredExactly(s: State, id: nat, version: bool, release: bool, manifest: bool, build: bool)
    requires Inv(s) && s.mutex == None && PcOf(s, id).Loading?
    ensures
      var pair, s' := s.log[|s.log| - 1], Alone(s, id, version, release, manifest, build);
      var served := version && release && ((s.cache.Some? && s.cache.value.key == pair) || (manifest && build));
      && (PcOf(s', id).Answered? <==> served) && (PcOf(s', id).Failed? <==> !served)
      && (served ==> PcOf(s', id).response == Response(pair.version, pair.releaseId))
      && (served ==> s'.cache.Some? && s'.cache.value.key == pair && BuiltFor(s'.cache.value.handler, pair))
      && (!served ==> s'.cache == s.cache)
      && s'.log == s.log && s'.mutex == None && OthersStay(s, s', id)
  {
    hide Inv, Loaded, Resolved;
    InvParts(s);
    KeyLoaded(s, id, version, release);
    var loaded := Loaded(s, id, version, release);
    if version && release {
      KeyResolved(loaded, id, manifest, build);
    } else {
      FailedStays(loaded, id, manifest, build);
    }
  }

  ghost predicate OthersStay(s: State, s': State, id: nat) {
    && s'.requests.Keys == s.requests.Keys + {id}
    && forall i :: i in s.requests && i != id ==> s'.requests[i] == s.requests[i]
  }

  /** The version has moved under a request's bootstrap: the first attempt loads again, the second gives up. Either way
      the mutex is free and the cache as it was. */
  lemma RetriesOnce(s: State, id: nat)
    requires Inv(s) && PcOf(s, id).Missed? && s.log[|s.log| - 1].version != PcOf(s, id).key.version
    ensures
      var s' := OnReadManifest(s, id, true);
      && (PcOf(s, id).attempt == 1 ==> PcOf(s', id) == Loading(2, |s.log| - 1))
      && (PcOf(s, id).attempt == 2 ==> PcOf(s', id) == Failed)
      && s'.mutex == None && s'.cache == s.cache && OthersStay(s, s', id)
  {
    hide Inv;
    RequestIs(s, id);
    InvParts(s);
  }

  /** While one request bootstraps, no other request takes the mutex, whatever key it has. */
  lemma OthersWait(s: State, id: nat, other: nat)
    requires Inv(s) && InCriticalSection(PcOf(s, id)) && other != id
    ensures OnLock(s, other) == s
  {
    hide Inv;
    RequestIs(s, id);
  }
}
