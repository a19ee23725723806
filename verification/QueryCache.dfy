/** The handler cache of src/query_service.rs, keyed by the pair (dynamic version, static release id), shared by
    concurrent requests while both pointers move; with the key loading and bootstrap of src/query_lambda.rs and the two
    fields of src/query/router.rs that reach the response. */
module QueryCache {
  import opened Wrappers

  datatype Key = Key(version: nat, releaseId: Option<string>)

  /** A bootstrapped handler: its `FixedManifestStore`, the release directory it loaded, and the id it reports. */
  datatype Handler = Handler(manifestVersion: nat, staticDir: Option<string>, staticReleaseId: Option<string>)

  datatype Entry = Entry(key: Key, handler: Handler)

  datatype Response = Response(indexVersion: nat, staticReleaseId: Option<string>)

  datatype Error = VersionChangedDuringBootstrap | OtherError

  datatype Outcome = Built(handler: Handler) | Failure(error: Error)

  /** `bootstrap_query_embedding_handler`: `active` is the version of the manifest it re-reads, if that read succeeds;
      `builds` says whether the embedding engine and the release directory load. */
  function Bootstrap(key: Key, active: Option<nat>, builds: bool): Outcome {
    match active
    case None => Failure(OtherError)
    case Some(version) =>
      if version != key.version then Failure(VersionChangedDuringBootstrap)
      else if !builds then Failure(OtherError)
      else Built(Handler(version, key.releaseId, key.releaseId))
  }

  /** `QueryRouter::search`, as far as the two identifying fields go. */
  function Answer(h: Handler): Response {
    Response(h.manifestVersion, h.staticReleaseId)
  }

  predicate BuiltFor(h: Handler, key: Key) {
    h.manifestVersion == key.version && h.staticDir == key.releaseId && h.staticReleaseId == key.releaseId
  }

  predicate Hit(cache: Option<Entry>, key: Key) {
    cache.Some? && cache.value.key == key
  }

  // ----- one request at a time -----

  /** What one attempt finds outside: the key it loads, then what its bootstrap would meet. */
  datatype Attempt = Attempt(key: Option<Key>, active: Option<nat>, builds: bool)

  /** The attempt misses the cache and its bootstrap finds another version active than its key's. */
  predicate MovedUnder(cache: Option<Entry>, a: Attempt) {
    && a.key.Some? && (cache.Some? ==> cache.value.key != a.key.value)
    && a.active.Some? && a.active.value != a.key.value.version
  }

  /** The attempt has a handler: its key is the cached one, or the version it loaded is still active and the handler
      builds. */
  predicate Serves(cache: Option<Entry>, a: Attempt) {
    && a.key.Some?
    && ((cache.Some? && cache.value.key == a.key.value) || (a.active == Some(a.key.value.version) && a.builds))
  }

  class QueryService {
    var cache: Option<Entry>

    constructor ()
      ensures Valid() && cache == None
    {
      cache := None;
    }

    /** The cached handler was built for the key it is stored under. */
    ghost predicate Valid()
      reads this
    {
      cache.Some? ==> BuiltFor(cache.value.handler, cache.value.key)
    }

    /** `resolve_versioned_handler`: the whole method after loading the key runs under the mutex. */
    method ResolveVersionedHandler(a: Attempt) returns (r: Outcome)
      requires Valid()
      modifies this
      ensures Valid()
      ensures r.Built? ==>
          a.key.Some? && BuiltFor(r.handler, a.key.value) && cache == Some(Entry(a.key.value, r.handler))
      ensures r.Built? <==> Serves(old(cache), a)
      ensures r.Failure? ==> cache == old(cache)
      ensures a.key.Some? && old(cache).Some? && old(cache).value.key == a.key.value ==>
          cache == old(cache) && r == Built(old(cache).value.handler)
      ensures r == Failure(VersionChangedDuringBootstrap) <==> MovedUnder(old(cache), a)
    {
      if a.key.None? {
        return Failure(OtherError);
      }
      var key := a.key.value;
      if Hit(cache, key) {
        return Built(cache.value.handler);
      }
      r := Bootstrap(key, a.active, a.builds);
      if r.Built? {
        cache := Some(Entry(key, r.handler));
      }
    }

    /** `resolve_versioned_handler_with_retry`: one more attempt, with a freshly loaded key, if the active version moved
        under the first bootstrap; the handler is always the one of the last attempt's key. */
    method ResolveWithRetry(first: Attempt, second: Attempt) returns (r: Outcome, ghost attempts: nat)
      requires Valid()
      modifies this
      ensures Valid()
      ensures 1 <= attempts <= 2
      ensures attempts == 2 <==> MovedUnder(old(cache), first)
      ensures
        var last := if attempts == 1 then first else second;
        && (r.Built? <==> Serves(old(cache), last))
        && (r.Built? ==>
          && last.key.Some?
          && Answer(r.handler) == Response(last.key.value.version, last.key.value.releaseId)
          && cache == Some(Entry(last.key.value, r.handler)))
      ensures r.Failure? ==> cache == old(cache)
    {
      attempts := 1;
      r := ResolveVersionedHandler(first);
      if r == Failure(VersionChangedDuringBootstrap) {
        attempts := 2;
        r := ResolveVersionedHandler(second);
      }
    }

    /** `cached_pair`: both halves from one entry. */
    method CachedPair() returns (pair: Option<Key>)
      requires Valid()
      ensures pair.Some? <==> cache.Some?
      ensures pair.Some? ==> BuiltFor(cache.value.handler, pair.value)
    {
      return match cache case None => None case Some(entry) => Some(entry.key);
    }
  }

  // ----- all requests at once -----

  /** Where a request is. `vAt` and `rAt` are the moments at which it read the two pointers, `mAt` the moment at which
      its bootstrap read the manifest, `start` the moment its current attempt began. */
  datatype Pc =
    | Idle
    | Loading(attempt: nat, start: nat)
    | HasVersion(attempt: nat, start: nat, version: nat, vAt: nat)
    | HasKey(attempt: nat, start: nat, key: Key, vAt: nat, rAt: nat)
    | Missed(attempt: nat, start: nat, key: Key, vAt: nat, rAt: nat)
    | Building(attempt: nat, start: nat, key: Key, vAt: nat, rAt: nat, mAt: nat, manifestVersion: nat)
    | HasHandler(attempt: nat, start: nat, key: Key, vAt: nat, rAt: nat, handler: Handler)
    | Answered(attempt: nat, start: nat, key: Key, vAt: nat, rAt: nat, response: Response)
    | Failed

  /** `log` holds every pair the two pointers ever formed, the current one last. Either pointer may move to any value,
      but the release pointer, once set, is never removed: activation replaces it and a sync that finds none keeps it.
      */
  datatype State = State(log: seq<Key>, cache: Option<Entry>, mutex: Option<nat>, requests: map<nat, Pc>)

  datatype Event =
    | MoveVersion(version: nat)
    | MoveRelease(releaseId: string)
    | Arrive(id: nat)
    | LoadVersion(id: nat, ok: bool)
    | LoadRelease(id: nat, ok: bool)
    | Lock(id: nat)
    | ReadManifest(id: nat, ok: bool)
    | Build(id: nat, ok: bool)
    | Reply(id: nat)

  function PcOf(s: State, id: nat): Pc {
    if id in s.requests then s.requests[id] else Idle
  }

  function At(s: State, id: nat, pc: Pc): State {
    s.(requests := s.requests[id := pc])
  }

  function Now(s: State): nat
    requires s.log != []
  {
    |s.log| - 1
  }

  function Moved(s: State, pair: Key): State {
    s.(log := s.log + [pair])
  }

  function OnLoadVersion(s: State, id: nat, ok: bool): State
    requires s.log != []
  {
    match PcOf(s, id)
    case Loading(attempt, start) =>
      if ok then At(s, id, HasVersion(attempt, start, s.log[Now(s)].version, Now(s))) else At(s, id, Failed)
    case _ => s
  }

  function OnLoadRelease(s: State, id: nat, ok: bool): State
    requires s.log != []
  {
    match PcOf(s, id)
    case HasVersion(attempt, start, version, vAt) =>
      if ok then At(s, id, HasKey(attempt, start, Key(version, s.log[Now(s)].releaseId), vAt, Now(s)))
          else At(s, id, Failed)
    case _ => s
  }

  /** A free mutex is taken; a hit releases it in the same step, a miss keeps it for the bootstrap. */
  function OnLock(s: State, id: nat): State {
    match PcOf(s, id)
    case HasKey(attempt, start, key, vAt, rAt) =>
      if s.mutex.Some? then s
      else if Hit(s.cache, key) then
        At(s, id, HasHandler(attempt, start, key, vAt, rAt, s.cache.value.handler))
      else At(s, id, Missed(attempt, start, key, vAt, rAt)).(mutex := Some(id))
    case _ => s
  }

  /** The bootstrap's first half re-reads the active manifest; a moved version is retried once. */
  function OnReadManifest(s: State, id: nat, ok: bool): State
    requires s.log != []
  {
    match PcOf(s, id)
    case Missed(attempt, start, key, vAt, rAt) =>
      if !ok then At(s, id, Failed).(mutex := None)
      else if s.log[Now(s)].version != key.version then
        At(s, id, if attempt == 1 then Loading(2, Now(s)) else Failed).(mutex := None)
      else At(s, id, Building(attempt, start, key, vAt, rAt, Now(s), s.log[Now(s)].version))
    case _ => s
  }

  /** The second half builds the handler and stores it. */
  function OnBuild(s: State, id: nat, ok: bool): State {
    match PcOf(s, id)
    case Building(attempt, start, key, vAt, rAt, _, manifestVersion) =>
      (match Bootstrap(key, Some(manifestVersion), ok)
       case Failure(_) => At(s, id, Failed).(mutex := None)
       case Built(handler) =>
           At(s, id, HasHandler(attempt, start, key, vAt, rAt, handler)).(mutex := None,
           cache := Some(Entry(key, handler))))
    case _ => s
  }

  function OnReply(s: State, id: nat): State {
    match PcOf(s, id)
    case HasHandler(attempt, start, key, vAt, rAt, handler) =>
        At(s, id, Answered(attempt, start, key, vAt, rAt, Answer(handler)))
    case _ => s
  }

  function Apply(s: State, e: Event): State
    requires s.log != []
  {
    match e
    case MoveVersion(version) => Moved(s, s.log[Now(s)].(version := version))
    case MoveRelease(releaseId) => Moved(s, s.log[Now(s)].(releaseId := Some(releaseId)))
    case Arrive(id) => if PcOf(s, id).Idle? then At(s, id, Loading(1, Now(s))) else s
    case LoadVersion(id, ok) => OnLoadVersion(s, id, ok)
    case LoadRelease(id, ok) => OnLoadRelease(s, id, ok)
    case Lock(id) => OnLock(s, id)
    case ReadManifest(id, ok) => OnReadManifest(s, id, ok)
    case Build(id, ok) => OnBuild(s, id, ok)
    case Reply(id) => OnReply(s, id)
  }

  function Run(initial: Key, events: seq<Event>): (s: State)
    ensures s.log != []
  {
    if events == [] then State([initial], None, None, map[])
    else
      var before := Run(initial, events[..|events| - 1]);
      Apply(before, events[|events| - 1])
  }

  // ----- invariants -----

  ghost predicate Reads(log: seq<Key>, start: nat, key: Key, vAt: nat, rAt: nat) {
    && start <= vAt <= rAt < |log|
    && log[vAt].version == key.version && log[rAt].releaseId == key.releaseId
  }

  /** A request knows the key it read since its attempt began, and its handler or answer is of that key. */
  ghost predicate RequestOk(log: seq<Key>, pc: Pc) {
    match pc
    case Idle => true
    case Failed => true
    case Loading(attempt, start) => 1 <= attempt <= 2 && start < |log|
    case HasVersion(attempt, start, version, vAt) => 1 <= attempt <= 2 && start <= vAt < |log| &&
        log[vAt].version == version
    case HasKey(attempt, start, key, vAt, rAt) => 1 <= attempt <= 2 && Reads(log, start, key, vAt, rAt)
    case Missed(attempt, start, key, vAt, rAt) => 1 <= attempt <= 2 && Reads(log, start, key, vAt, rAt)
    case Building(attempt, start, key, vAt, rAt, mAt, manifestVersion) =>
      && 1 <= attempt <= 2 && Reads(log, start, key, vAt, rAt)
      && rAt <= mAt < |log| && log[mAt].version == manifestVersion == key.version
    case HasHandler(attempt, start, key, vAt, rAt, handler) =>
      1 <= attempt <= 2 && Reads(log, start, key, vAt, rAt) && BuiltFor(handler, key)
    case Answered(attempt, start, key, vAt, rAt, response) =>
      1 <= attempt <= 2 && Reads(log, start, key, vAt, rAt) && response == Response(key.version, key.releaseId)
  }

  ghost predicate CacheOk(cache: Option<Entry>) {
    cache.Some? ==> BuiltFor(cache.value.handler, cache.value.key)
  }

  predicate InCriticalSection(pc: Pc) {
    pc.Missed? || pc.Building?
  }

  ghost predicate Inv(s: State) {
    && s.log != [] && CacheOk(s.cache)
    && (forall id :: id in s.requests ==> RequestOk(s.log, s.requests[id]))
    && (forall id: nat :: InCriticalSection(PcOf(s, id)) <==> s.mutex == Some(id))
  }

  lemma LogGrows(s: State, pair: Key)
    requires Inv(s)
    ensures Inv(Moved(s, pair))
  {
    var s' := Moved(s, pair);
    forall id | id in s'.requests
      ensures RequestOk(s'.log, s'.requests[id])
    {
      assert RequestOk(s.log, s.requests[id]);
    }
    forall id: nat
      ensures PcOf(s', id) == PcOf(s, id)
    {
    }
  }

  /** A step of one request that keeps the log. */
  lemma OneMoves(s: State, s': State, id: nat)
    requires Inv(s) && s'.log == s.log && id in s'.requests && s'.requests == s.requests[id := s'.requests[id]]
    requires RequestOk(s.log, s'.requests[id]) && CacheOk(s'.cache)
    requires s'.mutex ==
        if InCriticalSection(s'.requests[id]) then Some(id) else if InCriticalSection(PcOf(s, id)) then None
        else s.mutex
    requires InCriticalSection(s'.requests[id]) && !InCriticalSection(PcOf(s, id)) ==> s.mutex.None?
    ensures Inv(s')
  {
    hide RequestOk;
    forall i: nat
      ensures InCriticalSection(PcOf(s', i)) <==> s'.mutex == Some(i)
    {
      assert InCriticalSection(PcOf(s, i)) <==> s.mutex == Some(i);
      assert InCriticalSection(PcOf(s, id)) <==> s.mutex == Some(id);
    }
  }

  lemma StepKeepsInv(s: State, e: Event)
    requires Inv(s) && s.log != []
    ensures Inv(Apply(s, e))
  {
    hide Inv;
    match e
    case MoveVersion(version) => LogGrows(s, s.log[Now(s)].(version := version));
    case MoveRelease(releaseId) => LogGrows(s, s.log[Now(s)].(releaseId := Some(releaseId)));
    case Arrive(id) => OutsideStep(s, e, id);
    case LoadVersion(id, _) => OutsideStep(s, e, id);
    case LoadRelease(id, _) => OutsideStep(s, e, id);
    case Reply(id) => OutsideStep(s, e, id);
    case Lock(id) => LockStep(s, id);
    case ReadManifest(id, ok) => ReadManifestStep(s, id, ok);
    case Build(id, ok) => BuildStep(s, id, ok);
  }

  lemma RequestIs(s: State, id: nat)
    requires Inv(s)
    ensures RequestOk(s.log, PcOf(s, id)) && (InCriticalSection(PcOf(s, id)) <==> s.mutex == Some(id))
  {
  }

  lemma OutsideStep(s: State, e: Event, id: nat)
    requires Inv(s) && s.log != [] && (e.Arrive? || e.LoadVersion? || e.LoadRelease? || e.Reply?) && e.id == id
    ensures Inv(Apply(s, e))
  {
    hide Inv;
    RequestIs(s, id);
    InvParts(s);
    if Apply(s, e) != s {
      OneMoves(s, Apply(s, e), id);
    }
  }

  lemma LockStep(s: State, id: nat)
    requires Inv(s)
    ensures Inv(OnLock(s, id))
  {
    hide Inv;
    RequestIs(s, id);
    InvParts(s);
    if OnLock(s, id) != s {
      OneMoves(s, OnLock(s, id), id);
    }
  }

  lemma ReadManifestStep(s: State, id: nat, ok: bool)
    requires Inv(s) && s.log != []
    ensures Inv(OnReadManifest(s, id, ok))
  {
    hide Inv;
    RequestIs(s, id);
    InvParts(s);
    if OnReadManifest(s, id, ok) != s {
      OneMoves(s, OnReadManifest(s, id, ok), id);
    }
  }

  lemma BuildStep(s: State, id: nat, ok: bool)
    requires Inv(s)
    ensures Inv(OnBuild(s, id, ok))
  {
    hide Inv;
    RequestIs(s, id);
    InvParts(s);
    if OnBuild(s, id, ok) != s {
      OneMoves(s, OnBuild(s, id, ok), id);
    }
  }

  lemma InvParts(s: State)
    requires Inv(s)
    ensures s.log != [] && CacheOk(s.cache)
  {
  }

  lemma {:induction false} RunKeepsInv(initial: Key, events: seq<Event>)
    ensures Inv(Run(initial, events))
  {
    if events != [] {
      RunKeepsInv(initial, events[..|events| - 1]);
      StepKeepsInv(Run(initial, events[..|events| - 1]), events[|events| - 1]);
    }
  }

  // ----- theorems -----

  /** In every interleaving the cached handler is one built for the key it is cached under, at most one request is
      bootstrapping, and every answer carries exactly the pair its request loaded on its last attempt, each half read
      from its pointer after that attempt began. */
  lemma AnswersAreOfTheirKey(initial: Key, events: seq<Event>, id: nat)
    ensures
      var s := Run(initial, events);
      && (s.cache.Some? ==> BuiltFor(s.cache.value.handler, s.cache.value.key))
      && (forall other :: other != id && InCriticalSection(PcOf(s, id)) ==> !InCriticalSection(PcOf(s, other)))
      && (PcOf(s, id).Answered? ==>
            var a := PcOf(s, id);
            && a.attempt <= 2
            && a.response.indexVersion == a.key.version && a.response.staticReleaseId == a.key.releaseId
            && a.start <= a.vAt <= a.rAt < |s.log|
            && s.log[a.vAt].version == a.response.indexVersion && s.log[a.rAt].releaseId == a.response.staticReleaseId)
  {
    RunKeepsInv(initial, events);
    var s := Run(initial, events);
    RequestIs(s, id);
    forall other | other != id && InCriticalSection(PcOf(s, id))
      ensures !InCriticalSection(PcOf(s, other))
    {
      RequestIs(s, other);
    }
  }

  // ----- torn pairs -----

  /** What the two pointers can go through: each move replaces one of them, the release pointer by some release. */
  ghost predicate IsHistory(log: seq<Key>) {
    && log != []
    && (forall i :: 0 <= i < |log| - 1 ==> OneMove(log[i], log[i + 1]))
  }

  predicate OneMove(from: Key, to: Key) {
    to == from.(version := to.version) || (to.releaseId.Some? && to == from.(releaseId := to.releaseId))
  }

  /** Whenever one version is active at two moments, each release active between them has by then stood beside it. */
  ghost predicate Coexist(log: seq<Key>) {
    forall i, j, m :: 0 <= i <= j <= m < |log| ==> Met(log, i, j, m)
  }

  predicate Met(log: seq<Key>, i: nat, j: nat, m: nat)
    requires i <= j <= m < |log|
  {
    log[i].version == log[m].version ==> Key(log[i].version, log[j].releaseId) in log[..m + 1]
  }

  predicate BootstrapAccepted(pc: Pc) {
    pc.Building? || pc.HasHandler? || pc.Answered?
  }

  /** Every key a bootstrap accepted was, as a pair, what the two pointers said at one moment. */
  ghost predicate PairsExisted(s: State) {
    && (s.cache.Some? ==> s.cache.value.key in s.log)
    && (forall id :: id in s.requests && BootstrapAccepted(s.requests[id]) ==> s.requests[id].key in s.log)
  }

  /** At every moment of every run in which the pointers go through `log`, no accepted pair is torn. */
  ghost predicate NeverTorn(log: seq<Key>) {
    forall initial, events: seq<Event>, n ::
      0 <= n <= |events| && Run(initial, events).log == log ==> PairsExisted(Run(initial, events[..n]))
  }

  /** The same, as far as callers see: the pair in every answer has been the active pair. */
  ghost predicate AnswersNeverTorn(log: seq<Key>) {
    forall initial, events: seq<Event>, n, id ::
      0 <= n <= |events| && Run(initial, events).log == log ==> AnswerExisted(Run(initial, events[..n]), id)
  }

  ghost predicate AnswerExisted(s: State, id: nat) {
    PcOf(s, id).Answered? ==> Key(PcOf(s, id).response.indexVersion, PcOf(s, id).response.staticReleaseId) in s.log
  }

  /** The release was read between reading the version and finding it active again. */
  lemma ReadTogether(log: seq<Key>, start: nat, key: Key, vAt: nat, rAt: nat, mAt: nat)
    requires Coexist(log) && Reads(log, start, key, vAt, rAt) && rAt <= mAt < |log| && log[mAt].version == key.version
    ensures key in log
  {
    assert Met(log, vAt, rAt, mAt);
  }

  lemma PairStep(s: State, e: Event)
    requires Inv(s) && s.log != [] && PairsExisted(s) && Coexist(s.log)
    ensures PairsExisted(Apply(s, e))
  {
    hide Inv, Coexist;
    var s' := Apply(s, e);
    if e.MoveVersion? || e.MoveRelease? {
      assert forall key :: key in s.log ==> key in s'.log;
    } else if s' != s {
      RequestIs(s, e.id);
      AcceptedPair(s, e);
    }
  }

  lemma AcceptedPair(s: State, e: Event)
    requires s.log != [] && PairsExisted(s) && Coexist(s.log) && !e.MoveVersion? && !e.MoveRelease?
    requires RequestOk(s.log, PcOf(s, e.id)) && Apply(s, e) != s
    ensures PairsExisted(Apply(s, e))
  {
    hide Coexist, Apply;
    OnlyRequestMoves(s, e);
    AcceptedKey(s, e);
  }

  lemma OnlyRequestMoves(s: State, e: Event)
    requires s.log != [] && !e.MoveVersion? && !e.MoveRelease? && Apply(s, e) != s
    ensures Apply(s, e).log == s.log && Apply(s, e).requests == s.requests[e.id := PcOf(Apply(s, e), e.id)]
  {
  }

  lemma AcceptedKey(s: State, e: Event)
    requires s.log != [] && PairsExisted(s) && Coexist(s.log) && !e.MoveVersion? && !e.MoveRelease?
    requires RequestOk(s.log, PcOf(s, e.id)) && Apply(s, e) != s
    ensures
      var s' := Apply(s, e);
      && (BootstrapAccepted(PcOf(s', e.id)) ==> PcOf(s', e.id).key in s.log)
      && (s'.cache.Some? ==> s'.cache.value.key in s.log)
  {
    hide Coexist;
    var pc := PcOf(s, e.id);
    if e.ReadManifest? && PcOf(Apply(s, e), e.id).Building? {
      ReadTogether(s.log, pc.start, pc.key, pc.vAt, pc.rAt, Now(s));
    }
  }

  lemma {:induction false} RunKeepsPairs(initial: Key, events: seq<Event>)
    requires Coexist(Run(initial, events).log)
    ensures PairsExisted(Run(initial, events))
  {
    if events != [] {
      var before, e := Run(initial, events[..|events| - 1]), events[|events| - 1];
      LogIsPrefix(before, e);
      CoexistBefore(before.log, Apply(before, e).log);
      RunKeepsPairs(initial, events[..|events| - 1]);
      RunKeepsInv(initial, events[..|events| - 1]);
      PairStep(before, e);
    }
  }

  lemma LogIsPrefix(s: State, e: Event)
    requires s.log != []
    ensures s.log <= Apply(s, e).log
  {
  }

  lemma CoexistBefore(log: seq<Key>, longer: seq<Key>)
    requires log <= longer && Coexist(longer)
    ensures Coexist(log)
  {
    forall i, j, m | 0 <= i <= j <= m < |log|
      ensures Met(log, i, j, m)
    {
      assert Met(longer, i, j, m);
      assert log[..m + 1] == longer[..m + 1];
    }
  }

  /** Earlier moments of a run know less of the same history. */
  lemma {:induction false} EarlierLog(initial: Key, events: seq<Event>, n: nat)
    requires n <= |events|
    ensures Run(initial, events[..n]).log <= Run(initial, events).log
  {
    if n == |events| {
      assert events[..n] == events;
    } else {
      var most := events[..|events| - 1];
      EarlierLog(initial, most, n);
      assert most[..n] == events[..n];
      LogIsPrefix(Run(initial, most), events[|events| - 1]);
    }
  }

  /** Every run goes through a history. */
  lemma {:induction false} RunIsHistory(initial: Key, events: seq<Event>)
    ensures IsHistory(Run(initial, events).log)
  {
    if events != [] {
      RunIsHistory(initial, events[..|events| - 1]);
    }
  }

  lemma NoTornPair(log: seq<Key>)
    requires Coexist(log)
    ensures NeverTorn(log)
  {
    forall initial, events: seq<Event>, n | 0 <= n <= |events| && Run(initial, events).log == log
      ensures PairsExisted(Run(initial, events[..n]))
    {
      EarlierLog(initial, events, n);
      CoexistBefore(Run(initial, events[..n]).log, log);
      RunKeepsPairs(initial, events[..n]);
    }
  }

  lemma AnswerWasAccepted(initial: Key, events: seq<Event>, id: nat)
    requires PairsExisted(Run(initial, events))
    ensures AnswerExisted(Run(initial, events), id)
  {
    hide Run;
    RunKeepsInv(initial, events);
    RequestIs(Run(initial, events), id);
  }

  lemma NoTornAnswer(log: seq<Key>)
    requires NeverTorn(log)
    ensures AnswersNeverTorn(log)
  {
    forall initial, events: seq<Event>, n, id: nat | 0 <= n <= |events| && Run(initial, events).log == log
      ensures AnswerExisted(Run(initial, events[..n]), id)
    {
      AnswerWasAccepted(initial, events[..n], id);
    }
  }

  // ----- the torn run -----

  function MoveTo(from: Key, to: Key): Event
    requires OneMove(from, to)
  {
    if to == from.(version := to.version) then MoveVersion(to.version) else MoveRelease(to.releaseId.value)
  }

  /** The pointer moves that lead from moment `a` of a history to moment `b`. */
  ghost function Moves(log: seq<Key>, a: nat, b: nat): seq<Event>
    requires IsHistory(log) && a <= b < |log|
  {
    if a == b then [] else Moves(log, a, b - 1) + [MoveTo(log[b - 1], log[b])]
  }

  ghost function UntilVersion(log: seq<Key>, i: nat): seq<Event>
    requires IsHistory(log) && i < |log|
  {
    Moves(log, 0, i) + [Arrive(0)] + [LoadVersion(0, true)]
  }

  ghost function UntilRelease(log: seq<Key>, i: nat, j: nat): seq<Event>
    requires IsHistory(log) && i <= j < |log|
  {
    UntilVersion(log, i) + Moves(log, i, j) + [LoadRelease(0, true)]
  }

  /** One request loads the version at moment `i`, the release at moment `j`, and is built at moment `m`. */
  ghost function TornRun(log: seq<Key>, i: nat, j: nat, m: nat): seq<Event>
    requires IsHistory(log) && i <= j <= m < |log|
  {
    UntilRelease(log, i, j) + Moves(log, j, m) + [Lock(0)] + [ReadManifest(0, true)] + [Build(0, true)] + [Reply(0)]
  }

  lemma Extend(initial: Key, events: seq<Event>, e: Event)
    ensures Run(initial, events + [e]) == Apply(Run(initial, events), e)
  {
    assert (events + [e])[..|events|] == events;
  }

  lemma LastMove(log: seq<Key>, events: seq<Event>, a: nat, b: nat)
    requires IsHistory(log) && a < b < |log| && Run(log[0], events + Moves(log, a, b - 1)).log == log[..b]
    ensures Run(log[0], events + Moves(log, a, b)) == Run(log[0], events + Moves(log, a, b - 1)).(log := log[..b + 1])
  {
    hide Run;
    var most, last := events + Moves(log, a, b - 1), MoveTo(log[b - 1], log[b]);
    assert events + Moves(log, a, b) == most + [last];
    Extend(log[0], most, last);
    assert log[..b + 1] == log[..b] + [log[b]];
  }

  lemma {:induction false} RunMoves(log: seq<Key>, events: seq<Event>, a: nat, b: nat)
    requires IsHistory(log) && a <= b < |log| && Run(log[0], events).log == log[..a + 1]
    ensures Run(log[0], events + Moves(log, a, b)) == Run(log[0], events).(log := log[..b + 1])
  {
    if a == b {
      assert events + Moves(log, a, b) == events;
    } else {
      RunMoves(log, events, a, b - 1);
      LastMove(log, events, a, b);
    }
  }

  lemma VersionLoaded(log: seq<Key>, i: nat)
    requires IsHistory(log) && i < |log|
    ensures Run(log[0], UntilVersion(log, i)) ==
        State(log[..i + 1], None, None, map[0 := HasVersion(1, i, log[i].version, i)])
  {
    var k := log[0];
    var moved := State(log[..i + 1], None, None, map[]);
    assert Run(k, Moves(log, 0, i)) == moved by {
      assert Run(k, []) == State([k], None, None, map[]) && [k] == log[..1];
      RunMoves(log, [], 0, i);
      assert [] + Moves(log, 0, i) == Moves(log, 0, i);
    }
    hide Run;
    Extend(k, Moves(log, 0, i), Arrive(0));
    Extend(k, Moves(log, 0, i) + [Arrive(0)], LoadVersion(0, true));
  }

  lemma ReleaseLoaded(log: seq<Key>, i: nat, j: nat)
    requires IsHistory(log) && i <= j < |log|
    ensures
      Run(log[0], UntilRelease(log, i, j))
      == State(log[..j + 1], None, None, map[0 := HasKey(1, i, Key(log[i].version, log[j].releaseId), i, j)])
  {
    hide Run;
    VersionLoaded(log, i);
    RunMoves(log, UntilVersion(log, i), i, j);
    Extend(log[0], UntilVersion(log, i) + Moves(log, i, j), LoadRelease(0, true));
  }

  lemma TornAnswer(log: seq<Key>, i: nat, j: nat, m: nat)
    requires IsHistory(log) && i <= j <= m < |log| && log[i].version == log[m].version
    ensures
      var s := Run(log[0], TornRun(log, i, j, m));
      && s.log == log[..m + 1]
      && PcOf(s, 0).Answered? && PcOf(s, 0).response == Response(log[i].version, log[j].releaseId)
  {
    hide Run;
    var k, key := log[0], Key(log[i].version, log[j].releaseId);
    ReleaseLoaded(log, i, j);
    var ready := UntilRelease(log, i, j) + Moves(log, j, m);
    RunMoves(log, UntilRelease(log, i, j), j, m);
    var locked, read, built := ready + [Lock(0)], ready + [Lock(0)] + [ReadManifest(0, true)],
        ready + [Lock(0)] + [ReadManifest(0, true)] + [Build(0, true)];
    Extend(k, ready, Lock(0));
    assert Run(k, locked) == State(log[..m + 1], None, Some(0), map[0 := Missed(1, i, key, i, j)]);
    Extend(k, locked, ReadManifest(0, true));
    assert Run(k, read) == State(log[..m + 1], None, Some(0), map[0 := Building(1, i, key, i, j, m, key.version)]);
    Extend(k, read, Build(0, true));
    Extend(k, built, Reply(0));
  }

  lemma PairMet(log: seq<Key>, i: nat, j: nat, m: nat)
    requires IsHistory(log) && AnswersNeverTorn(log) && i <= j <= m < |log| && log[i].version == log[m].version
    ensures Key(log[i].version, log[j].releaseId) in log[..m + 1]
  {
    hide Run, Moves;
    var events := TornRun(log, i, j, m);
    var all := events + Moves(log, m, |log| - 1);
    TornAnswer(log, i, j, m);
    RunMoves(log, events, m, |log| - 1);
    assert log[..|log|] == log && all[..|events|] == events;
    assert AnswerExisted(Run(log[0], all[..|events|]), 0);
  }

  lemma CoexistNeeded(log: seq<Key>)
    requires IsHistory(log) && AnswersNeverTorn(log)
    ensures Coexist(log)
  {
    forall i, j, m | 0 <= i <= j <= m < |log|
      ensures Met(log, i, j, m)
    {
      if log[i].version == log[m].version {
        PairMet(log, i, j, m);
      }
    }
  }

  /** A history keeps every accepted pair, and every answer, untorn in all its runs if and only if it lets every release
      meet the version it is read with. */
  lemma PairsExistExactly(log: seq<Key>)
    requires IsHistory(log)
    ensures NeverTorn(log) <==> Coexist(log)
    ensures AnswersNeverTorn(log) <==> Coexist(log)
  {
    hide NeverTorn, AnswersNeverTorn, Coexist;
    if Coexist(log) {
      NoTornPair(log);
    }
    if NeverTorn(log) {
      NoTornAnswer(log);
    }
    if AnswersNeverTorn(log) {
      CoexistNeeded(log);
    }
  }

  /** The version pointer never moves down: nothing was rolled back. */
  ghost predicate NeverRolledBack(log: seq<Key>) {
    forall i, j :: 0 <= i < j < |log| ==> log[i].version <= log[j].version
  }

  lemma MeetsWithoutRollback(log: seq<Key>, i: nat, j: nat, m: nat)
    requires NeverRolledBack(log) && i <= j <= m < |log|
    ensures Met(log, i, j, m)
  {
    if log[i].version == log[m].version {
      assert log[i].version <= log[j].version <= log[m].version;
      assert log[..m + 1][j] == Key(log[i].version, log[j].releaseId);
    }
  }

  /** Without a rollback of the version pointer, the pair in every answer was once the active pair. */
  lemma AnsweredPairExisted(initial: Key, events: seq<Event>, id: nat)
    requires NeverRolledBack(Run(initial, events).log)
    ensures AnswerExisted(Run(initial, events), id)
  {
    var log := Run(initial, events).log;
    forall i, j, m | 0 <= i <= j <= m < |log|
      ensures Met(log, i, j, m)
    {
      MeetsWithoutRollback(log, i, j, m);
    }
    RunKeepsPairs(initial, events);
    AnswerWasAccepted(initial, events, id);
  }

  /** A rollback that leaves the release alone is harmless too. */
  lemma RollbackBesideOneRelease(log: seq<Key>)
    requires IsHistory(log) && forall i :: 0 <= i < |log| ==> log[i].releaseId == log[0].releaseId
    ensures AnswersNeverTorn(log)
  {
    forall i, j, m | 0 <= i <= j <= m < |log|
      ensures Met(log, i, j, m)
    {
      assert log[..m + 1][i] == Key(log[i].version, log[j].releaseId);
    }
    PairsExistExactly(log);
  }

  /** A torn answer: version `v` is read, then release `b` beside version `w`, and both pointers go back. */
  lemma TornPairAfterRollback(v: nat, w: nat, a: string, b: string)
    requires v != w && a != b
    ensures
      var log := [Key(v, Some(a)), Key(w, Some(a)), Key(w, Some(b)), Key(w, Some(a)), Key(v, Some(a))];
      && IsHistory(log)
      && (exists events ::
            var s := Run(log[0], events);
            s.log == log && PcOf(s, 0).Answered? && PcOf(s, 0).response == Response(v, Some(b)) &&
                Key(v, Some(b)) !in s.log)
  {
    var log := [Key(v, Some(a)), Key(w, Some(a)), Key(w, Some(b)), Key(w, Some(a)), Key(v, Some(a))];
    TornAnswer(log, 0, 2, 4);
    assert log[..5] == log;
    assert Key(v, Some(b)) !in log;
  }
}
