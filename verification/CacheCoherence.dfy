/**
  Loads take no lock (packages/mcp/src/json-first-storage.ts): each reads the source, checks for a conflict and rebuilds
  the read model in separate steps, between which other clients commit, sync, crash and rebuild.

  What a load reads need not be the committed set: OverlappingRuns.LoadReturnsTornSet reads part of one that is being moved
  in.  `readings` says what may be read while a set is committed.
 */
module CacheCoherence {
  import opened Wrappers
  import opened JsonFirstStorage
  import AuditLayout
  import AuditRoot
  import HeadRevision

  type DocumentSet = seq<AuditLayout.Document>

  /** Relates the committed set to what a load may return of it. */
  type Readings = (DocumentSet, DocumentSet) -> bool

  /** A load, by what it has read. */
  datatype Phase = Read(found: DocumentSet) | Checked(found: DocumentSet) | Blocked(found: DocumentSet)

  /**
    `json` is the committed set; `cache` is what the read model holds, None when it is empty or cannot be opened; `syncing`
    is set while a save holds the lock before its sync.
   */
  datatype State = State(json: DocumentSet, cache: Option<DocumentSet>, syncing: bool, loads: map<nat, Phase>)

  datatype Step =
    | Commit(documents: DocumentSet)
    | Sync(stored: bool)
    | Crash
    | ReadSource(client: nat, found: DocumentSet)
    | CheckConflict(client: nat, opens: bool)
    | Rebuild(client: nat, opens: bool, stored: bool)

  /** A read model that holds a document set. */
  function Holding(env: Environment, documents: DocumentSet): Sqlite {
    Single(env.projectIdOf(documents), Some(documents), env.freshnessOf(documents), "")
  }

  /** The read model as a load finds it; `opens` is false when opening it fails. */
  function Found(env: Environment, s: State, opens: bool): Sqlite {
    if s.cache.None? then Empty else if !opens then Unavailable else Holding(env, s.cache.value)
  }

  /** A later commit of the same project. */
  predicate IsLater(env: Environment, before: DocumentSet, after: DocumentSet) {
    env.projectIdOf(after) == env.projectIdOf(before) && env.freshnessOf(before) < env.freshnessOf(after)
  }

  predicate Enabled(env: Environment, readings: Readings, s: State, step: Step) {
    match step
    case Commit(documents) => !s.syncing && IsLater(env, s.json, documents)
    case Sync(_) => s.syncing
    case Crash => true
    case ReadSource(_, found) => readings(s.json, found)
    case CheckConflict(client, _) => client in s.loads && s.loads[client].Read?
    case Rebuild(client, _, _) => client in s.loads && s.loads[client].Checked?
  }

  function Next(env: Environment, readings: Readings, s: State, step: Step): State {
    if !Enabled(env, readings, s, step) then s
    else
      match step
      case Commit(documents) => s.(json := documents, syncing := true)
      case Sync(stored) => s.(cache := if stored then Some(s.json) else None, syncing := false)
      case Crash => s.(syncing := false)
      case ReadSource(client, found) => s.(loads := s.loads[client := Read(found)])
      case CheckConflict(client, opens) =>
        var found := s.loads[client].found;
        var phase := if BlockingConflict(env, found, Found(env, s, opens)) then Blocked(found) else Checked(found);
        s.(loads := s.loads[client := phase])
      case Rebuild(client, opens, stored) =>
        var found := s.loads[client].found;
        var model := Found(env, s, opens);
        var current := model.Single? && SameContent(env, found, model.documents.value);
        s.(cache := if current then s.cache else if stored then Some(found) else None, loads := s.loads - {client})
  }

  function Run(env: Environment, readings: Readings, s: State, steps: seq<Step>): State
    decreases |steps|
  {
    if steps == [] then s else Run(env, readings, Next(env, readings, s, steps[0]), steps[1..])
  }

  function Start(json: DocumentSet): State {
    State(json, None, false, map[])
  }

  // ---------- Coherence ----------

  /** The same content as the committed set, or something older of the same project. */
  predicate IsBehind(env: Environment, found: DocumentSet, json: DocumentSet) {
    && env.projectIdOf(found) == env.projectIdOf(json)
    && (SameContent(env, json, found) || env.freshnessOf(found) < env.freshnessOf(json))
  }

  /** The read model is absent, equal to the source or older, and a load that reads the source whole is not refused. */
  predicate StateIsCoherent(env: Environment, s: State) {
    forall opens :: Coherent(env, Some(s.json), Found(env, s, opens)) && !BlockingConflict(env, s.json, Found(env, s, opens))
  }

  /** Nothing that is read while this set is committed differs from it and is as fresh. */
  ghost predicate ReadsHarmlessly(env: Environment, readings: Readings, json: DocumentSet) {
    forall found :: readings(json, found) ==> IsBehind(env, found, json)
  }

  /** The committed set, or one that may be committed after it. */
  predicate CanFollow(env: Environment, first: DocumentSet, json: DocumentSet) {
    json == first || IsLater(env, first, json)
  }

  ghost predicate Inv(env: Environment, first: DocumentSet, s: State) {
    && CanFollow(env, first, s.json)
    && (s.cache.Some? ==> IsBehind(env, s.cache.value, s.json))
    && (forall client <- s.loads :: IsBehind(env, s.loads[client].found, s.json))
    && (forall client <- s.loads :: s.loads[client].Blocked? ==> env.freshnessOf(s.loads[client].found) < env.freshnessOf(s.json))
  }

  /** A stored set makes every later load that reads the source whole fail exactly when it is not behind the source. */
  lemma StoredSetBlocksExactly(env: Environment, found: DocumentSet, json: DocumentSet)
    ensures BlockingConflict(env, json, Holding(env, found)) <==> !IsBehind(env, found, json)
    ensures Coherent(env, Some(json), Holding(env, found)) <==> IsBehind(env, found, json)
  {
  }

  lemma StepKeepsInv(env: Environment, readings: Readings, first: DocumentSet, s: State, step: Step)
    requires Lawful(env) && Inv(env, first, s) && ReadsHarmlessly(env, readings, s.json)
    ensures Inv(env, first, Next(env, readings, s, step))
  {
    hide IsClean, SameDocuments, HeadRevision.Injective, AuditRoot.OrderFree;
  }

  lemma {:induction false} RunKeepsInv(env: Environment, readings: Readings, first: DocumentSet, s: State, steps: seq<Step>)
    requires Lawful(env) && Inv(env, first, s)
    requires forall json :: CanFollow(env, first, json) ==> ReadsHarmlessly(env, readings, json)
    ensures Inv(env, first, Run(env, readings, s, steps))
    decreases |steps|
  {
    hide Lawful, ReadsHarmlessly, Next;
    if steps != [] {
      StepKeepsInv(env, readings, first, s, steps[0]);
      RunKeepsInv(env, readings, first, Next(env, readings, s, steps[0]), steps[1..]);
    }
  }

  /** Only loads that hold something older than the source are refused. */
  lemma OnlyStaleLoadsAreRefused(env: Environment, readings: Readings, first: DocumentSet, steps: seq<Step>)
    requires Lawful(env) && forall json :: CanFollow(env, first, json) ==> ReadsHarmlessly(env, readings, json)
    ensures var t := Run(env, readings, Start(first), steps);
            forall client <- t.loads :: t.loads[client].Blocked? ==> env.freshnessOf(t.loads[client].found) < env.freshnessOf(t.json)
  {
    hide Lawful, ReadsHarmlessly;
    RunKeepsInv(env, readings, first, Start(first), steps);
  }

  /** The shortest run that stores what a load has read. */
  function StoringRun(env: Environment, first: DocumentSet, json: DocumentSet, found: DocumentSet): seq<Step> {
    (if json == first then [] else [Commit(json)]) + [ReadSource(0, found), CheckConflict(0, true), Rebuild(0, true, true)]
  }

  lemma FoundIsStored(env: Environment, readings: Readings, first: DocumentSet, json: DocumentSet, found: DocumentSet)
    requires CanFollow(env, first, json) && readings(json, found)
    ensures var t := Run(env, readings, Start(first), StoringRun(env, first, json, found)); t.json == json && t.cache == Some(found)
  {
    var rest := [ReadSource(0, found), CheckConflict(0, true), Rebuild(0, true, true)];
    var s := if json == first then Start(first) else Next(env, readings, Start(first), Commit(json));
    assert rest[1..] == [CheckConflict(0, true), Rebuild(0, true, true)] && rest[1..][1..] == [Rebuild(0, true, true)];
    var read := Next(env, readings, s, ReadSource(0, found));
    var checked := Next(env, readings, read, CheckConflict(0, true));
    assert Run(env, readings, checked, rest[1..][1..]).cache == Some(found);
    assert Run(env, readings, s, rest) == Run(env, readings, checked, rest[1..][1..]);
    if json != first { assert StoringRun(env, first, json, found)[1..] == rest; } else { assert StoringRun(env, first, json, found) == rest; }
  }

  /** The read model is absent, equal to the source or strictly older in every interleaving. */
  ghost predicate AllRunsAreCoherent(env: Environment, readings: Readings, first: DocumentSet) {
    forall steps :: StateIsCoherent(env, Run(env, readings, Start(first), steps))
  }

  /** A reading that is stored shows whether it was harmless. */
  lemma CoherentRunsReadHarmlessly(env: Environment, readings: Readings, first: DocumentSet, json: DocumentSet)
    requires CanFollow(env, first, json) && AllRunsAreCoherent(env, readings, first)
    ensures ReadsHarmlessly(env, readings, json)
  {
    hide CanFollow, Run, StoringRun;
    forall found | readings(json, found) ensures IsBehind(env, found, json) {
      FoundIsStored(env, readings, first, json, found);
      var t := Run(env, readings, Start(first), StoringRun(env, first, json, found));
      assert StateIsCoherent(env, t);
      StoredSetBlocksExactly(env, found, json);
      assert Found(env, t, true) == Holding(env, found);
    }
  }

  lemma HarmlessReadingsStayCoherent(env: Environment, readings: Readings, first: DocumentSet)
    requires Lawful(env) && forall json :: CanFollow(env, first, json) ==> ReadsHarmlessly(env, readings, json)
    ensures AllRunsAreCoherent(env, readings, first)
  {
    hide Lawful, Run, ReadsHarmlessly;
    forall steps ensures StateIsCoherent(env, Run(env, readings, Start(first), steps)) {
      RunKeepsInv(env, readings, first, Start(first), steps);
      var t := Run(env, readings, Start(first), steps);
      if t.cache.Some? { StoredSetBlocksExactly(env, t.cache.value, t.json); }
    }
  }

  /**
    In every run, in every interleaving, the read model is absent, equal to the source or strictly older, and no load that
    reads the source whole is refused, if and only if no reading returns a set that differs from the committed one and is
    as fresh, or belongs to another project.
   */
  lemma RunsStayCoherentExactly(env: Environment, readings: Readings, first: DocumentSet)
    requires Lawful(env)
    ensures AllRunsAreCoherent(env, readings, first)
       <==> forall json :: CanFollow(env, first, json) ==> ReadsHarmlessly(env, readings, json)
  {
    hide Lawful, CanFollow, AllRunsAreCoherent, ReadsHarmlessly;
    if AllRunsAreCoherent(env, readings, first) {
      forall json | CanFollow(env, first, json) ensures ReadsHarmlessly(env, readings, json) {
        CoherentRunsReadHarmlessly(env, readings, first, json);
      }
    }
    if forall json :: CanFollow(env, first, json) ==> ReadsHarmlessly(env, readings, json) {
      HarmlessReadingsStayCoherent(env, readings, first);
    }
  }

  /** A load that has read the source whole and that no commit overtook passes its check, and a rebuild that stores leaves
      the model equal to the source. */
  lemma UndisturbedLoadSynchronizes(env: Environment, readings: Readings, first: DocumentSet, s: State, client: nat, opens: bool,
                                    checkOpens: bool)
    requires Lawful(env) && Inv(env, first, s) && client in s.loads && s.loads[client] == Read(s.json)
    ensures var checked := Next(env, readings, s, CheckConflict(client, checkOpens));
            && checked.loads[client] == Checked(s.json)
            && var t := Next(env, readings, checked, Rebuild(client, opens, true));
               t.cache.Some? && SameContent(env, s.json, t.cache.value)
  {
    hide Lawful;
    if s.cache.Some? { StoredSetBlocksExactly(env, s.cache.value, s.json); }
  }

  /**
    A rebuild stores what its load read, however old that is by then: it puts the read model back exactly when that is
    older than what the model holds.  The source is untouched.
   */
  lemma RebuildRegressesExactly(env: Environment, readings: Readings, s: State, client: nat, opens: bool, stored: bool)
    requires Lawful(env) && client in s.loads && s.loads[client].Checked?
    ensures var found, t := s.loads[client].found, Next(env, readings, s, Rebuild(client, opens, stored));
            && t.json == s.json
            && (t.cache.Some? ==> SameContent(env, found, t.cache.value))
            && (t.cache.Some? && s.cache.Some? ==>
                  (env.freshnessOf(t.cache.value) < env.freshnessOf(s.cache.value)
                   <==> env.freshnessOf(found) < env.freshnessOf(s.cache.value)))
  {
    hide IsClean, SameDocuments, HeadRevision.Injective, AuditRoot.OrderFree;
  }
}
