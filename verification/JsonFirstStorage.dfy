/**
  The JSON-first storage adapter (packages/mcp/src/json-first-storage.ts): canonical JSON is the source, SQLite a read
  model that may lag behind.  A snapshot stands for the documents it encodes to.

  A crash inside a replacement can leave `project.json` in the backup.  The adapter takes that for a project without
  JSON, because it looks for the file before anything recovers the replacement.

  The methods here are calls that nobody else's overlaps.  Only saves take the write lock, so loads and compactions can
  overlap them and each other; OverlappingCalls, OverlappingRuns and OverlappingStorage say what then holds.
 */
module JsonFirstStorage {
  import opened Wrappers
  import opened AuditLayout
  import opened AuditLayoutProofs
  import opened AuditStorage
  import opened AuditDisk
  import opened AuditRoot
  import opened CanonicalReplacement
  import HeadRevision
  import Sorting

  datatype Snapshot = Snapshot(documents: seq<Document>, headRevision: Option<string>)

  /** What opening the read model can find.  `documents` is None when the row exists but the aggregate does not load. */
  datatype Sqlite =
    | Empty
    | Unavailable
    | Single(projectId: string, documents: Option<seq<Document>>, updatedAt: nat, revision: string)
    | Multiple(projectIds: seq<string>)

  datatype StorageError = WriteInProgress | ProjectMismatch | JsonSqliteConflict | StaleSnapshot | JsonWriteFailed
                        | JsonSourceInvalid | SqliteUnavailable | Died

  /** The JSON root, hashing, how paths and texts are spelled, and what the adapter reads off an encoded snapshot. */
  datatype Environment = Environment(
    audit: AuditLayout.Environment,
    hash: string -> string,
    leq: (string, string) -> bool,
    pathText: Path -> string,
    spelled: Text -> string,
    projectIdOf: seq<Document> -> string,
    freshnessOf: seq<Document> -> nat,
    comparable: seq<Document> -> seq<Document>)

  /** Two lists of one document set. */
  ghost predicate SameDocuments(a: seq<Document>, b: seq<Document>) {
    forall d :: d in a <==> d in b
  }

  ghost predicate Lawful(env: Environment) {
    && HeadRevision.Injective(env.hash) && Sorting.TotalOrder(env.leq) && OrderFree(env.audit)
    && (forall p, q :: env.pathText(p) == env.pathText(q) ==> p == q)
    && (forall t, u :: env.spelled(t) == env.spelled(u) ==> t == u)
    && (forall documents {:trigger env.audit.valid(documents)} ::
          IsDocumentSet(documents) && env.audit.valid(documents) ==> IsClean(env, documents) && documents != [])
    && (forall a, b :: DistinctPaths(a) && DistinctPaths(b) && SameDocuments(a, b) ==>
          env.projectIdOf(a) == env.projectIdOf(b) && SameContent(env, a, b))
    && (forall a, b :: SameContent(env, a, b) ==> env.freshnessOf(a) == env.freshnessOf(b))
  }

  function Rendered(env: Environment, d: Document): HeadRevision.Document {
    HeadRevision.Document(env.pathText(d.path), env.spelled(d.content))
  }

  function RenderAll(env: Environment, documents: seq<Document>): seq<HeadRevision.Document> {
    Sorting.Map((d: Document) => Rendered(env, d), documents)
  }

  ghost predicate IsClean(env: Environment, documents: seq<Document>) {
    HeadRevision.IsCleanSet(RenderAll(env, documents))
  }

  function Head(env: Environment, documents: seq<Document>): string {
    HeadRevision.HeadOf(env.hash, env.leq, RenderAll(env, documents))
  }

  /** `documentSetsEqual`. */
  predicate SameContent(env: Environment, a: seq<Document>, b: seq<Document>) {
    env.comparable(a) == env.comparable(b)
  }

  predicate BlockingConflict(env: Environment, json: seq<Document>, sqlite: Sqlite) {
    match sqlite
    case Empty | Unavailable => false
    case Multiple(_) => true
    case Single(projectId, documents, updatedAt, _) =>
      || projectId != env.projectIdOf(json)
      || (documents.Some? && !SameContent(env, json, documents.value) && env.freshnessOf(json) <= updatedAt)
  }

  /** The read model is absent, equal to the source, or strictly older than it. */
  predicate Coherent(env: Environment, json: Option<seq<Document>>, sqlite: Sqlite) {
    match sqlite
    case Empty | Unavailable => true
    case Multiple(_) => false
    case Single(projectId, documents, updatedAt, _) =>
      && json.Some? && documents.Some? && projectId == env.projectIdOf(json.value)
      && updatedAt == env.freshnessOf(documents.value)
      && (SameContent(env, json.value, documents.value) || updatedAt < env.freshnessOf(json.value))
  }

  /** The snapshot is fresher than every document set its head can stand for. */
  ghost predicate RaisesFreshness(env: Environment, snapshot: Snapshot) {
    forall base :: IsClean(env, base) && snapshot.headRevision == Some(Head(env, base)) ==>
      env.freshnessOf(base) < env.freshnessOf(snapshot.documents)
  }

  /** `documents` is the one set the head stands for. */
  ghost predicate IsBase(env: Environment, head: Option<string>, documents: seq<Document>) {
    && head == Some(Head(env, documents))
    && forall other :: IsClean(env, other) && head == Some(Head(env, other)) ==> SameDocuments(other, documents)
  }

  /** The encoder writes canonical text. */
  predicate IsEncoded(snapshot: Snapshot) {
    forall d <- snapshot.documents :: IsCanonical(d)
  }

  // ---------- Heads ----------

  lemma RenderedIsIn(env: Environment, documents: seq<Document>, d: Document)
    requires Lawful(env)
    ensures Rendered(env, d) in RenderAll(env, documents) <==> d in documents
  {
    hide HeadRevision.Injective, OrderFree;
    var rendered := RenderAll(env, documents);
    if Rendered(env, d) in rendered {
      var i :| 0 <= i < |rendered| && rendered[i] == Rendered(env, d);
      assert documents[i] == d;
    }
    if d in documents {
      var i :| 0 <= i < |documents| && documents[i] == d;
      assert rendered[i] == Rendered(env, d);
    }
  }

  /** Two clean sets have one head exactly when they are one set. */
  lemma HeadNamesOneSet(env: Environment, a: seq<Document>, b: seq<Document>)
    requires Lawful(env) && IsClean(env, a) && IsClean(env, b)
    ensures Head(env, a) == Head(env, b) <==> SameDocuments(a, b)
  {
    hide HeadRevision.IsCleanSet, HeadRevision.HeadOf, RenderAll, OrderFree, SameContent;
    HeadRevision.HeadNamesOneSet(env.hash, env.leq, RenderAll(env, a), RenderAll(env, b));
    if SameDocuments(a, b) {
      forall r ensures r in RenderAll(env, a) <==> r in RenderAll(env, b) {
        RenderedOf(env, a, b, r);
        RenderedOf(env, b, a, r);
      }
    }
    if Head(env, a) == Head(env, b) {
      forall d ensures d in a <==> d in b { RenderedIsIn(env, a, d); RenderedIsIn(env, b, d); }
    }
  }

  lemma RenderedOf(env: Environment, a: seq<Document>, b: seq<Document>, r: HeadRevision.Document)
    requires Lawful(env) && SameDocuments(a, b)
    ensures r in RenderAll(env, a) ==> r in RenderAll(env, b)
  {
    if r in RenderAll(env, a) {
      var i :| 0 <= i < |a| && RenderAll(env, a)[i] == r;
      assert a[i] in b;
      RenderedIsIn(env, b, a[i]);
    }
  }

  lemma HeadIsBase(env: Environment, documents: seq<Document>)
    requires Lawful(env) && IsClean(env, documents)
    ensures IsBase(env, Some(Head(env, documents)), documents)
  {
    hide Lawful, IsClean, Head, SameDocuments;
    forall other | IsClean(env, other) && Head(env, documents) == Head(env, other) ensures SameDocuments(other, documents) {
      HeadNamesOneSet(env, other, documents);
    }
  }

  // ---------- What the adapter sees ----------

  /** `fs.access` on `project.json`, before any recovery. */
  predicate IsVisible(d: Disk<Tree>) {
    ProjectPath in Flatten(d.root)
  }

  /** The document set that the next recovery leaves, if any. */
  ghost function SourceOf(env: Environment, durable: Entries<Tree>): Option<seq<Document>> {
    if durable == map[] then None else Some(Held(env.audit, Flatten(durable)))
  }

  /** The file is there, or recovery brings nothing back. */
  predicate InSight(rules: Rules<Tree>, d: Disk<Tree>) {
    || IsVisible(d)
    || match Recovered(rules, d)
       case None => false
       case Some(after) => Only(after.root, rules.names) == map[]
  }

  lemma InSightMeansSource(rules: Rules<Tree>, d: Disk<Tree>, durable: Entries<Tree>, incoming: Entries<Tree>)
    requires Recoverable(rules, d, durable, incoming)
    ensures InSight(rules, d) <==> IsVisible(d) || (Recovered(rules, d).Some? && durable == map[])
  {
    hide Recoverable, Recovered;
    if Recovered(rules, d).Some? { RecoveredIsDurable(rules, d, durable, incoming); }
  }

  /** Where every document set has its own `project.json`, the source is out of sight exactly when that is in the backup. */
  lemma OutOfSightExactly(env: Environment, rules: Rules<Tree>, d: Disk<Tree>, durable: Entries<Tree>, incoming: Entries<Tree>)
    requires Recoverable(rules, d, durable, incoming) && Recovered(rules, d).Some? && rules.inspect(map[]) != ValidSet
    requires durable != map[] ==> ProjectPath in Flatten(durable)
    ensures InSight(rules, d)
       <==> IsVisible(d) || d.replacement.None? || ProjectPath !in Flatten(d.replacement.value.backup)
  {
    hide Recovered, Partial;
    InSightMeansSource(rules, d, durable, incoming);
    if d.replacement.Some? && durable != map[] {
      var n := TopLevel(ProjectPath);
      assert n in durable && n in Only(durable, rules.names);
      if n in d.root { assert n in Only(d.root, rules.names); }
    } else if d.replacement.None? && durable != map[] {
      var n := TopLevel(ProjectPath);
      assert n in Only(d.root, rules.names);
    }
  }

  /** The checks of a save: `source` is what was loaded and `state` what was found of the read model. */
  predicate PassesChecks(env: Environment, enabled: bool, source: Option<seq<Document>>, state: Sqlite, snapshot: Snapshot) {
    && !(enabled && SqliteRefuses(env, source, state, snapshot))
    && match source
       case Some(json) =>
         env.projectIdOf(json) == env.projectIdOf(snapshot.documents) && snapshot.headRevision == Some(Head(env, json))
       case None => snapshot.headRevision == FallbackHead(enabled, state)
  }

  /** The read model holds something that a save must not overwrite. */
  predicate SqliteRefuses(env: Environment, source: Option<seq<Document>>, state: Sqlite, snapshot: Snapshot) {
    match source
    case Some(json) => BlockingConflict(env, json, state)
    case None => state.Multiple? || (state.Single? && state.projectId != env.projectIdOf(snapshot.documents))
  }

  /** The head that a save without a JSON source is compared with. */
  function FallbackHead(enabled: bool, state: Sqlite): Option<string> {
    if enabled && state.Single? && state.documents.Some? then Some(state.revision) else None
  }

  /** A save that passes replaces nothing, or the one set its head stands for. */
  ghost predicate ReplacesItsBase(env: Environment, source: Option<seq<Document>>, snapshot: Snapshot) {
    source.Some? ==> IsBase(env, snapshot.headRevision, source.value)
  }

  ghost predicate IsSafeSave(env: Environment, d: Disk<Tree>, durable: Entries<Tree>, enabled: bool, state: Sqlite,
                             snapshot: Snapshot) {
    var source := SourceOf(env, durable);
    PassesChecks(env, enabled, if IsVisible(d) then source else None, state, snapshot) ==> ReplacesItsBase(env, source, snapshot)
  }

  /**
    With and without a read model: whatever snapshot is saved and whatever that model holds, a save that passes its checks
    replaces the very set its head stands for if and only if the source is in sight.
   */
  lemma SavesAreSafeExactly(env: Environment, rules: Rules<Tree>, d: Disk<Tree>, durable: Entries<Tree>,
                            incoming: Entries<Tree>, enabled: bool)
    requires Lawful(env) && Recoverable(rules, d, durable, incoming) && Recovered(rules, d).Some?
    requires SourceOf(env, durable).Some? ==> IsClean(env, SourceOf(env, durable).value)
    ensures (forall state, snapshot :: IsSafeSave(env, d, durable, enabled, state, snapshot)) <==> InSight(rules, d)
  {
    hide Lawful, Recoverable, Recovered, IsClean, Head, Held, IsVisible, Flatten;
    InSightMeansSource(rules, d, durable, incoming);
    var source := SourceOf(env, durable);
    if InSight(rules, d) {
      if source.Some? { HeadIsBase(env, source.value); }
    } else {
      var snapshot := Snapshot([], None);
      assert PassesChecks(env, enabled, None, Empty, snapshot) && !ReplacesItsBase(env, source, snapshot);
      assert !IsSafeSave(env, d, durable, enabled, Empty, snapshot);
    }
  }

  lemma NoProjectLeft(durable: Entries<Tree>, moved: seq<Name>)
    requires "project.json" in moved
    ensures ProjectPath !in Flatten(Without(durable, moved))
  {
    assert TopLevel(ProjectPath) == "project.json";
  }

  /**
    The crash that hides the source: any time after `project.json`, which is the first entry, has moved to the backup.  A
    snapshot that knows no head then passes.
   */
  lemma FirstRenameHidesSource(env: Environment, rules: Rules<Tree>, durable: Entries<Tree>, incoming: Entries<Tree>,
                               moved: seq<Name>)
    requires FitsRules(env.audit, rules) && Acceptable(rules, durable) && Only(durable, rules.names) == durable
    requires durable != map[] && moved <= rules.names && "project.json" in moved
    ensures var d := CrashedInBackup(durable, incoming, moved);
            && Recoverable(rules, d, durable, incoming) && !InSight(rules, d)
            && forall documents :: !IsSafeSave(env, d, durable, false, Empty, Snapshot(documents, None))
  {
    hide FitsRules, Recovered, Acceptable, Flatten, Recoverable, Held;
    RulesAreLawful(env.audit, rules);
    NoProjectLeft(durable, moved);
    var d := CrashedInBackup(durable, incoming, moved);
    BackupPhaseRecoverable(rules, durable, moved, d.replacement.value, durable, incoming);
    InSightMeansSource(rules, d, durable, incoming);
  }

  /** With one crash, at the second rename, any project can be overwritten by a snapshot that knows no head. */
  lemma SomeCrashHidesSource(env: Environment, rules: Rules<Tree>, durable: Entries<Tree>, incoming: Entries<Tree>)
    returns (d: Disk<Tree>)
    requires FitsRules(env.audit, rules) && Acceptable(rules, durable) && Only(durable, rules.names) == durable && durable != map[]
    ensures Recoverable(rules, d, durable, incoming) && !InSight(rules, d)
    ensures forall documents :: !IsSafeSave(env, d, durable, false, Empty, Snapshot(documents, None))
  {
    var moved := TOP_LEVEL_ENTRIES[..1];
    assert "project.json" in moved by { assert moved[0] == "project.json"; }
    FirstRenameHidesSource(env, rules, durable, incoming, moved);
    d := CrashedInBackup(durable, incoming, moved);
  }

  class JsonFirstStorage {
    const env: Environment
    const enabled: bool
    const root: AuditRoot
    var sqlite: Sqlite
    /** Whether attempts to open, read or write the read model may fail. */
    var failing: bool

    ghost predicate Valid()
      reads this, root, root.store
    {
      Lawful(env) && root.env == env.audit && root.Valid()
    }

    constructor (env: Environment, enabled: bool, root: AuditRoot)
      requires Lawful(env) && root.env == env.audit && root.Valid()
      ensures Valid() && this.env == env && this.enabled == enabled && this.root == root && sqlite == Empty
    {
      this.env, this.enabled, this.root, this.sqlite, this.failing := env, enabled, root, Empty, true;
    }

    function Disk(): Disk<Tree>
      reads this, root, root.store
    {
      root.store.Snapshot()
    }

    ghost function Source(): Option<seq<Document>>
      reads this, root, root.store
    {
      SourceOf(env, root.store.durable)
    }

    ghost function Now(): View
      reads this, root, root.store
    {
      View(Disk(), root.store.durable, sqlite)
    }

    /** What loading the source finds, if it succeeds. */
    ghost function Loaded(): Option<seq<Document>>
      reads this, root, root.store
    {
      if IsVisible(Disk()) then Source() else None
    }

    /** Why a load may fail.  `busy` says that another process holds the write lock. */
    ghost predicate LoadMayFail(v: View, busy: bool, error: StorageError)
      reads this, root, root.store
    {
      match error
      case WriteInProgress => busy
      case Died => root.store.crashes
      case JsonSourceInvalid => IsVisible(v.disk) && (Recovered(root.store.rules, v.disk) == None || v.durable == map[])
      case JsonSqliteConflict =>
        enabled && IsVisible(v.disk) && v.durable != map[] && BlockingConflict(env, SourceOf(env, v.durable).value, v.sqlite)
      case SqliteUnavailable => enabled && !IsVisible(v.disk) && (failing || v.sqlite.Unavailable?)
      case _ => false
    }

    /** Why a save may fail. */
    ghost predicate SaveMayFail(v: View, snapshot: Snapshot, busy: bool, error: StorageError)
      reads this, root, root.store
    {
      var source := if IsVisible(v.disk) then SourceOf(env, v.durable) else None;
      var seen := if IsVisible(v.disk) then Flatten(v.durable) else Flatten(v.disk.root);
      match error
      case WriteInProgress => busy
      case Died => root.store.crashes
      case JsonSourceInvalid => IsVisible(v.disk) && (Recovered(root.store.rules, v.disk) == None || v.durable == map[])
      case ProjectMismatch => source.Some? && env.projectIdOf(source.value) != env.projectIdOf(snapshot.documents)
      case JsonSqliteConflict => enabled && SqliteRefuses(env, source, v.sqlite, snapshot)
      case StaleSnapshot =>
        if source.Some? then snapshot.headRevision != Some(Head(env, source.value))
        else snapshot.headRevision != None || FallbackHead(enabled, v.sqlite) != None
      case JsonWriteFailed =>
        || Recovered(root.store.rules, v.disk) == None
        || !CanBeReplaced(env.audit, seen, snapshot.documents, source.None? && !enabled)
      case SqliteUnavailable => false
    }

    /** What a non-empty durable tree holds has been validated. */
    lemma SourceIsValid()
      requires Valid()
      ensures Source().Some? <==> IsDocumentSet(Held(env.audit, root.Durable())) && env.audit.valid(Held(env.audit, root.Durable()))
      ensures Source().Some? ==> Source().value == Held(env.audit, root.Durable()) && IsClean(env, Source().value)
    {
      hide IsClean, SameDocuments, SameContent, OrderFree, HeadRevision.Injective, CutIsLawful, Readable, PathsHeldOnce;
      if root.store.durable == map[] {
        assert Flatten(root.store.durable) == map[];
        NothingIsHeld(env.audit);
      } else {
        assert VerdictOn(env.audit, root.store.durable) == ValidSet;
      }
    }

    /** Any error while opening or reading the read model counts as unavailable. */
    method InspectSqliteState() returns (state: Sqlite)
      ensures state == sqlite || (failing && state == Unavailable)
    {
      if {
        case failing => return Unavailable;
        case true => return sqlite;
      }
    }

    /** One attempt to store a snapshot in the read model. */
    method SaveToSqlite(documents: seq<Document>) returns (ok: bool)
      modifies this`sqlite
      ensures !ok ==> sqlite == old(sqlite)
      ensures ok && old(sqlite == Empty || (sqlite.Single? && sqlite.projectId == env.projectIdOf(documents))) ==>
                sqlite.Single? && sqlite == Single(env.projectIdOf(documents), Some(documents), env.freshnessOf(documents), sqlite.revision)
      ensures ok ==> !old(sqlite.Unavailable?)
      ensures !failing ==> ok == !old(sqlite.Unavailable?)
    {
      if {
        case failing => return false;
        case true =>
      }
      var projectId := env.projectIdOf(documents);
      var revision: string := *;
      ok := true;
      match sqlite
      case Unavailable => return false;
      case Empty => sqlite := Single(projectId, Some(documents), env.freshnessOf(documents), revision);
      case Single(other, _, _, _) =>
        if other == projectId {
          sqlite := Single(projectId, Some(documents), env.freshnessOf(documents), revision);
        } else {
          sqlite := Multiple([other, projectId]);
        }
      case Multiple(ids) => sqlite := Multiple(if projectId in ids then ids else ids + [projectId]);
    }

    /** Store the snapshot; on failure delete the database files and try once more; a second failure is only logged. */
    method SyncJsonSnapshotToSqlite(documents: seq<Document>)
      modifies this`sqlite
      ensures old(sqlite.Single? ==> sqlite.projectId == env.projectIdOf(documents)) && !old(sqlite.Multiple?) ==>
                || (failing && sqlite == Empty)
                || (sqlite.Single?
                    && sqlite == Single(env.projectIdOf(documents), Some(documents), env.freshnessOf(documents), sqlite.revision))
    {
      var ok := SaveToSqlite(documents);
      if !ok {
        sqlite := Empty;
        ok := SaveToSqlite(documents);
      }
    }

    /** The read model is rebuilt when it is missing or differs; another project's model is left alone. */
    method RebuildSqliteReadModelIfNeeded(documents: seq<Document>)
      modifies this`sqlite
      ensures !enabled ==> sqlite == old(sqlite)
      ensures enabled && old(Coherent(env, Some(documents), sqlite)) ==>
                || (failing && sqlite == Empty)
                || (sqlite.Single? && sqlite.projectId == env.projectIdOf(documents)
                    && sqlite.documents.Some? && sqlite.updatedAt == env.freshnessOf(sqlite.documents.value)
                    && SameContent(env, documents, sqlite.documents.value))
    {
      if !enabled { return; }
      var state := InspectSqliteState();
      if state.Empty? || state.Unavailable? {
        SyncJsonSnapshotToSqlite(documents);
        return;
      }
      if state.Multiple? || state.projectId != env.projectIdOf(documents) { return; }
      if state.documents.None? || !SameContent(env, documents, state.documents.value) {
        SyncJsonSnapshotToSqlite(documents);
      }
    }

    /** `loadJsonSourceIfPresent`: a `project.json` that is not in place means no source; one that is, means recovery. */
    method LoadJsonSource() returns (r: Result<Option<seq<Document>>, StorageError>)
      requires Valid()
      modifies root.store`root, root.store`replacement
      ensures Valid()
      ensures !old(IsVisible(Disk())) ==> r == Success(None) && Disk() == old(Disk())
      ensures old(IsVisible(Disk())) && r.Success? ==>
                r.value.Some? && r.value == Source() && Disk().replacement == None && root.Seen() == root.Durable()
      ensures r.Failure? ==> old(IsVisible(Disk())) && r.error in {Died, JsonSourceInvalid}
      ensures r == Failure(Died) ==> root.store.crashes
      ensures r == Failure(JsonSourceInvalid) ==>
                Recovered(root.store.rules, old(Disk())) == None || Source() == None
    {
      hide Lawful, FitsRules, Recovered, Recoverable, Flatten, Held, SourceOf, IsDocumentSet, IsClean;
      if ProjectPath !in root.Seen() { return Success(None); }
      SourceIsValid();
      var read := root.Read();
      if read.Failure? { return Failure(if read.error == AuditError.Interrupted then Died else JsonSourceInvalid); }
      if !IsDocumentSet(read.value) || !env.audit.valid(read.value) { return Failure(JsonSourceInvalid); }
      return Success(Some(read.value));
    }

    lemma SightMeansSource()
      requires Valid()
      ensures InSight(root.store.rules, Disk()) ==> IsVisible(Disk()) || root.store.durable == map[]
    {
      hide Recoverable, Recovered, Flatten, Lawful;
      InSightMeansSource(root.store.rules, Disk(), root.store.durable, root.store.incoming);
    }

    /** A source that has been loaded has been recovered; where there is none, there are no packs. */
    lemma SightMeansPacks(v: View)
      requires Valid() && root.store.durable == v.durable
      requires Disk().replacement == None || !IsVisible(v.disk)
      ensures forall compactAudit ::
                v.durable == map[] || Disk().replacement == None ==> PacksInSight(root.Durable(), root.Seen(), compactAudit)
    {
      hide Recoverable, Lawful;
      if v.durable == map[] {
        assert PackFiles(root.Durable()) == map[];
      } else if Disk().replacement == None {
        root.RecoveredRootIsDurable();
      }
    }

    /** The documents of a committed save are the source. */
    lemma SaveIsStored(seen: Tree, snapshot: Snapshot, compactAudit: bool)
      requires Valid() && IsEncoded(snapshot) && Committed(env.audit, seen, snapshot.documents, compactAudit, root.Durable())
      ensures Source().Some? && Stores(env, Source(), snapshot)
      ensures SameContent(env, Source().value, snapshot.documents)
      ensures env.projectIdOf(Source().value) == env.projectIdOf(snapshot.documents)
      ensures env.freshnessOf(Source().value) == env.freshnessOf(snapshot.documents)
    {
      hide AuditRoot.Valid, Recoverable, HoldsExactly, IsReadable, Holds, HeadRevision.Injective, OrderFree, SameContent, Head,
           IsClean, CarriesPacks, KeepsPacked, PackFiles, Flatten;
      assert Sorting.TotalOrder(env.audit.pathLeq) by { RootHasOrder(); }
      CommittedHoldsTheSame(env.audit, seen, snapshot.documents, compactAudit, root.Durable());
      var held := Held(env.audit, root.Durable());
      assert SameDocuments(held, snapshot.documents);
      assert snapshot.documents[0] in held;
      if root.store.durable == map[] { EmptyHoldsNothing(snapshot.documents[0]); }
      SourceIsValid();
      HeadNamesOneSet(env, held, snapshot.documents);
    }

    lemma RootHasOrder()
      requires root.Valid() && root.env == env.audit
      ensures Sorting.TotalOrder(env.audit.pathLeq)
    {
    }

    lemma EmptyHoldsNothing(d: Document)
      requires root.store.durable == map[]
      ensures !Holds(env.audit, root.Durable(), d)
    {
    }

    /** A committed save of a source in sight leaves the read model behind, but coherent. */
    lemma StaysCoherent(v: View, snapshot: Snapshot)
      requires Valid() && Source().Some? && sqlite == v.sqlite && Coherent(env, SourceOf(env, v.durable), v.sqlite)
      requires v.durable != map[] ==>
                 && env.projectIdOf(SourceOf(env, v.durable).value) == env.projectIdOf(Source().value)
                 && env.freshnessOf(SourceOf(env, v.durable).value) < env.freshnessOf(Source().value)
      ensures Coherent(env, Source(), sqlite)
    {
      hide Held, AuditRoot.Valid, HeadRevision.Injective, OrderFree;
      if v.durable != map[] {
        FresherSourceStaysCoherent(env, SourceOf(env, v.durable).value, Source().value, sqlite);
      }
    }

    lemma ConflictIsContradiction(model: Sqlite, json: seq<Document>)
      ensures enabled && BlockingConflict(env, json, model) <==> ContradictsSource(model, json)
      ensures Coherent(env, Some(json), model) ==> !BlockingConflict(env, json, model)
      ensures !BlockingConflict(env, json, Unavailable)
    {
    }

    /** A load takes no lock; `busy` says that another process holds it. */
    method LoadProjectAggregate(projectId: string, busy: bool) returns (r: Result<Option<Snapshot>, StorageError>)
      requires Valid()
      modifies this`sqlite, root.store`root, root.store`replacement
      ensures Valid()
      ensures r.Failure? ==> LoadMayFail(old(Now()), busy, r.error)
      ensures busy ==> r == Failure(WriteInProgress)
      ensures r.Success? && old(IsVisible(Disk())) ==>
                Disk().replacement == None && ServesSource(env, Source(), projectId, r.value)
      ensures !old(IsVisible(Disk())) ==> sqlite == old(sqlite) && Disk() == old(Disk())
      ensures r.Success? && !old(IsVisible(Disk())) ==> ServesSqlite(enabled, failing, sqlite, projectId, r.value)
      ensures old(Coherent(env, Source(), sqlite)) ==> Coherent(env, Source(), sqlite) && r != Failure(JsonSqliteConflict)
      ensures r.Success? && r.value.Some? && old(IsVisible(Disk())) && enabled && old(Coherent(env, Source(), sqlite)) ==>
                IsSynchronized(env, Source(), failing, sqlite)
      ensures !busy && !failing && !root.store.crashes && old(IsVisible(Disk()) && Recovered(root.store.rules, Disk()).Some?)
              && old(Source()).Some? ==>
                (r == Failure(JsonSqliteConflict) <==> ContradictsSource(old(sqlite), old(Source()).value))
                && (r.Failure? ==> r.error == JsonSqliteConflict)
    {
      hide Recoverable, IsDocumentSet, IsClean, BlockingConflict, ContradictsSource;
      hide Lawful, Held, SameContent, IsVisible, InSight, AuditRoot.Valid, Flatten, Recovered;
      if busy { return Failure(WriteInProgress); }
      var loaded := LoadJsonSource();
      if loaded.Failure? { return Failure(loaded.error); }
      if loaded.value.None? {
        if !enabled { return Success(None); }
        var state := InspectSqliteState();
        match state
        case Unavailable => return Failure(SqliteUnavailable);
        case Single(found, documents, _, revision) =>
          if found == projectId && documents.Some? { return Success(Some(Snapshot(documents.value, Some(revision)))); }
          return Success(None);
        case Empty => return Success(None);
        case Multiple(found) =>
          if projectId !in found { return Success(None); }
          var documents: seq<Document>, revision: string := *, *;
          return Success(Some(Snapshot(documents, Some(revision))));
      }
      var json := loaded.value.value;
      ConflictIsContradiction(sqlite, json);
      if enabled {
        var state := InspectSqliteState();
        ConflictIsContradiction(state, json);
        if BlockingConflict(env, json, state) { return Failure(JsonSqliteConflict); }
      }
      if env.projectIdOf(json) != projectId { return Success(None); }
      RebuildSqliteReadModelIfNeeded(json);
      return Success(Some(Snapshot(json, Some(Head(env, json)))));
    }

    /**
      What is decided about a save without canonical JSON: a read model of several projects, or of another one, is a
      conflict; otherwise the snapshot must carry the revision of the stored aggregate, or none if there is none to load.
     */
    ghost predicate AnswersWithoutSource(model: Sqlite, snapshot: Snapshot, refused: bool, error: StorageError)
    {
      var isForeign := enabled && (model.Multiple? || (model.Single? && model.projectId != env.projectIdOf(snapshot.documents)));
      var stored := if enabled && model.Single? && model.documents.Some? then Some(model.revision) else None;
      && (refused && error == JsonSqliteConflict <==> isForeign)
      && (refused && error == StaleSnapshot <==> !isForeign && snapshot.headRevision != stored)
      && (refused && error == ProjectMismatch <==> false)
    }

    /** With canonical JSON: another project is a mismatch; a read model that is of several projects or of another one, or
        differs without being older, is a conflict; and the snapshot must carry the head of the source. */
    ghost predicate AnswersWithSource(model: Sqlite, json: seq<Document>, snapshot: Snapshot, refused: bool, error: StorageError)
    {
      var isMismatch := env.projectIdOf(json) != env.projectIdOf(snapshot.documents);
      && (refused && error == ProjectMismatch <==> isMismatch)
      && (refused && error == JsonSqliteConflict <==> !isMismatch && ContradictsSource(model, json))
      && (refused && error == StaleSnapshot <==>
          !isMismatch && !ContradictsSource(model, json) && snapshot.headRevision != Some(Head(env, json)))
    }

    ghost predicate ContradictsSource(model: Sqlite, json: seq<Document>)
    {
      && enabled
      && (|| model.Multiple?
          || (model.Single? && model.projectId != env.projectIdOf(json))
          || (&& model.Single? && model.documents.Some? && !SameContent(env, json, model.documents.value)
              && model.updatedAt >= env.freshnessOf(json)))
    }

    /** A save that has passed its checks may still fail, but for none of these causes. */
    lemma PassedIsPassed(model: Sqlite, snapshot: Snapshot, refused: bool, error: StorageError)
      requires !(refused && error in {JsonSqliteConflict, StaleSnapshot, ProjectMismatch})
      ensures AnswersWithoutSource(model, snapshot, false, Died) ==> AnswersWithoutSource(model, snapshot, refused, error)
      ensures forall json :: AnswersWithSource(model, json, snapshot, false, Died) ==>
                AnswersWithSource(model, json, snapshot, refused, error)
    {
    }

    /** What opening the read model may show; a runtime without one does not look. */
    ghost predicate CanBeFound(actual: Sqlite, state: Sqlite)
      reads this
    {
      enabled ==> state == actual || (failing && state == Unavailable)
    }

    /** `assertNoBlockingConflict`, its counterpart for a missing source, and `assertExpectedHeadRevision`. */
    method CheckSave(snapshot: Snapshot, source: Option<seq<Document>>) returns (r: Result<(), StorageError>, ghost state: Sqlite)
      ensures r.Success? <==> PassesChecks(env, enabled, source, state, snapshot)
      ensures r.Success? ==> CanBeFound(sqlite, state)
      ensures r.Failure? ==>
                match r.error
                case ProjectMismatch => source.Some? && env.projectIdOf(source.value) != env.projectIdOf(snapshot.documents)
                case JsonSqliteConflict =>
                  && enabled && SqliteRefuses(env, source, sqlite, snapshot)
                  && (source.Some? ==> env.projectIdOf(source.value) == env.projectIdOf(snapshot.documents))
                case StaleSnapshot =>
                  if source.Some? then snapshot.headRevision != Some(Head(env, source.value))
                  else snapshot.headRevision != None || FallbackHead(enabled, sqlite) != None
                case _ => false
      ensures source.None? && !failing ==> AnswersWithoutSource(sqlite, snapshot, r.Failure?, if r.Failure? then r.error else Died)
      ensures source.Some? && !failing ==>
                AnswersWithSource(sqlite, source.value, snapshot, r.Failure?, if r.Failure? then r.error else Died)
    {
      hide Head, SameContent;
      var found := Empty;
      state := found;
      if source.Some? && env.projectIdOf(source.value) != env.projectIdOf(snapshot.documents) {
        r := Failure(ProjectMismatch);
        return;
      }
      if enabled {
        found := InspectSqliteState();
        state := found;
        if SqliteRefuses(env, source, found, snapshot) { r := Failure(JsonSqliteConflict); return; }
      }
      var current := if source.Some? then Some(Head(env, source.value)) else FallbackHead(enabled, found);
      r := if snapshot.headRevision != current then Failure(StaleSnapshot) else Success(());
    }

    /** A save under the write lock, which may die at every step of the replacement and before the sync. */
    method SaveProjectAggregate(snapshot: Snapshot, busy: bool) returns (r: Result<string, StorageError>)
      requires Valid() && IsEncoded(snapshot)
      modifies this`sqlite, root.store`root, root.store`replacement, root.store`durable, root.store`incoming
      ensures Valid()
      ensures r.Failure? ==> SaveMayFail(old(Now()), snapshot, busy, r.error)
      ensures busy ==> r == Failure(WriteInProgress)
      ensures r.Success? ==> Disk().replacement == None && r.value == Head(env, snapshot.documents)
      ensures r.Success? || root.store.durable != old(root.store.durable) ==>
                && Stores(env, Source(), snapshot)
                && exists state :: CanBeFound(old(sqlite), state) && PassesChecks(env, enabled, old(Loaded()), state, snapshot)
      ensures r.Failure? && r.error != Died ==> root.store.durable == old(root.store.durable) && sqlite == old(sqlite)
      ensures r == Failure(Died) ==> sqlite == old(sqlite)
      ensures !enabled ==> sqlite == old(sqlite)
      ensures old(InSight(root.store.rules, Disk())) && (r.Success? || root.store.durable != old(root.store.durable)) ==>
                && ReplacesItsBase(env, old(Source()), snapshot)
                && KeepsPacks(old(root.Durable()), root.Durable())
      ensures old(Coherent(env, Source(), sqlite) && InSight(root.store.rules, Disk()))
              && (old(Source()).Some? ==> RaisesFreshness(env, snapshot)) ==>
                Coherent(env, Source(), sqlite) && r != Failure(JsonSqliteConflict)
      ensures r.Success? && enabled && old(Coherent(env, Source(), sqlite) && InSight(root.store.rules, Disk())) ==>
                IsSynchronized(env, Source(), failing, sqlite)
      ensures !busy && !failing && !old(IsVisible(Disk())) ==>
                AnswersWithoutSource(old(sqlite), snapshot, r.Failure?, if r.Failure? then r.error else Died)
      ensures !busy && !failing && !root.store.crashes && old(IsVisible(Disk()) && Recovered(root.store.rules, Disk()).Some?)
              && old(Source()).Some? ==>
                AnswersWithSource(old(sqlite), old(Source()).value, snapshot, r.Failure?, if r.Failure? then r.error else Died)
    {
      hide AnswersWithoutSource, AnswersWithSource;
      hide Lawful, Held, SameContent, IsVisible, InSight, Recovered, Recoverable, CanBeReplaced, Flatten, KeepsPacks, PacksInSight,
           Stores, IsBase, RaisesFreshness, IsDocumentSet, AuditRoot.Valid, Head, BlockingConflict, IsClean, Sound, SameDocuments,
           FallbackHead, SqliteRefuses, IsSynchronized;
      ghost var v := Now();
      SightMeansSource();
      SourceIsValid();
      if busy { return Failure(WriteInProgress); }
      var loaded := LoadJsonSource();
      if loaded.Failure? { return Failure(loaded.error); }
      var source := loaded.value;
      ghost var state;
      var checked;
      checked, state := CheckSave(snapshot, source);
      if checked.Failure? {
        if checked.error == JsonSqliteConflict && Coherent(env, source, sqlite) {
          CoherentNeverRefuses(env, source, sqlite, snapshot);
        }
        return Failure(checked.error);
      }
      assert source == old(Loaded()) && PassesChecks(env, enabled, source, state, snapshot);
      if source.Some? {
        HeadIsBase(env, source.value);
        NothingToRecover(root.store.rules, Disk());
      }
      SightMeansPacks(v);
      if RaisesFreshness(env, snapshot) && source.Some? { FreshnessRises(env, source.value, snapshot); }
      r := CommitSave(snapshot, source.None? && !enabled);
      PassedIsPassed(v.sqlite, snapshot, r.Failure?, if r.Failure? then r.error else Died);
    }

    /** The part of a save that writes: the replacement, and the sync of the read model. */
    method CommitSave(snapshot: Snapshot, compactAudit: bool) returns (r: Result<string, StorageError>)
      requires Valid() && IsEncoded(snapshot)
      modifies this`sqlite, root.store`root, root.store`replacement, root.store`durable, root.store`incoming
      ensures Valid()
      ensures r.Success? ==> Disk().replacement == None && r.value == Head(env, snapshot.documents)
      ensures r.Failure? ==> sqlite == old(sqlite)
      ensures r.Failure? ==>
                || (r.error == Died && root.store.crashes)
                || (&& r.error == JsonWriteFailed && root.store.durable == old(root.store.durable)
                    && (Recovered(root.store.rules, old(Disk())) == None
                        || !CanBeReplaced(env.audit, old(root.Seen()), snapshot.documents, compactAudit)))
      ensures !enabled ==> sqlite == old(sqlite)
      ensures Recovered(root.store.rules, old(Disk())) == None ==> r.Failure? && root.store.durable == old(root.store.durable)
      ensures r.Success? || root.store.durable != old(root.store.durable) ==>
                && Stores(env, Source(), snapshot)
                && var sighted := PacksInSight(old(root.Durable()), old(root.Seen()), compactAudit);
                   KeepsPacks(old(root.Durable()), root.Durable()) <==> sighted
      ensures old(Coherent(env, Source(), sqlite)) && IsFresher(env, old(Source()), snapshot) ==> Coherent(env, Source(), sqlite)
      ensures r.Success? && enabled && old(Coherent(env, Source(), sqlite)) && ProjectIsKept(env, old(Source()), snapshot) ==>
                IsSynchronized(env, Source(), failing, sqlite)
    {
      hide Lawful, Held, SameContent, Recovered, Recoverable, Committed, CanBeReplaced, Flatten, KeepsPacks, PacksInSight, Stores,
           IsDocumentSet, AuditRoot.Valid, Head, BlockingConflict, IsClean, Sound, SameDocuments;
      ghost var v := Now();
      ValidityIsOrderFree(env);
      ghost var seen := root.Seen();
      var replaced := root.Replace(snapshot.documents, compactAudit);
      if replaced.Success? || root.store.durable != v.durable {
        SaveIsStored(seen, snapshot, compactAudit);
        if Coherent(env, SourceOf(env, v.durable), v.sqlite) && IsFresher(env, SourceOf(env, v.durable), snapshot) {
          StaysCoherent(v, snapshot);
        }
      }
      if replaced.Failure? { return Failure(if replaced.error == AuditError.Interrupted then Died else JsonWriteFailed); }
      if {
        case root.store.crashes => return Failure(Died);
        case true =>
      }
      if enabled { SyncJsonSnapshotToSqlite(snapshot.documents); }
      return Success(Head(env, snapshot.documents));
    }

    /** A compaction of the audit layout.  It takes no lock; `busy` says that it has found that of another process. */
    method CompactAudit(versionId: Option<string>, closedAt: Option<string>, busy: bool) returns (r: Result<(), StorageError>)
      requires Valid()
      modifies root.store`root, root.store`replacement, root.store`durable, root.store`incoming
      ensures Valid() && sqlite == old(sqlite)
      ensures busy ==> r == Failure(WriteInProgress)
      ensures r == Failure(Died) ==> root.store.crashes
      ensures r.Failure? && r.error != Died ==> root.store.durable == old(root.store.durable)
      ensures root.store.durable != old(root.store.durable) ==>
                Compacted(env.audit, old(root.Durable()), versionId, root.Durable())
      ensures old(IsCanonicalSource(Source())) ==> Source() == old(Source())
      ensures r.Failure? ==> r.error in {WriteInProgress, Died, JsonWriteFailed}
    {
      hide Lawful, AuditRoot.Valid, Flatten, Recoverable, Recovered, Compacted, MustCompact, Held, IsDocumentSet, Sound, SourceOf,
           IsCanonicalSource, IsClean;
      if busy { return Failure(WriteInProgress); }
      SourceIsValid();
      RootIsSound();
      ghost var before, source := root.Durable(), Source();
      var compacted := root.CompactAudit(versionId, closedAt);
      if root.store.durable != old(root.store.durable) && IsCanonicalSource(source) {
        CompactionKeepsSource(before, source, versionId);
      }
      if compacted.Failure? {
        return Failure(if compacted.error == AuditError.Interrupted then Died else JsonWriteFailed);
      }
      return Success(());
    }

    lemma RootIsSound()
      requires root.Valid() && root.env == env.audit
      ensures Sound(env.audit, root.Durable())
    {
    }

    lemma CompactionKeepsSource(before: Tree, source: Option<seq<Document>>, versionId: Option<string>)
      requires Valid() && Sound(env.audit, before) && Compacted(env.audit, before, versionId, root.Durable())
      requires IsDocumentSet(Held(env.audit, before)) && env.audit.valid(Held(env.audit, before))
      requires IsCanonicalSource(source) && source == Some(Held(env.audit, before))
      ensures Source() == source
    {
      hide AuditRoot.Valid, Recoverable, Held, IsReadable, Compacted, HeadRevision.Injective, OrderFree, SameContent, Flatten,
           PackFiles, IsClean;
      RootHasOrder();
      SoundIsReadable(env.audit, before);
      CompactionKeepsReadsExactly(env.audit, before, versionId, root.Durable());
      SourceIsValid();
    }

    /** Any sequence of loads, saves and compactions by any clients, one after the other, each of which may fail or die at any
        step. */
    method Run(commands: seq<Command>) returns (replies: seq<Reply>, ghost log: seq<View>)
      requires Valid() && IsCanonicalSource(Source())
      requires forall command <- commands :: command.Save? ==> IsEncoded(command.snapshot)
      modifies this`sqlite, root.store`root, root.store`replacement, root.store`durable, root.store`incoming
      ensures Valid() && IsCanonicalSource(Source())
      ensures |log| == |commands| + 1 && log[0] == old(Now()) && log[|commands|] == Now()
      ensures IsTrace(env, root.store.rules, log, commands, replies)
    {
      hide Valid, Lawful, Head, IsVisible, InSight, Coherent, SourceOf, Stores, ReplacesItsBase, RaisesFreshness, IsCanonicalSource,
           IsCleanView;
      replies, log := [], [Now()];
      ViewIsClean();
      for i := 0 to |commands|
        invariant Valid() && IsCanonicalSource(Source())
        invariant |log| == i + 1 && log[0] == old(Now()) && log[i] == Now()
        invariant IsTrace(env, root.store.rules, log, commands[..i], replies)
      {
        assert commands[..i + 1][..i] == commands[..i] && commands[..i + 1][i] == commands[i];
        assert commands[i] in commands;
        var reply := Answer(commands[i]);
        ViewIsClean();
        RunGrows(env, root.store.rules, log, commands[..i + 1], replies, Now(), reply);
        replies, log := replies + [reply], log + [Now()];
      }
      assert commands[..|commands|] == commands;
    }

    lemma ViewIsClean()
      requires Valid()
      ensures IsCleanView(env, Now())
    {
      hide Lawful, AuditRoot.Valid, IsClean, Held, IsDocumentSet;
      SourceIsValid();
    }

    method Answer(command: Command) returns (reply: Reply)
      requires Valid() && IsCanonicalSource(Source())
      requires command.Save? ==> IsEncoded(command.snapshot)
      modifies this`sqlite, root.store`root, root.store`replacement, root.store`durable, root.store`incoming
      ensures Valid() && IsCanonicalSource(Source())
      ensures IsStep(env, root.store.rules, old(Now()), command, reply, Now())
    {
      hide Valid, Lawful, Head, IsVisible, InSight, Coherent, Held, RaisesFreshness, ReplacesItsBase, PassesChecks,
           KeepsPacks, Compacted, LoadMayFail, SaveMayFail;
      match command
      case Load(projectId, busy) =>
        var r := LoadProjectAggregate(projectId, busy);
        reply := if r.Success? then GotAggregate(r.value) else Refusal(r.error);
      case Save(snapshot, busy) =>
        var r := SaveProjectAggregate(snapshot, busy);
        reply := if r.Success? then GotHead(r.value) else Refusal(r.error);
      case Compact(versionId, closedAt, busy) =>
        var r := CompactAudit(versionId, closedAt, busy);
        reply := if r.Success? then Done else Refusal(r.error);
    }
  }

  // ---------- Runs ----------

  ghost predicate IsCanonicalSource(source: Option<seq<Document>>) {
    source.Some? ==> forall d <- source.value :: IsCanonical(d)
  }

  datatype Command =
    | Load(projectId: string, busy: bool)
    | Save(snapshot: Snapshot, busy: bool)
    | Compact(versionId: Option<string>, closedAt: Option<string>, busy: bool)

  datatype Reply = GotAggregate(found: Option<Snapshot>) | GotHead(head: string) | Done | Refusal(error: StorageError)

  ghost predicate IsCoherent(env: Environment, v: View) {
    Coherent(env, SourceOf(env, v.durable), v.sqlite)
  }

  /** What every save must keep to for the read model: the source in sight, and a fresher snapshot. */
  ghost predicate KeepsRules(env: Environment, rules: Rules<Tree>, a: View, command: Command) {
    command.Save? ==> InSight(rules, a.disk) && (a.durable != map[] ==> RaisesFreshness(env, command.snapshot))
  }

  ghost predicate IsStep(env: Environment, rules: Rules<Tree>, a: View, command: Command, reply: Reply, b: View) {
    var before, after := SourceOf(env, a.durable), SourceOf(env, b.durable);
    && (match command
        case Load(_, _) =>
          && after == before
          && (reply.GotAggregate? && reply.found.Some? && IsVisible(a.disk) ==>
                before.Some? && reply.found.value == Snapshot(before.value, Some(Head(env, before.value))))
        case Save(snapshot, _) =>
          && (reply.GotHead? || after != before ==>
                Stores(env, after, snapshot) && (InSight(rules, a.disk) ==> ReplacesItsBase(env, before, snapshot)))
          && (reply.GotHead? ==> reply.head == Head(env, snapshot.documents))
          && (reply.Refusal? && reply.error != Died ==> after == before)
        case Compact(_, _, _) => after == before)
    && (IsCoherent(env, a) && KeepsRules(env, rules, a, command) ==>
          IsCoherent(env, b) && reply != Refusal(JsonSqliteConflict))
  }

  ghost predicate IsCleanView(env: Environment, v: View) {
    SourceOf(env, v.durable).Some? ==> IsClean(env, SourceOf(env, v.durable).value)
  }

  ghost predicate IsTrace(env: Environment, rules: Rules<Tree>, log: seq<View>, commands: seq<Command>, replies: seq<Reply>) {
    && |log| == |commands| + 1 && |replies| == |commands|
    && (forall i :: 0 <= i < |log| ==> IsCleanView(env, log[i]))
    && forall i :: 0 <= i < |commands| ==> IsStep(env, rules, log[i], commands[i], replies[i], log[i + 1])
  }

  lemma RunGrows(env: Environment, rules: Rules<Tree>, log: seq<View>, commands: seq<Command>, replies: seq<Reply>, next: View,
                 reply: Reply)
    requires commands != [] && IsTrace(env, rules, log, commands[..|commands| - 1], replies)
    requires IsStep(env, rules, log[|commands| - 1], commands[|commands| - 1], reply, next) && IsCleanView(env, next)
    ensures IsTrace(env, rules, log + [next], commands, replies + [reply])
  {
    hide IsStep, IsCleanView;
    var more, said := log + [next], replies + [reply];
    forall i | 0 <= i < |commands| ensures IsStep(env, rules, more[i], commands[i], said[i], more[i + 1]) {
      if i < |commands| - 1 { assert commands[..|commands| - 1][i] == commands[i]; }
    }
  }

  /** Loads and compactions never change the source, and so never its head. */
  lemma {:induction false} OnlySavesMoveTheSource(env: Environment, rules: Rules<Tree>, log: seq<View>, commands: seq<Command>,
                                                  replies: seq<Reply>, i: nat, j: nat)
    requires IsTrace(env, rules, log, commands, replies) && i <= j <= |commands|
    requires forall k :: i <= k < j ==> !commands[k].Save?
    ensures SourceOf(env, log[j].durable) == SourceOf(env, log[i].durable)
    decreases j
  {
    hide SourceOf;
    if i < j {
      OnlySavesMoveTheSource(env, rules, log, commands, replies, i, j - 1);
      assert IsStep(env, rules, log[j - 1], commands[j - 1], replies[j - 1], log[j - 1 + 1]);
    }
  }

  /** The head a save returns is the head of the next load, whatever loads and compactions come between and overlap nothing. */
  lemma SavedHeadIsLoaded(env: Environment, rules: Rules<Tree>, log: seq<View>, commands: seq<Command>, replies: seq<Reply>,
                          i: nat, j: nat)
    requires IsTrace(env, rules, log, commands, replies) && i < j < |commands|
    requires commands[i].Save? && replies[i].GotHead? && forall k :: i < k < j ==> !commands[k].Save?
    requires commands[j].Load? && replies[j].GotAggregate? && replies[j].found.Some? && IsVisible(log[j].disk)
    ensures replies[j].found.value.headRevision == Some(replies[i].head)
    ensures SameDocuments(replies[j].found.value.documents, commands[i].snapshot.documents)
  {
    hide SourceOf, IsVisible, InSight, SameDocuments, Head;
    assert IsStep(env, rules, log[i], commands[i], replies[i], log[i + 1]);
    OnlySavesMoveTheSource(env, rules, log, commands, replies, i + 1, j);
    assert IsStep(env, rules, log[j], commands[j], replies[j], log[j + 1]);
  }

  /**
    No lost update by calls one after the other: when two saves from one head both go through and each has the source in sight, they replaced the
    same document set, so the later one overwrote nothing it had not seen.
   */
  lemma SavesFromOneHead(env: Environment, rules: Rules<Tree>, log: seq<View>, commands: seq<Command>, replies: seq<Reply>,
                         i: nat, j: nat)
    requires Lawful(env) && IsTrace(env, rules, log, commands, replies) && i < j < |commands|
    requires commands[i].Save? && replies[i].GotHead? && InSight(rules, log[i].disk)
    requires commands[j].Save? && replies[j].GotHead? && InSight(rules, log[j].disk)
    requires commands[i].snapshot.headRevision == commands[j].snapshot.headRevision
    ensures log[i].durable != map[] && log[j].durable != map[] ==>
              SameDocuments(SourceOf(env, log[i].durable).value, SourceOf(env, log[j].durable).value)
  {
    hide Lawful, IsVisible, InSight, Head, IsClean, Held;
    assert IsCleanView(env, log[i]) && IsCleanView(env, log[j]);
    assert IsStep(env, rules, log[i], commands[i], replies[i], log[i + 1]);
    assert IsStep(env, rules, log[j], commands[j], replies[j], log[j + 1]);
  }

  /** While all saves see the source and raise freshness, the read model stays coherent and no conflict is raised. */
  lemma {:induction false} RunStaysCoherent(env: Environment, rules: Rules<Tree>, log: seq<View>, commands: seq<Command>,
                                            replies: seq<Reply>, j: nat)
    requires IsTrace(env, rules, log, commands, replies) && j <= |commands| && IsCoherent(env, log[0])
    requires forall k :: 0 <= k < j ==> KeepsRules(env, rules, log[k], commands[k])
    ensures IsCoherent(env, log[j]) && forall k :: 0 <= k < j ==> replies[k] != Refusal(JsonSqliteConflict)
  {
    hide IsCoherent, KeepsRules;
    if j > 0 {
      RunStaysCoherent(env, rules, log, commands, replies, j - 1);
      assert IsStep(env, rules, log[j - 1], commands[j - 1], replies[j - 1], log[j - 1 + 1]);
    }
  }

  /** The disk, what recovery would leave of it, and the read model. */
  datatype View = View(disk: Disk<Tree>, durable: Entries<Tree>, sqlite: Sqlite)

  /** The loaded aggregate is the source, with its head. */
  ghost predicate ServesSource(env: Environment, source: Option<seq<Document>>, projectId: string, found: Option<Snapshot>) {
    && source.Some?
    && found == if env.projectIdOf(source.value) == projectId
                then Some(Snapshot(source.value, Some(Head(env, source.value)))) else None
  }

  /** Without a source in place, a load serves whatever the read model has of that project. */
  ghost predicate ServesSqlite(enabled: bool, failing: bool, sqlite: Sqlite, projectId: string, found: Option<Snapshot>) {
    match sqlite
    case Single(other, documents, _, revision) =>
      if enabled && other == projectId && documents.Some? then found == Some(Snapshot(documents.value, Some(revision)))
      else found == None
    case Multiple(projectIds) => found.Some? <==> enabled && projectId in projectIds
    case _ => found == None
  }

  /** The read model holds the source, or is empty because the database kept failing. */
  ghost predicate IsSynchronized(env: Environment, source: Option<seq<Document>>, failing: bool, sqlite: Sqlite) {
    || (failing && sqlite == Empty)
    || (source.Some? && sqlite.Single? && sqlite.documents.Some? && SameContent(env, source.value, sqlite.documents.value)
        && sqlite.projectId == env.projectIdOf(source.value))
  }

  lemma CoherentNeverRefuses(env: Environment, source: Option<seq<Document>>, sqlite: Sqlite, snapshot: Snapshot)
    requires Coherent(env, source, sqlite)
    requires source.Some? ==> env.projectIdOf(source.value) == env.projectIdOf(snapshot.documents)
    ensures !SqliteRefuses(env, source, sqlite, snapshot)
  {
  }

  /** The snapshot is of the same project as the source, if there is one. */
  ghost predicate ProjectIsKept(env: Environment, source: Option<seq<Document>>, snapshot: Snapshot) {
    source.Some? ==> env.projectIdOf(source.value) == env.projectIdOf(snapshot.documents)
  }

  /** The same, and fresher. */
  ghost predicate IsFresher(env: Environment, source: Option<seq<Document>>, snapshot: Snapshot) {
    && ProjectIsKept(env, source, snapshot)
    && (source.Some? ==> env.freshnessOf(source.value) < env.freshnessOf(snapshot.documents))
  }

  /** What `snapshot` stands for is the source. */
  ghost predicate Stores(env: Environment, source: Option<seq<Document>>, snapshot: Snapshot) {
    && source.Some? && SameDocuments(source.value, snapshot.documents)
    && Head(env, source.value) == Head(env, snapshot.documents)
  }

  lemma ValidityIsOrderFree(env: Environment)
    requires Lawful(env)
    ensures OrderFree(env.audit)
  {
  }

  lemma FreshnessRises(env: Environment, base: seq<Document>, snapshot: Snapshot)
    requires RaisesFreshness(env, snapshot) && IsClean(env, base) && snapshot.headRevision == Some(Head(env, base))
    ensures env.freshnessOf(base) < env.freshnessOf(snapshot.documents)
  {
  }

  /** A source that advances without a sync leaves a coherent read model coherent. */
  lemma FresherSourceStaysCoherent(env: Environment, before: seq<Document>, after: seq<Document>, sqlite: Sqlite)
    requires Lawful(env) && Coherent(env, Some(before), sqlite)
    requires env.projectIdOf(before) == env.projectIdOf(after) && env.freshnessOf(before) < env.freshnessOf(after)
    ensures Coherent(env, Some(after), sqlite)
  {
    hide HeadRevision.Injective, OrderFree, IsClean;
    if sqlite.Single? && sqlite.documents.Some? && SameContent(env, before, sqlite.documents.value) {
      assert env.freshnessOf(before) == env.freshnessOf(sqlite.documents.value);
    }
  }

  lemma NothingIsHeld(env: AuditLayout.Environment)
    requires Sorting.TotalOrder(env.pathLeq)
    ensures Held(env, map[]) == []
  {
    assert IsReadable(env, map[]);
    assert forall x :: !Holds(env, map[], x);
    Sorting.EmptyTogether(Held(env, map[]), []);
  }
}
