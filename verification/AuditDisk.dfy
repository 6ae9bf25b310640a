/**
  The audit layout on a disk that a replacement may have left unfinished: top-level entries as trees of files, what a
  crash leaves readable, and what a look-up sees before recovery (packages/json/src/filesystem.ts).
 */
module AuditDisk {
  import opened Wrappers
  import opened AuditLayout
  import opened AuditLayoutProofs
  import opened AuditReading
  import opened CanonicalReplacement
  import Sorting

  function DirectoryOf(namespace: Namespace): Name {
    match namespace
    case Schema => "schema"
    case Refs => "refs"
    case Versions => "versions"
    case WorkItems => "work_items"
    case Todos => "todos"
    case Undos => "undos"
    case DeferredItems => "deferred_items"
    case Constraints => "constraints"
    case Assets => "assets"
  }

  function TopLevel(p: Path): (n: Name)
    ensures n in TOP_LEVEL_ENTRIES
  {
    assert TOP_LEVEL_ENTRIES[0] == "project.json" && TOP_LEVEL_ENTRIES[1] == "schema" && TOP_LEVEL_ENTRIES[2] == "refs"
        && TOP_LEVEL_ENTRIES[3] == "versions" && TOP_LEVEL_ENTRIES[4] == "work_items" && TOP_LEVEL_ENTRIES[5] == "todos"
        && TOP_LEVEL_ENTRIES[6] == "undos" && TOP_LEVEL_ENTRIES[7] == "deferred_items"
        && TOP_LEVEL_ENTRIES[8] == "constraints" && TOP_LEVEL_ENTRIES[9] == "assets" && TOP_LEVEL_ENTRIES[10] == "events"
        && TOP_LEVEL_ENTRIES[11] == "pending_operations" && TOP_LEVEL_ENTRIES[12] == "approval_artifacts"
        && TOP_LEVEL_ENTRIES[13] == "ordinary_write_receipts" && TOP_LEVEL_ENTRIES[14] == "audit"
        && TOP_LEVEL_ENTRIES[15] == "operations" && TOP_LEVEL_ENTRIES[16] == "audit_packs";
    match p
    case ProjectPath => "project.json"
    case EventPath(_) => "events"
    case ReceiptPath(_) => "ordinary_write_receipts"
    case PendingOperationPath(_) => "pending_operations"
    case ApprovalArtifactPath(_) => "approval_artifacts"
    case OtherCanonicalPath(namespace, _) => DirectoryOf(namespace)
    case AuditLayoutPath => "audit"
    case OperationPath(_) => "operations"
    case PackPath(_) => "audit_packs"
  }

  /** All files below the entries, by path. */
  function Flatten(entries: Entries<Tree>): (files: Tree)
    ensures forall p :: p in files <==> TopLevel(p) in entries && p in entries[TopLevel(p)]
    ensures forall p <- files :: files[p] == entries[TopLevel(p)][p]
  {
    var paths := set n <- entries, p <- entries[n] :: p;
    map p <- paths | TopLevel(p) in entries && p in entries[TopLevel(p)] :: entries[TopLevel(p)][p]
  }

  function Split(files: Tree): Entries<Tree> {
    var names := set p <- files :: TopLevel(p);
    map n <- names :: map p <- files | TopLevel(p) == n :: files[p]
  }

  lemma SplitIsCanonical(files: Tree)
    ensures Flatten(Split(files)) == files
    ensures forall n <- Split(files) :: n in TOP_LEVEL_ENTRIES
    ensures files == map[] ==> Split(files) == map[]
  {
  }

  lemma FlattenIgnoresForeignNames(entries: Entries<Tree>)
    ensures Flatten(Only(entries, TOP_LEVEL_ENTRIES)) == Flatten(entries)
  {
  }

  // ---------- Reading ----------

  lemma {:induction false} CollectAll(env: Environment, files: Tree, some: set<Path>) returns (documents: seq<Document>)
    requires some <= files.Keys
    ensures Collected(env, files, some, documents)
    decreases |some|
  {
    hide DistinctPaths, HeldOnceAmong;
    if some == {} {
      NothingCollected(env, files);
      assert files.Keys - files.Keys == some;
      documents := [];
    } else {
      var p :| p in some;
      var rest := CollectAll(env, files, some - {p});
      CollectOneMore(env, files, some - {p}, rest, p);
      assert some - {p} + {p} == some;
      documents := rest + Contribution(env, files, p);
    }
  }

  /** A root that can be read. */
  ghost predicate IsReadable(env: Environment, files: Tree) {
    Readable(env, files) && PathsHeldOnce(env, files)
  }

  ghost predicate IsSortedRead(env: Environment, files: Tree, held: seq<Document>) {
    IsReadOf(env, files, held) && Sorting.SortedBy((d: Document) => d.path, env.pathLeq, held)
  }

  lemma ReadExists(env: Environment, files: Tree)
    requires Sorting.TotalOrder(env.pathLeq) && IsReadable(env, files)
    ensures exists held :: IsSortedRead(env, files, held)
  {
    hide Sorting.Sort, Collected, HeldOnceAmong, Readable;
    var documents := CollectAll(env, files, files.Keys);
    HeldOnceEverywhere(env, files);
    assert DistinctPaths(documents) by { CollectedIsDistinct(env, files, documents); }
    var held := Sorting.Sort((d: Document) => d.path, env.pathLeq, documents);
    Sorting.SortSorts((d: Document) => d.path, env.pathLeq, documents);
    SortedRead(env, files, documents, held);
    assert IsSortedRead(env, files, held);
  }

  lemma CollectedIsDistinct(env: Environment, files: Tree, documents: seq<Document>)
    requires Collected(env, files, files.Keys, documents) && HeldOnceAmong(env, files, files.Keys)
    ensures DistinctPaths(documents)
  {
    hide HeldOnceAmong, DistinctPaths;
  }

  /** What reading a root returns. */
  ghost function Held(env: Environment, files: Tree): (held: seq<Document>)
    ensures Sorting.TotalOrder(env.pathLeq) && IsReadable(env, files) ==> IsSortedRead(env, files, held)
  {
    if Sorting.TotalOrder(env.pathLeq) && IsReadable(env, files) then
      ReadExists(env, files);
      var held :| IsSortedRead(env, files, held);
      held
    else []
  }

  lemma ReadIsHeld(env: Environment, files: Tree, held: seq<Document>)
    requires Sorting.TotalOrder(env.pathLeq) && IsReadable(env, files) && IsSortedRead(env, files, held)
    ensures held == Held(env, files)
  {
    hide Readable, PathsHeldOnce, Holds;
    Sorting.SortedIsUnique((d: Document) => d.path, env.pathLeq, held, Held(env, files));
  }

  /** Two roots that hold the same documents read back as the same sequence. */
  lemma SameHoldingsReadTheSame(env: Environment, f: Tree, g: Tree)
    requires Sorting.TotalOrder(env.pathLeq) && IsReadable(env, f) && IsReadable(env, g)
    requires forall x :: Holds(env, f, x) <==> Holds(env, g, x)
    ensures Held(env, f) == Held(env, g)
  {
    hide Holds, Readable, PathsHeldOnce;
    Sorting.SortedIsUnique((d: Document) => d.path, env.pathLeq, Held(env, f), Held(env, g));
  }

  // ---------- What a crash leaves of a tree ----------

  /** Some of the files, each possibly cut short. */
  predicate IsPart(env: Environment, a: Tree, b: Tree) {
    forall p <- a :: p in b && env.cut(a[p], b[p])
  }

  predicate IsContainer(p: Path) {
    p.OperationPath? || p.PackPath?
  }

  /** A file may be cut short more than once; a container that still reads is complete, since its digest is right. */
  ghost predicate CutIsLawful(env: Environment) {
    && (forall f :: env.cut(f, f))
    && (forall f, g, h :: env.cut(f, g) && env.cut(g, h) ==> env.cut(f, h))
    && (forall f, g :: env.cut(f, g) && f.DocumentFile? ==> g.DocumentFile?)
    && (forall p, f, g ::
          env.cut(f, g) && IsContainer(p) && DocumentsIn(env, p, f).Some? && DocumentsIn(env, p, g).Some? ==> f == g)
  }

  /** How `tryReadValidCanonicalDocuments` judges a set of entries. */
  ghost function VerdictOn(env: Environment, entries: Entries<Tree>): Verdict {
    var files := Flatten(entries);
    if !IsReadable(env, files) then Verdict.Unreadable
    else if IsDocumentSet(Held(env, files)) && env.valid(Held(env, files)) then ValidSet
    else InvalidSet
  }

  /** The rules of the store whose entries are trees of audit files. */
  ghost predicate FitsRules(env: Environment, rules: Rules<Tree>) {
    && Sorting.TotalOrder(env.pathLeq) && CutIsLawful(env)
    && rules.names == TOP_LEVEL_ENTRIES
    && (forall a, b :: rules.part(a, b) <==> IsPart(env, a, b))
    && (forall entries :: rules.inspect(entries) == VerdictOn(env, entries))
  }

  /** Such rules exist for every environment. */
  lemma RulesExist(env: Environment) returns (rules: Rules<Tree>)
    requires Sorting.TotalOrder(env.pathLeq) && CutIsLawful(env)
    ensures FitsRules(env, rules)
  {
    hide VerdictOn, CutIsLawful, IsPart;
    rules := Rules(TOP_LEVEL_ENTRIES, entries => VerdictOn(env, entries), (a, b) => IsPart(env, a, b));
  }

  lemma RulesAreLawful(env: Environment, rules: Rules<Tree>)
    requires FitsRules(env, rules)
    ensures PartIsPreorder(rules)
  {
  }

  lemma PartialMeansPart(env: Environment, rules: Rules<Tree>, t: Entries<Tree>, whole: Entries<Tree>)
    requires FitsRules(env, rules) && Partial(rules, t, whole)
    ensures IsPart(env, Flatten(t), Flatten(whole))
  {
    hide VerdictOn, CutIsLawful;
    var a, b := Flatten(t), Flatten(whole);
    forall p <- a ensures p in b && env.cut(a[p], b[p]) {
      assert IsPart(env, t[TopLevel(p)], whole[TopLevel(p)]);
    }
  }

  lemma {:induction false} PartHoldsPathsOnce(env: Environment, a: Tree, b: Tree)
    requires CutIsLawful(env) && IsPart(env, a, b) && IsReadable(env, b)
    requires forall p <- a :: IsContainer(p) ==> DocumentsIn(env, p, a[p]).Some?
    ensures IsReadable(env, a)
  {
    hide Expand;
    forall p <- a
      ensures DocumentsIn(env, p, a[p]).Some? && DistinctPaths(Contribution(env, a, p))
      ensures forall d <- Contribution(env, a, p) :: exists e <- Contribution(env, b, p) :: e.path == d.path
    {
      if IsContainer(p) {
        assert a[p] == b[p];
        assert DistinctPaths(Contribution(env, b, p));
        assert Contribution(env, a, p) == Contribution(env, b, p);
      } else if !p.AuditLayoutPath? && a[p].DocumentFile? {
        assert Contribution(env, b, p) == [Document(p, b[p].content)];
        assert Document(p, b[p].content) in Contribution(env, b, p);
      }
    }
    forall p <- a, q <- a, d <- Contribution(env, a, p), e <- Contribution(env, a, q) | p != q ensures d.path != e.path {
      var d' :| d' in Contribution(env, b, p) && d'.path == d.path;
      var e' :| e' in Contribution(env, b, q) && e'.path == e.path;
    }
  }

  /** No container file can be cut short and still be taken for one that is damaged. */
  ghost predicate ContainersSurviveCuts(env: Environment, files: Tree) {
    forall p <- files :: IsContainer(p) ==> forall f :: env.cut(f, files[p]) ==> DocumentsIn(env, p, f).Some?
  }

  /** Every part of a readable tree can be read if and only if no container in it can be damaged by a cut. */
  lemma PartsReadableExactly(env: Environment, rules: Rules<Tree>, whole: Entries<Tree>)
    requires FitsRules(env, rules) && IsReadable(env, Flatten(whole))
    ensures PartsReadable(rules, whole) <==> ContainersSurviveCuts(env, Flatten(whole))
  {
    hide Readable, PathsHeldOnce, CutIsLawful, Flatten, IsReadable, VerdictOn;
    if ContainersSurviveCuts(env, Flatten(whole)) {
      forall t: Entries<Tree> | Partial(rules, t, whole)
        ensures rules.inspect(Only(t, rules.names)) != Verdict.Unreadable
      {
        PartIsReadable(env, rules, t, whole);
      }
    }
    if PartsReadable(rules, whole) {
      forall p <- Flatten(whole), f | IsContainer(p) && env.cut(f, Flatten(whole)[p]) ensures DocumentsIn(env, p, f).Some? {
        CutContainerIsRead(env, rules, whole, p, f);
      }
    }
  }

  lemma PartIsReadable(env: Environment, rules: Rules<Tree>, t: Entries<Tree>, whole: Entries<Tree>)
    requires FitsRules(env, rules) && IsReadable(env, Flatten(whole)) && ContainersSurviveCuts(env, Flatten(whole))
    requires Partial(rules, t, whole)
    ensures rules.inspect(Only(t, rules.names)) != Verdict.Unreadable
  {
    hide Flatten, Readable, PathsHeldOnce;
    PartialMeansPart(env, rules, t, whole);
    FlattenIgnoresForeignNames(t);
    PartHoldsPathsOnce(env, Flatten(t), Flatten(whole));
  }

  /** A tree of one container that has been cut short. */
  lemma CutContainerIsRead(env: Environment, rules: Rules<Tree>, whole: Entries<Tree>, p: Path, f: File)
    requires FitsRules(env, rules) && PartsReadable(rules, whole)
    requires p in Flatten(whole) && env.cut(f, Flatten(whole)[p])
    ensures DocumentsIn(env, p, f).Some?
  {
    hide CutIsLawful, Readable, PathsHeldOnce;
    var n := TopLevel(p);
    var t: Entries<Tree> := map[n := map[p := f]];
    assert IsPart(env, t[n], whole[n]) && rules.part(t[n], whole[n]);
    assert Partial(rules, t, whole);
    FlattenIgnoresForeignNames(t);
    OneFileIsRead(env, Flatten(t), p);
  }

  lemma OneFileIsRead(env: Environment, files: Tree, p: Path)
    requires p in files && IsReadable(env, files)
    ensures DocumentsIn(env, p, files[p]).Some?
  {
  }

  /**
    No crash can leave a root whose recovery is refused if and only if no operation envelope and no audit pack of the
    old or the new tree can be found half-written.
   */
  lemma RecoveryIsNeverRefusedExactly(env: Environment, rules: Rules<Tree>, durable: Entries<Tree>, incoming: Entries<Tree>)
    requires FitsRules(env, rules) && Acceptable(rules, durable) && Only(durable, rules.names) == durable
    requires IsReadable(env, Flatten(durable)) && IsReadable(env, Flatten(incoming))
    ensures (forall d :: Recoverable(rules, d, durable, incoming) ==> Recovered(rules, d).Some?)
       <==> ContainersSurviveCuts(env, Flatten(durable)) && ContainersSurviveCuts(env, Flatten(incoming))
  {
    hide FitsRules, IsReadable, ContainersSurviveCuts;
    RulesAreLawful(env, rules);
    NeverRefusedExactly(rules, durable, incoming);
    PartsReadableExactly(env, rules, durable);
    PartsReadableExactly(env, rules, incoming);
  }

  /**
    A crash while recovery copies a container back: the backup is whole, but every later recovery throws on the
    half-written file before it looks at the manifest.
   */
  lemma HalfWrittenContainerBlocksRecovery(env: Environment, rules: Rules<Tree>, durable: Entries<Tree>, root: Entries<Tree>,
                                           incoming: Entries<Tree>, p: Path)
    requires FitsRules(env, rules) && Acceptable(rules, durable) && Only(durable, rules.names) == durable
    requires Only(root, rules.names) == root && Partial(rules, root, durable)
    requires p in Flatten(root) && DocumentsIn(env, p, Flatten(root)[p]).None?
    ensures var d := Disk(root, Some(Replacement(Some(BackupCreated), map[], durable)));
            Recoverable(rules, d, durable, incoming) && Recovered(rules, d) == None
  {
    hide CutIsLawful, Flatten, DocumentsIn, PathsHeldOnce;
  }

  // ---------- Packs in sight ----------

  /** A root that can be read and has the layout marker if it has packs. */
  ghost predicate Sound(env: Environment, files: Tree) {
    IsReadable(env, files) && (PackFiles(files) != map[] ==> AuditLayoutPath in files)
  }

  function PackFiles(files: Tree): Tree {
    map p <- files | p.PackPath? :: files[p]
  }

  /** No pack is changed or removed. */
  ghost predicate KeepsPacks(before: Tree, after: Tree) {
    forall p <- PackFiles(before) :: p in after && after[p] == before[p]
  }

  /**
    What a replacement that looks at `seen` before recovery must find there to keep the packs of `durable`: the layout
    marker and every pack.
   */
  ghost predicate PacksInSight(durable: Tree, seen: Tree, compactAudit: bool) {
    PackFiles(durable) != map[] ==>
      && (compactAudit || AuditLayoutPath in seen)
      && forall p <- PackFiles(durable) :: p in seen && seen[p] == durable[p]
  }

  /** The packs a replacement carries over are those it saw: all, with the layout marker or when asked to compact. */
  ghost predicate CarriesPacks(seen: Tree, compactAudit: bool, after: Tree) {
    PackFiles(after) == if compactAudit || AuditLayoutPath in seen then PackFiles(seen) else map[]
  }

  /** A replacement keeps the packs if and only if it had them in sight. */
  lemma PacksSurviveExactly(durable: Tree, seen: Tree, compactAudit: bool, after: Tree)
    requires CarriesPacks(seen, compactAudit, after)
    ensures KeepsPacks(durable, after) <==> PacksInSight(durable, seen, compactAudit)
  {
    if KeepsPacks(durable, after) {
      forall p <- PackFiles(durable) ensures (compactAudit || AuditLayoutPath in seen) && p in seen && seen[p] == durable[p] {
        assert p in PackFiles(after);
      }
      if p :| p in PackFiles(durable) { assert compactAudit || AuditLayoutPath in seen; }
    }
    if PacksInSight(durable, seen, compactAudit) {
      forall p <- PackFiles(durable) ensures p in after && after[p] == durable[p] {
        assert p in PackFiles(seen) && p in PackFiles(after);
      }
    }
  }

  /** On a recovered root the packs are in sight. */
  lemma RecoveredRootIsInSight(env: Environment, durable: Tree, compactAudit: bool)
    requires Sound(env, durable)
    ensures PacksInSight(durable, durable, compactAudit)
  {
  }

  /** The names that are renamed before `audit_packs`, `audit` being the last but one of them. */
  ghost predicate IsUpToAudit(names: seq<Name>, moved: seq<Name>) {
    moved <= names && "audit" in moved && "audit_packs" !in moved
  }

  /** In the store's own order such names are the first fifteen. */
  lemma AuditComesFirst()
    ensures IsUpToAudit(TOP_LEVEL_ENTRIES, TOP_LEVEL_ENTRIES[..15])
  {
    assert TOP_LEVEL_ENTRIES[..15][14] == "audit";
  }

  /** The disk a crash in the backup phase leaves after the entries called `moved`. */
  function CrashedInBackup(durable: Entries<Tree>, next: Entries<Tree>, moved: seq<Name>): Disk<Tree> {
    Disk(Without(durable, moved), Some(Replacement(Some(Staged), next, Only(durable, moved))))
  }

  lemma FilesWithoutMarker(durable: Entries<Tree>, names: seq<Name>, moved: seq<Name>)
    requires IsUpToAudit(names, moved)
    ensures AuditLayoutPath !in Flatten(Without(durable, moved))
    ensures PackFiles(Flatten(Without(durable, moved))) == PackFiles(Flatten(durable))
  {
    assert TopLevel(AuditLayoutPath) == "audit";
    forall p: Path | p.PackPath? ensures p in Flatten(Without(durable, moved)) <==> p in Flatten(durable) {
      assert TopLevel(p) == "audit_packs";
    }
  }

  /** Once `audit` has moved and `audit_packs` has not, the packs are there and the marker is not. */
  lemma MarkerMovedAwayHidesPacks(env: Environment, rules: Rules<Tree>, durable: Entries<Tree>, incoming: Entries<Tree>,
                                  moved: seq<Name>)
    requires FitsRules(env, rules) && Acceptable(rules, durable) && Only(durable, rules.names) == durable
    requires IsUpToAudit(rules.names, moved) && PackFiles(Flatten(durable)) != map[]
    ensures var d := CrashedInBackup(durable, incoming, moved);
            && Recoverable(rules, d, durable, incoming)
            && PackFiles(Flatten(d.root)) == PackFiles(Flatten(durable))
            && !PacksInSight(Flatten(durable), Flatten(d.root), false)
  {
    hide FitsRules, Flatten, PackFiles, Recoverable, Acceptable;
    RulesAreLawful(env, rules);
    BackupPhaseRecoverable(rules, durable, moved, CrashedInBackup(durable, incoming, moved).replacement.value, durable, incoming);
    FilesWithoutMarker(durable, rules.names, moved);
  }

  /** The disk a crash in the apply phase leaves after the entries called `moved`. */
  function CrashedInApply(durable: Entries<Tree>, next: Entries<Tree>, moved: seq<Name>): Disk<Tree> {
    Disk(Only(next, moved), Some(Replacement(Some(BackupCreated), Without(next, moved), durable)))
  }

  lemma FilesWithoutPacks(next: Entries<Tree>, names: seq<Name>, moved: seq<Name>)
    requires IsUpToAudit(names, moved)
    ensures AuditLayoutPath in Flatten(next) ==> AuditLayoutPath in Flatten(Only(next, moved))
    ensures PackFiles(Flatten(Only(next, moved))) == map[]
    ensures forall durable: Tree, compactAudit :: PackFiles(durable) != map[] ==>
              !PacksInSight(durable, Flatten(Only(next, moved)), compactAudit)
  {
    assert TopLevel(AuditLayoutPath) == "audit";
    forall p: Path | p.PackPath? ensures p !in Flatten(Only(next, moved)) { assert TopLevel(p) == "audit_packs"; }
    forall durable: Tree, compactAudit | PackFiles(durable) != map[]
      ensures !PacksInSight(durable, Flatten(Only(next, moved)), compactAudit)
    {
      var p :| p in PackFiles(durable);
      assert p.PackPath?;
    }
  }

  /** Once `audit` has moved in and `audit_packs` has not, the marker is there and the packs are not. */
  lemma MarkerMovedInHidesPacks(env: Environment, rules: Rules<Tree>, durable: Entries<Tree>, incoming: Entries<Tree>,
                                moved: seq<Name>, compactAudit: bool)
    requires FitsRules(env, rules) && Acceptable(rules, durable) && Only(durable, rules.names) == durable
    requires IsUpToAudit(rules.names, moved)
    requires PackFiles(Flatten(durable)) != map[] && AuditLayoutPath in Flatten(incoming)
    ensures var d := CrashedInApply(durable, incoming, moved);
            && Recoverable(rules, d, durable, incoming)
            && AuditLayoutPath in Flatten(d.root) && PackFiles(Flatten(d.root)) == map[]
            && !PacksInSight(Flatten(durable), Flatten(d.root), compactAudit)
  {
    hide FitsRules, Flatten, Acceptable, PackFiles, PacksInSight;
    RulesAreLawful(env, rules);
    FilesWithoutPacks(incoming, rules.names, moved);
    assert Partial(rules, Only(Only(incoming, moved), rules.names), incoming);
  }

  /** Whatever the environment, some crash of a replacement hides the packs from the next one. */
  lemma SomeCrashHidesPacks(env: Environment, durable: Entries<Tree>, incoming: Entries<Tree>)
    returns (rules: Rules<Tree>, d: Disk<Tree>)
    requires Sorting.TotalOrder(env.pathLeq) && CutIsLawful(env)
    requires VerdictOn(env, durable) == ValidSet && (forall n <- durable :: n in TOP_LEVEL_ENTRIES)
    requires PackFiles(Flatten(durable)) != map[]
    ensures FitsRules(env, rules) && Recoverable(rules, d, durable, incoming)
    ensures !PacksInSight(Flatten(durable), Flatten(d.root), false)
  {
    hide Flatten, PackFiles, PacksInSight, VerdictOn, CutIsLawful, IsUpToAudit;
    rules := RulesExist(env);
    AuditComesFirst();
    var moved := TOP_LEVEL_ENTRIES[..15];
    assert Only(durable, rules.names) == durable;
    MarkerMovedAwayHidesPacks(env, rules, durable, incoming, moved);
    d := CrashedInBackup(durable, incoming, moved);
  }

  /** Packs read from a part of a sound tree are whole, whatever else is torn. */
  lemma PacksSeenAreFaithful(env: Environment, seen: Tree, whole: Tree, packs: seq<PreservedPack>)
    requires CutIsLawful(env) && IsPart(env, seen, whole) && IsReadable(env, whole) && IsPacksOf(seen, packs)
    requires forall p <- seen :: p.PackPath? ==> DocumentsIn(env, p, seen[p]).Some?
    ensures FaithfulPacks(env, packs)
  {
    hide FaithfulPacks, PathsHeldOnce, Expand;
    var some := PackFiles(seen);
    forall p <- some ensures DocumentsIn(env, p, some[p]).Some? { assert p in seen; }
    PartHoldsPathsOnce(env, some, whole);
    PacksReadAreFaithful(env, some, packs);
  }
}
