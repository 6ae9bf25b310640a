/**
  What overlapping saves and compactions leave (packages/json/src/filesystem.ts, packages/mcp/src/json-first-storage.ts):
  the source, its head and its packs, by which commits fall between what a call reads and what it commits.

  A save takes the write lock.  A compaction only looks for it, and the command line gives it none to hold.
 */
module OverlappingStorage {
  import opened Wrappers
  import opened AuditLayout
  import opened AuditLayoutProofs
  import opened AuditDisk
  import opened AuditPacking
  import opened AuditRoot
  import opened CanonicalReplacement
  import opened Storage = JsonFirstStorage
  import opened OverlappingCalls
  import opened OverlappingRuns
  import HeadRevision
  import Sorting

  datatype Writing = Saving(snapshot: Snapshot) | Compacting(versionId: Option<string>)

  /** What a writer makes of the root it has read and of the root in which it has looked up the packs. */
  ghost predicate Writes(env: Storage.Environment, base: Tree, seen: Tree, writing: Writing, after: Tree) {
    match writing
    case Saving(snapshot) =>
      && IsEncoded(snapshot) && snapshot.headRevision == Some(Head(env, Held(env.audit, base)))
      && Committed(env.audit, seen, snapshot.documents, false, after)
    case Compacting(versionId) => CompactedFrom(env.audit, Held(env.audit, base), seen, versionId, after)
  }

  /** A root that holds a valid set of canonical documents. */
  ghost predicate IsProject(env: Storage.Environment, files: Tree) {
    var held := Held(env.audit, files);
    Sound(env.audit, files) && IsDocumentSet(held) && env.audit.valid(held) && forall d <- held :: IsCanonical(d)
  }

  /** A commit, and how many commits there had been when it read the documents and looked up the packs. */
  datatype Entry = Entry(writing: Writing, read: nat, packs: nat)

  /** The roots that were durable one after the other, and the commits between them. */
  datatype History = History(roots: seq<Tree>, entries: seq<Entry>)
  {
    ghost predicate Valid(env: Storage.Environment) {
      && |roots| == |entries| + 1 && IsProject(env, roots[0])
      && forall k :: 0 <= k < |entries| ==> entries[k].read <= entries[k].packs <= k && Fits(env, k)
    }

    ghost predicate Fits(env: Storage.Environment, k: nat)
      requires k < |entries| && k + 1 < |roots| && entries[k].read < |roots| && entries[k].packs < |roots|
    {
      Writes(env, roots[entries[k].read], roots[entries[k].packs], entries[k].writing, roots[k + 1])
    }

    ghost function Source(env: Storage.Environment, k: nat): seq<Document>
      requires k < |roots|
    {
      Held(env.audit, roots[k])
    }
  }

  ghost predicate IsUsual(env: Storage.Environment) {
    Lawful(env) && Sorting.TotalOrder(env.audit.pathLeq)
  }

  // ---------- The source ----------

  lemma WritingKeepsProject(env: Storage.Environment, base: Tree, seen: Tree, writing: Writing, after: Tree)
    requires IsUsual(env) && IsProject(env, base) && Writes(env, base, seen, writing, after)
    ensures IsProject(env, after)
    ensures forall x :: Holds(env.audit, after, x) <==>
              x in if writing.Saving? then writing.snapshot.documents else Held(env.audit, base)
  {
    hide Holds, Readable, PathsHeldOnce, HoldsExactly, CarriesPacks, KeepsPacks, PackFiles, KeepsPacked, PacksReadable, PackedIn,
         IsDocumentSet, IsCanonical, Head, HeadRevision.Injective, SameContent, IsClean, SameDocuments, Unpacked, IsSelected,
         OperationIds, PendingIds;
    assert OrderFree(env.audit);
    if writing.Saving? {
      CommittedHoldsTheSame(env.audit, seen, writing.snapshot.documents, false, after);
      HeldIsValid(env.audit, after, writing.snapshot.documents);
    } else {
      HoldsTheSame(env.audit, after, Held(env.audit, base), PackedIn(after));
      HeldIsValid(env.audit, after, Held(env.audit, base));
    }
  }

  lemma {:induction false} HistoryHoldsProjects(env: Storage.Environment, h: History, k: nat)
    requires IsUsual(env) && h.Valid(env) && k < |h.roots|
    ensures IsProject(env, h.roots[k])
    decreases k
  {
    hide IsUsual, IsProject, Writes;
    if k > 0 {
      var entry := h.entries[k - 1];
      assert h.Fits(env, k - 1);
      HistoryHoldsProjects(env, h, entry.read);
      WritingKeepsProject(env, h.roots[entry.read], h.roots[entry.packs], entry.writing, h.roots[k]);
    }
  }

  lemma ProjectIsClean(env: Storage.Environment, files: Tree)
    requires IsUsual(env) && IsProject(env, files)
    ensures IsClean(env, Held(env.audit, files))
  {
    hide Held, Sound, IsClean, OrderFree, HeadRevision.Injective, SameContent, SameDocuments;
  }

  /** Projects that hold the same documents read back as one sequence. */
  lemma SameSource(env: Storage.Environment, a: Tree, b: Tree)
    requires IsUsual(env) && IsProject(env, a) && IsProject(env, b)
    ensures Held(env.audit, a) == Held(env.audit, b) <==> SameDocuments(Held(env.audit, a), Held(env.audit, b))
    ensures Held(env.audit, a) == Held(env.audit, b) <==> Head(env, Held(env.audit, a)) == Head(env, Held(env.audit, b))
  {
    hide Holds, Readable, PathsHeldOnce, Lawful, IsDocumentSet, IsClean, Head;
    ProjectIsClean(env, a);
    ProjectIsClean(env, b);
    HeadNamesOneSet(env, Held(env.audit, a), Held(env.audit, b));
    if SameDocuments(Held(env.audit, a), Held(env.audit, b)) {
      forall x ensures Holds(env.audit, a, x) <==> Holds(env.audit, b, x) {
        assert x in Held(env.audit, a) <==> x in Held(env.audit, b);
      }
      SameHoldingsReadTheSame(env.audit, a, b);
    }
  }

  /** The commit replaces what it stands for: a save the set that its head names, a compaction by the same set. */
  ghost predicate KeepsSource(env: Storage.Environment, h: History, k: nat)
    requires h.Valid(env) && k < |h.entries|
  {
    match h.entries[k].writing
    case Saving(snapshot) => IsBase(env, snapshot.headRevision, h.Source(env, k))
    case Compacting(_) => h.Source(env, k + 1) == h.Source(env, k)
  }

  /** A head that was read off one root names what another holds if and only if they hold the same. */
  lemma HeadNamesExactly(env: Storage.Environment, base: Tree, current: Tree)
    requires IsUsual(env) && IsProject(env, base) && IsProject(env, current)
    ensures IsBase(env, Some(Head(env, Held(env.audit, base))), Held(env.audit, current))
       <==> Held(env.audit, base) == Held(env.audit, current)
  {
    SameSource(env, base, current);
    ProjectIsClean(env, current);
    assert Lawful(env);
    hide Lawful, IsProject, Held, IsClean, SameDocuments;
    HeadIsBase(env, Held(env.audit, current));
  }

  lemma WrittenSource(env: Storage.Environment, base: Tree, seen: Tree, writing: Writing, after: Tree)
    requires IsUsual(env) && IsProject(env, base) && IsProject(env, after) && Writes(env, base, seen, writing, after)
    ensures writing.Compacting? ==> Held(env.audit, after) == Held(env.audit, base)
    ensures writing.Saving? ==> SameDocuments(Held(env.audit, after), writing.snapshot.documents)
  {
    WritingKeepsProject(env, base, seen, writing, after);
    hide IsUsual, IsProject, Writes, Held, Holds;
    if writing.Saving? {
      SavedIsSource(env, after, writing.snapshot.documents);
    } else {
      SavedIsSource(env, after, Held(env.audit, base));
      SameSource(env, base, after);
    }
  }

  /** A commit keeps the source if and only if what it read is what is durable when it commits. */
  lemma CommitKeepsSourceExactly(env: Storage.Environment, h: History, k: nat)
    requires IsUsual(env) && h.Valid(env) && k < |h.entries|
    ensures KeepsSource(env, h, k) <==> h.Source(env, h.entries[k].read) == h.Source(env, k)
    ensures h.entries[k].writing.Compacting? ==> h.Source(env, k + 1) == h.Source(env, h.entries[k].read)
    ensures h.entries[k].writing.Saving? ==> SameDocuments(h.Source(env, k + 1), h.entries[k].writing.snapshot.documents)
  {
    hide IsUsual, IsProject, Head, SameDocuments, Held, IsBase, Committed, CompactedFrom, IsEncoded;
    var entry := h.entries[k];
    assert h.Fits(env, k);
    HistoryHoldsProjects(env, h, entry.read);
    HistoryHoldsProjects(env, h, k);
    HistoryHoldsProjects(env, h, k + 1);
    HeadNamesExactly(env, h.roots[entry.read], h.roots[k]);
    WrittenSource(env, h.roots[entry.read], h.roots[entry.packs], entry.writing, h.roots[k + 1]);
  }

  lemma SavedIsSource(env: Storage.Environment, files: Tree, documents: seq<Document>)
    requires IsUsual(env) && IsProject(env, files) && forall x :: Holds(env.audit, files, x) <==> x in documents
    ensures SameDocuments(Held(env.audit, files), documents)
  {
    hide Holds, Readable, PathsHeldOnce, Lawful, IsDocumentSet;
  }

  /** No save falls between what this commit has read and itself. */
  ghost predicate IsNotOvertaken(h: History, k: nat)
    requires k < |h.entries|
  {
    forall m :: h.entries[k].read <= m < k ==> !h.entries[m].writing.Saving?
  }

  ghost predicate SavesRaiseFreshness(env: Storage.Environment, h: History) {
    forall k :: 0 <= k < |h.entries| && h.entries[k].writing.Saving? ==> RaisesFreshness(env, h.entries[k].writing.snapshot)
  }

  lemma {:induction false} StepsNeverFall(stamps: seq<int>, i: nat, j: nat)
    requires i <= j < |stamps| && forall k :: i <= k < j ==> stamps[k] <= stamps[k + 1]
    ensures stamps[i] <= stamps[j] && forall m :: i <= m < j && stamps[m] < stamps[m + 1] ==> stamps[i] < stamps[j]
    decreases j
  {
    if i < j {
      StepsNeverFall(stamps, i, j - 1);
      assert stamps[j - 1] <= stamps[j - 1 + 1];
    }
  }

  /** While every commit keeps the source, freshness rises with each save and stands still with each compaction. */
  lemma FreshnessNeverFalls(env: Storage.Environment, h: History, i: nat, j: nat)
    requires IsUsual(env) && h.Valid(env) && i <= j <= |h.entries| && SavesRaiseFreshness(env, h)
    requires forall k :: 0 <= k < j ==> KeepsSource(env, h, k)
    ensures env.freshnessOf(h.Source(env, i)) <= env.freshnessOf(h.Source(env, j))
    ensures forall m :: i <= m < j && h.entries[m].writing.Saving? ==>
              env.freshnessOf(h.Source(env, i)) < env.freshnessOf(h.Source(env, j))
  {
    var stamps := Stamps(env, h);
    forall k | i <= k < j
      ensures stamps[k] <= stamps[k + 1] && (h.entries[k].writing.Saving? ==> stamps[k] < stamps[k + 1])
    {
      CommitMovesFreshness(env, h, k);
    }
    hide IsUsual, SavesRaiseFreshness, KeepsSource, Held, Stamps;
    StepsNeverFall(stamps, i, j);
    forall m | i <= m < j && h.entries[m].writing.Saving? ensures stamps[i] < stamps[j] {
      assert stamps[m] < stamps[m + 1];
    }
  }

  ghost function Stamps(env: Storage.Environment, h: History): (stamps: seq<int>)
    ensures |stamps| == |h.roots| && forall k :: 0 <= k < |h.roots| ==> stamps[k] == env.freshnessOf(h.Source(env, k))
  {
    seq(|h.roots|, k requires 0 <= k < |h.roots| => env.freshnessOf(h.Source(env, k)))
  }

  lemma CommitMovesFreshness(env: Storage.Environment, h: History, k: nat)
    requires IsUsual(env) && h.Valid(env) && k < |h.entries| && SavesRaiseFreshness(env, h) && KeepsSource(env, h, k)
    ensures env.freshnessOf(h.Source(env, k)) <= env.freshnessOf(h.Source(env, k + 1))
    ensures h.entries[k].writing.Saving? ==> env.freshnessOf(h.Source(env, k)) < env.freshnessOf(h.Source(env, k + 1))
  {
    hide IsUsual, Head, Held, IsBase, RaisesFreshness, SameDocuments;
    if h.entries[k].writing.Saving? { SaveRaisesFreshness(env, h, k); }
  }

  lemma SaveRaisesFreshness(env: Storage.Environment, h: History, k: nat)
    requires IsUsual(env) && h.Valid(env) && k < |h.entries| && SavesRaiseFreshness(env, h)
    requires h.entries[k].writing.Saving? && KeepsSource(env, h, k)
    ensures env.freshnessOf(h.Source(env, k)) < env.freshnessOf(h.Source(env, k + 1))
  {
    var snapshot := h.entries[k].writing.snapshot;
    assert RaisesFreshness(env, snapshot);
    HistoryHoldsProjects(env, h, k);
    HistoryHoldsProjects(env, h, k + 1);
    CommitKeepsSourceExactly(env, h, k);
    ProjectIsClean(env, h.roots[k]);
    FreshnessRises(env, h.Source(env, k), snapshot);
    assert h.Fits(env, k);
    SavedFreshness(env, h.roots[k + 1], snapshot);
  }

  lemma SavedFreshness(env: Storage.Environment, files: Tree, snapshot: Snapshot)
    requires IsUsual(env) && IsProject(env, files) && SameDocuments(Held(env.audit, files), snapshot.documents)
    requires DistinctPaths(snapshot.documents)
    ensures env.freshnessOf(Held(env.audit, files)) == env.freshnessOf(snapshot.documents)
  {
    hide OrderFree, HeadRevision.Injective, Holds, Readable, PathsHeldOnce;
  }

  /**
    No save is undone and no head names the wrong set, in the whole history, if and only if no save falls between what any
    commit has read and that commit.
   */
  lemma SavesAreKeptExactly(env: Storage.Environment, h: History)
    requires IsUsual(env) && h.Valid(env) && SavesRaiseFreshness(env, h)
    ensures (forall k :: 0 <= k < |h.entries| ==> KeepsSource(env, h, k))
       <==> forall k :: 0 <= k < |h.entries| ==> IsNotOvertaken(h, k)
  {
    hide IsUsual, KeepsSource;
    if forall k :: 0 <= k < |h.entries| ==> KeepsSource(env, h, k) {
      forall k | 0 <= k < |h.entries| ensures IsNotOvertaken(h, k) {
        assert KeepsSource(env, h, k);
        CommitKeepsSourceExactly(env, h, k);
        FreshnessNeverFalls(env, h, h.entries[k].read, k);
      }
    }
    if forall k :: 0 <= k < |h.entries| ==> IsNotOvertaken(h, k) {
      forall k | 0 <= k < |h.entries| ensures KeepsSource(env, h, k) {
        UndisturbedCommitKeepsSource(env, h, k);
      }
    }
  }

  lemma {:induction false} UndisturbedCommitKeepsSource(env: Storage.Environment, h: History, k: nat)
    requires IsUsual(env) && h.Valid(env) && k < |h.entries|
    requires forall m :: 0 <= m < |h.entries| ==> IsNotOvertaken(h, m)
    ensures KeepsSource(env, h, k)
    decreases k, 1, 0
  {
    hide IsUsual, KeepsSource;
    assert IsNotOvertaken(h, k);
    CompactionsKeepSource(env, h, h.entries[k].read, k);
    CommitKeepsSourceExactly(env, h, k);
  }

  lemma {:induction false} CompactionsKeepSource(env: Storage.Environment, h: History, i: nat, j: nat)
    requires IsUsual(env) && h.Valid(env) && i <= j <= |h.entries|
    requires forall m :: 0 <= m < |h.entries| ==> IsNotOvertaken(h, m)
    requires forall m :: i <= m < j ==> h.entries[m].writing.Compacting?
    ensures h.Source(env, i) == h.Source(env, j)
    decreases j, 0, j - i
  {
    hide IsUsual;
    if i < j {
      CompactionsKeepSource(env, h, i, j - 1);
      UndisturbedCommitKeepsSource(env, h, j - 1);
    }
  }

  /** The head that a save has returned is the head of the source until the next save commits. */
  lemma {:induction false} SavedHeadStays(env: Storage.Environment, h: History, k: nat, j: nat)
    requires IsUsual(env) && h.Valid(env) && k < j <= |h.entries| && h.entries[k].writing.Saving?
    requires forall m :: k < m < j ==> h.entries[m].writing.Compacting? && KeepsSource(env, h, m)
    ensures Head(env, h.Source(env, j)) == Head(env, h.entries[k].writing.snapshot.documents)
    decreases j
  {
    hide IsUsual, Head, Held;
    if j == k + 1 {
      SavedHead(env, h, k);
    } else {
      SavedHeadStays(env, h, k, j - 1);
      assert KeepsSource(env, h, j - 1);
    }
  }

  lemma SavedHead(env: Storage.Environment, h: History, k: nat)
    requires IsUsual(env) && h.Valid(env) && k < |h.entries| && h.entries[k].writing.Saving?
    ensures Head(env, h.Source(env, k + 1)) == Head(env, h.entries[k].writing.snapshot.documents)
  {
    var documents := h.entries[k].writing.snapshot.documents;
    assert h.Fits(env, k);
    assert Lawful(env) && IsDocumentSet(documents) && env.audit.valid(documents);
    CommitKeepsSourceExactly(env, h, k);
    HistoryHoldsProjects(env, h, k + 1);
    ProjectIsClean(env, h.roots[k + 1]);
    assert IsClean(env, documents) by { hide Head, IsClean, SameDocuments, OrderFree, SameContent; }
    hide Lawful, Head, IsClean, SameDocuments, Held, IsProject;
    HeadNamesOneSet(env, h.Source(env, k + 1), documents);
  }

  /** No lost update: while every commit keeps the source, no two saves from one head commit. */
  lemma OneSavePerHead(env: Storage.Environment, h: History, i: nat, j: nat)
    requires IsUsual(env) && h.Valid(env) && i < j < |h.entries| && SavesRaiseFreshness(env, h)
    requires forall k :: 0 <= k <= j ==> KeepsSource(env, h, k)
    requires h.entries[i].writing.Saving? && h.entries[j].writing.Saving?
    ensures h.entries[i].writing.snapshot.headRevision != h.entries[j].writing.snapshot.headRevision
  {
    hide Head, Held, RaisesFreshness, IsBase;
    FreshnessNeverFalls(env, h, i, j);
    SaveReadsItsHead(env, h, i);
    SaveReadsItsHead(env, h, j);
    HistoryHoldsProjects(env, h, i);
    HistoryHoldsProjects(env, h, j);
    SameSource(env, h.roots[i], h.roots[j]);
  }

  lemma SaveReadsItsHead(env: Storage.Environment, h: History, k: nat)
    requires IsUsual(env) && h.Valid(env) && k < |h.entries| && h.entries[k].writing.Saving? && KeepsSource(env, h, k)
    ensures h.entries[k].writing.snapshot.headRevision == Some(Head(env, h.Source(env, k)))
  {
    hide Head, Held;
    CommitKeepsSourceExactly(env, h, k);
    assert h.Fits(env, k);
  }

  // ---------- The packs ----------

  ghost predicate AddsPackFile(a: Tree, b: Tree, p: Path) {
    p in PackFiles(b) && p !in PackFiles(a)
  }

  /** The pack that the compaction itself adds. */
  predicate IsOwnPack(env: Storage.Environment, writing: Writing, p: Path) {
    writing.Compacting? && writing.versionId.Some? && p == PackPath(env.audit.stem(writing.versionId.value))
  }

  /** What a commit leaves of the packs: those it has looked up, and its own. */
  lemma WrittenPacks(env: Storage.Environment, base: Tree, seen: Tree, writing: Writing, after: Tree)
    requires Sound(env.audit, seen) && Writes(env, base, seen, writing, after)
    ensures KeepsPacks(seen, after)
    ensures forall p <- PackFiles(after) :: p in PackFiles(seen) || IsOwnPack(env, writing, p)
  {
    hide Holds, IsReadable, HoldsExactly, KeepsPacked, PacksReadable, PackedIn, IsDocumentSet, Held, Head, IsCanonical, IsEncoded,
         Unpacked, IsSelected, OperationIds, PendingIds;
    assert PackFiles(seen) != map[] ==> AuditLayoutPath in seen;
    forall p <- PackFiles(seen) ensures p in after && after[p] == seen[p] {
      if writing.Saving? { assert p in PackFiles(after); }
    }
  }

  /** Packs that other commits have added since this one looked them up are the one it adds itself. */
  ghost predicate HasSeenPacks(env: Storage.Environment, h: History, k: nat)
    requires |h.roots| == |h.entries| + 1 && k < |h.entries|
  {
    forall m, p :: h.entries[k].packs <= m < k && AddsPackFile(h.roots[m], h.roots[m + 1], p) ==>
      IsOwnPack(env, h.entries[k].writing, p) && p in h.roots[k + 1] && h.roots[k + 1][p] == h.roots[m + 1][p]
  }

  ghost predicate KeepsPacksAt(h: History, k: nat)
    requires k + 1 < |h.roots|
  {
    KeepsPacks(h.roots[k], h.roots[k + 1])
  }

  lemma {:induction false} PacksStay(h: History, i: nat, j: nat)
    requires i <= j < |h.roots| && forall k :: i <= k < j ==> KeepsPacksAt(h, k)
    ensures KeepsPacks(h.roots[i], h.roots[j])
    decreases j
  {
    if i < j {
      PacksStay(h, i, j - 1);
      assert KeepsPacksAt(h, j - 1);
      KeptTwiceIsKept(h.roots[i], h.roots[j - 1], h.roots[j]);
    }
  }

  /** A pack that is there later and was not there before has been added in between. */
  lemma {:induction false} PackWasAdded(h: History, i: nat, j: nat, p: Path) returns (m: nat)
    requires i <= j < |h.roots| && p in PackFiles(h.roots[j]) && p !in PackFiles(h.roots[i])
    ensures i <= m < j && AddsPackFile(h.roots[m], h.roots[m + 1], p)
    decreases j
  {
    m := j - 1;
    if p in PackFiles(h.roots[j - 1]) { m := PackWasAdded(h, i, j - 1, p); }
  }

  lemma CommitSeesPacks(env: Storage.Environment, h: History, k: nat)
    requires IsUsual(env) && h.Valid(env) && k < |h.entries|
    ensures var seen, after := h.roots[h.entries[k].packs], h.roots[k + 1];
            && KeepsPacks(seen, after)
            && forall p <- PackFiles(after) :: p in PackFiles(seen) || IsOwnPack(env, h.entries[k].writing, p)
  {
    hide IsUsual, Writes, KeepsPacks, PackFiles;
    assert h.Fits(env, k);
    HistoryHoldsProjects(env, h, h.entries[k].packs);
    WrittenPacks(env, h.roots[h.entries[k].read], h.roots[h.entries[k].packs], h.entries[k].writing, h.roots[k + 1]);
  }

  /** Where nothing has been lost before, a commit keeps the packs if and only if it has seen them, or adds the same one. */
  lemma CommitKeepsPacksExactly(env: Storage.Environment, h: History, k: nat)
    requires IsUsual(env) && h.Valid(env) && k < |h.entries|
    requires forall m :: 0 <= m < k ==> KeepsPacksAt(h, m)
    ensures KeepsPacksAt(h, k) <==> HasSeenPacks(env, h, k)
  {
    hide IsUsual;
    CommitSeesPacks(env, h, k);
    var seen := h.entries[k].packs;
    PacksStay(h, seen, k);
    if KeepsPacksAt(h, k) {
      forall m, p | seen <= m < k && AddsPackFile(h.roots[m], h.roots[m + 1], p)
        ensures IsOwnPack(env, h.entries[k].writing, p) && p in h.roots[k + 1] && h.roots[k + 1][p] == h.roots[m + 1][p]
      {
        PacksStay(h, m + 1, k);
        PacksStay(h, seen, m);
        assert p in PackFiles(h.roots[k]) && p in PackFiles(h.roots[k + 1]) && p !in PackFiles(h.roots[seen]);
      }
    }
    if HasSeenPacks(env, h, k) {
      forall p <- PackFiles(h.roots[k]) ensures p in h.roots[k + 1] && h.roots[k + 1][p] == h.roots[k][p] {
        if p !in PackFiles(h.roots[seen]) {
          var m := PackWasAdded(h, seen, k, p);
          PacksStay(h, m + 1, k);
        }
      }
    }
  }

  /**
    No pack is lost or changed, in the whole history, if and only if no other pack is added between what any commit has
    looked up and that commit.
   */
  lemma PacksAreKeptExactly(env: Storage.Environment, h: History)
    requires IsUsual(env) && h.Valid(env)
    ensures (forall k :: 0 <= k < |h.entries| ==> KeepsPacksAt(h, k))
       <==> forall k :: 0 <= k < |h.entries| ==> HasSeenPacks(env, h, k)
  {
    hide IsUsual, KeepsPacksAt, HasSeenPacks;
    if forall k :: 0 <= k < |h.entries| ==> KeepsPacksAt(h, k) {
      forall k | 0 <= k < |h.entries| ensures HasSeenPacks(env, h, k) { CommitKeepsPacksExactly(env, h, k); }
    }
    if forall k :: 0 <= k < |h.entries| ==> HasSeenPacks(env, h, k) {
      for k := 0 to |h.entries|
        invariant forall m :: 0 <= m < k ==> KeepsPacksAt(h, m)
      {
        CommitKeepsPacksExactly(env, h, k);
      }
    }
  }

  // ---------- Calls that overlap ----------

  /** The callers are saves and compactions, and loads, of one JSON root. */
  ghost predicate Governs(env: Storage.Environment, protocol: Protocol<Tree>) {
    && FitsRules(env.audit, protocol.rules)
    && forall base, seen, after :: protocol.mayWrite(base, seen, after) <==>
         exists writing :: Writes(env, Flatten(base), Flatten(seen), writing, Flatten(after))
  }

  lemma ProtocolExists(env: Storage.Environment, clients: set<Client>, lockers: set<Client>, writers: set<Client>, lateMayAct: bool)
    returns (protocol: Protocol<Tree>)
    requires IsUsual(env) && CutIsLawful(env.audit)
    ensures Governs(env, protocol) && protocol.clients == clients && protocol.lockers == lockers && protocol.writers == writers
    ensures protocol.lateMayAct == lateMayAct
  {
    hide FitsRules, CutIsLawful, Writes, Lawful;
    var rules := RulesExist(env.audit);
    var mayWrite := (base, seen, after) => exists writing :: Writes(env, Flatten(base), Flatten(seen), writing, Flatten(after));
    protocol := Protocol(rules, clients, lockers, writers, mayWrite, lateMayAct);
  }

  lemma CommitHasEntry(env: Storage.Environment, protocol: Protocol<Tree>, s: State<Tree>, k: nat) returns (entry: Entry)
    requires Governs(env, protocol) && Intact(protocol, s) && k < |s.commits|
    ensures IsEntryOf(env, s, k, entry)
  {
    hide FitsRules, Recoverable, Writes;
    var plan := s.commits[k];
    assert IsWellFounded(protocol, s.history[..k + 1], plan);
    var writing :| Writes(env, Flatten(plan.read.entries), Flatten(plan.packs.entries), writing, Flatten(plan.documents));
    entry := Entry(writing, plan.read.at, plan.packs.at);
  }

  lemma CommitsHaveEntries(env: Storage.Environment, protocol: Protocol<Tree>, s: State<Tree>) returns (entries: seq<Entry>)
    requires Governs(env, protocol) && Intact(protocol, s)
    ensures |entries| == |s.commits| && forall k :: 0 <= k < |entries| ==> IsEntryOf(env, s, k, entries[k])
  {
    hide Governs, Intact, IsEntryOf;
    entries := [];
    for k := 0 to |s.commits|
      invariant |entries| == k
      invariant forall m :: 0 <= m < k ==> IsEntryOf(env, s, m, entries[m])
    {
      var entry := CommitHasEntry(env, protocol, s, k);
      entries := entries + [entry];
    }
  }

  function RootsOf(history: seq<Entries<Tree>>): (roots: seq<Tree>)
    ensures |roots| == |history| && forall k :: 0 <= k < |roots| ==> roots[k] == Flatten(history[k])
  {
    seq(|history|, k requires 0 <= k < |history| => Flatten(history[k]))
  }

  lemma EntryFits(env: Storage.Environment, s: State<Tree>, h: History, k: nat)
    requires k < |h.entries| && |h.roots| == |h.entries| + 1 && h.roots == RootsOf(s.history)
    requires IsEntryOf(env, s, k, h.entries[k])
    ensures h.entries[k].read <= h.entries[k].packs <= k && h.Fits(env, k)
    ensures h.entries[k].read == s.commits[k].read.at && h.entries[k].packs == s.commits[k].packs.at
  {
    hide Writes;
    var entry := h.entries[k];
    assert h.roots[entry.read] == Flatten(s.history[entry.read]) && h.roots[entry.packs] == Flatten(s.history[entry.packs]);
    assert h.roots[k + 1] == Flatten(s.history[k + 1]);
  }

  /** The history of an intact state. */
  lemma HistoryOfCalls(env: Storage.Environment, protocol: Protocol<Tree>, s: State<Tree>) returns (h: History)
    requires Governs(env, protocol) && Intact(protocol, s) && IsProject(env, Flatten(s.history[0]))
    ensures h.Valid(env) && h.roots == RootsOf(s.history) && |h.roots| == |s.commits| + 1
    ensures forall k :: 0 <= k < |h.entries| ==>
              h.entries[k].read == s.commits[k].read.at && h.entries[k].packs == s.commits[k].packs.at
  {
    assert |s.history| == |s.commits| + 1;
    hide Governs, Intact, Writes, IsProject, IsEntryOf;
    var entries := CommitsHaveEntries(env, protocol, s);
    h := History(RootsOf(s.history), entries);
    assert h.roots[0] == Flatten(s.history[0]);
    forall k | 0 <= k < |h.entries|
      ensures h.entries[k].read <= h.entries[k].packs <= k && h.Fits(env, k)
      ensures h.entries[k].read == s.commits[k].read.at && h.entries[k].packs == s.commits[k].packs.at
    {
      EntryFits(env, s, h, k);
    }
  }

  ghost predicate IsEntryOf(env: Storage.Environment, s: State<Tree>, k: nat, entry: Entry) {
    && k < |s.commits| && k + 1 < |s.history|
    && entry.read == s.commits[k].read.at && entry.packs == s.commits[k].packs.at && entry.read <= entry.packs <= k
    && Writes(env, Flatten(s.history[entry.read]), Flatten(s.history[entry.packs]), entry.writing, Flatten(s.history[k + 1]))
  }

  /** Where nothing falls between what a commit has read and that commit, nothing is lost. */
  lemma SerialHistoryLosesNothing(env: Storage.Environment, h: History)
    requires IsUsual(env) && h.Valid(env)
    requires forall k :: 0 <= k < |h.entries| ==> h.entries[k].read == k && h.entries[k].packs == k
    ensures forall k :: 0 <= k < |h.entries| ==> KeepsSource(env, h, k) && KeepsPacksAt(h, k)
  {
    assert forall k :: 0 <= k < |h.entries| ==> IsNotOvertaken(h, k) && HasSeenPacks(env, h, k);
    hide IsUsual, KeepsSource, KeepsPacksAt, IsNotOvertaken, HasSeenPacks;
    forall k | 0 <= k < |h.entries| ensures KeepsSource(env, h, k) { UndisturbedCommitKeepsSource(env, h, k); }
    PacksAreKeptExactly(env, h);
  }

  /**
    Where no late call acts and all writers take the lock, compactions too, overlapping calls lose nothing: every commit
    replaces what it stands for, no pack is lost, and what a load returns is a project that was durable when it ended.
   */
  lemma LockedWritersLoseNothing(env: Storage.Environment, protocol: Protocol<Tree>, s: State<Tree>, steps: seq<Step<Tree>>)
    returns (h: History)
    requires IsUsual(env) && Governs(env, protocol) && Initial(protocol, s) && IsProject(env, Flatten(s.history[0]))
    requires IsOrderly(protocol) && IsOneWriter(protocol)
    requires protocol.lateMayAct && !IsExclusive(protocol) ==> s.disk.replacement == None
    requires Execute(protocol, s, steps).Some?
    ensures var t := Execute(protocol, s, steps).value;
            && h.Valid(env) && h.roots == RootsOf(t.history)
            && (forall k :: 0 <= k < |h.entries| ==> KeepsSource(env, h, k) && KeepsPacksAt(h, k))
            && (forall f <- t.answers :: f.at < |h.roots| && Flatten(f.entries) == h.roots[f.at] && IsProject(env, Flatten(f.entries)))
  {
    assert |s.history| == 1;
    hide IsUsual, FitsRules, IsOrderly, IsOneWriter, IsExclusive, Initial, Recoverable, KeepsSource, KeepsPacksAt, IsProject, Writes, Execute;
    RulesAreLawful(env.audit, protocol.rules);
    OrderlyRunsAreIntact(protocol, s, steps);
    RunKeepsFirst(protocol, s, steps);
    var t := Execute(protocol, s, steps).value;
    h := HistoryOfCalls(env, protocol, t);
    SerialHistoryLosesNothing(env, h);
    forall f <- t.answers ensures f.at < |h.roots| && Flatten(f.entries) == h.roots[f.at] && IsProject(env, Flatten(f.entries)) {
      HistoryHoldsProjects(env, h, f.at);
    }
  }

  /** What the writing leads to from the present root, and staging accepts. */
  ghost predicate CanBeWritten(env: Storage.Environment, protocol: Protocol<Tree>, s: State<Tree>, writing: Writing,
                               after: Entries<Tree>) {
    && CanonicalReplacement.Fits(protocol.rules, after)
    && Writes(env, Flatten(s.Durable()), Flatten(s.Durable()), writing, Flatten(after))
  }

  /** A project in place, nothing unfinished, and no call under way. */
  ghost predicate IsSettled(env: Storage.Environment, protocol: Protocol<Tree>, s: State<Tree>) {
    && IsUsual(env) && Governs(env, protocol) && Initial(protocol, s) && s.disk.replacement == None
    && IsProject(env, Flatten(s.Durable()))
  }

  lemma WritingIsReplacement(env: Storage.Environment, protocol: Protocol<Tree>, s: State<Tree>, writing: Writing,
                             after: Entries<Tree>)
    requires IsSettled(env, protocol, s) && CanBeWritten(env, protocol, s, writing, after)
    ensures IsReplaceable(protocol, s, after)
  {
    hide Writes, Held, Recoverable, Lawful, IsDocumentSet, CutIsLawful, CanonicalReplacement.Fits;
    assert VerdictOn(env.audit, s.Durable()) == ValidSet by { hide FitsRules; }
  }

  /**
    The command line's compaction undoes a save: it reads, the save commits under the lock and is told its head, and the
    compaction, which finds no lock by then, writes the documents of before.  No call is late.
   */
  lemma CompactionUndoesSave(env: Storage.Environment, protocol: Protocol<Tree>, s: State<Tree>, compactor: Client, saver: Client,
                             versionId: Option<string>, compacted: Entries<Tree>, snapshot: Snapshot, saved: Entries<Tree>)
    returns (t: State<Tree>)
    requires IsSettled(env, protocol, s) && RaisesFreshness(env, snapshot)
    requires {compactor, saver} <= protocol.clients && {compactor, saver} <= protocol.writers && compactor !in protocol.lockers
    requires compactor != saver
    requires CanBeWritten(env, protocol, s, Compacting(versionId), compacted)
    requires CanBeWritten(env, protocol, s, Saving(snapshot), saved)
    ensures Reaches(protocol, s, t) && t.history == s.history + [saved, compacted] && t.disk.replacement == None
    ensures SameDocuments(Held(env.audit, Flatten(saved)), snapshot.documents)
    ensures Held(env.audit, Flatten(t.Durable())) == Held(env.audit, Flatten(s.Durable()))
    ensures Head(env, Held(env.audit, Flatten(t.Durable()))) != Head(env, Held(env.audit, Flatten(saved)))
  {
    hide Writes, Held, Recoverable, FitsRules, IsProject, Lawful, RaisesFreshness, CanonicalReplacement.Fits;
    RulesAreLawful(env.audit, protocol.rules);
    WritingIsReplacement(env, protocol, s, Compacting(versionId), compacted);
    WritingIsReplacement(env, protocol, s, Saving(snapshot), saved);
    t := StaleCommit(protocol, s, compactor, saver, compacted, saved);
    var before := Flatten(s.Durable());
    WritingKeepsProject(env, before, before, Compacting(versionId), Flatten(compacted));
    WritingKeepsProject(env, before, before, Saving(snapshot), Flatten(saved));
    WrittenSource(env, before, before, Compacting(versionId), Flatten(compacted));
    WrittenSource(env, before, before, Saving(snapshot), Flatten(saved));
    SaveMovesHead(env, before, before, snapshot, Flatten(saved));
  }

  /** Entries that staging accepts. */
  ghost predicate CanBeStaged(env: Storage.Environment, entries: Entries<Tree>) {
    (forall n <- entries :: n in TOP_LEVEL_ENTRIES) && VerdictOn(env.audit, entries) == ValidSet
  }

  /** Client 0 compacts from the command line, client 1 saves under the lock, and no late call acts: the save is undone. */
  lemma LockedSavesAreNotEnough(env: Storage.Environment, durable: Entries<Tree>, versionId: Option<string>,
                                compacted: Entries<Tree>, snapshot: Snapshot, saved: Entries<Tree>)
    returns (protocol: Protocol<Tree>, s: State<Tree>, t: State<Tree>)
    requires IsUsual(env) && CutIsLawful(env.audit) && RaisesFreshness(env, snapshot) && IsProject(env, Flatten(durable))
    requires CanBeStaged(env, durable) && CanBeStaged(env, compacted) && CanBeStaged(env, saved)
    requires Writes(env, Flatten(durable), Flatten(durable), Compacting(versionId), Flatten(compacted))
    requires Writes(env, Flatten(durable), Flatten(durable), Saving(snapshot), Flatten(saved))
    ensures Governs(env, protocol) && protocol.writers == {0, 1} && protocol.lockers == {1} && !protocol.lateMayAct
    ensures Initial(protocol, s) && s.disk == Disk(durable, None) && Reaches(protocol, s, t)
    ensures t.history == [durable, saved, compacted]
    ensures Head(env, Held(env.audit, Flatten(t.Durable()))) == Head(env, Held(env.audit, Flatten(durable)))
    ensures Head(env, Held(env.audit, Flatten(t.Durable()))) != Head(env, Held(env.audit, Flatten(saved)))
  {
    hide Writes, Held, Lawful, RaisesFreshness, IsProject, CutIsLawful, Flatten, VerdictOn, Head, Reaches;
    protocol := ProtocolExists(env, {0, 1}, {1}, {0, 1}, false);
    s := State(Disk(durable, None), map[], None, map[], {}, [durable], [], []);
    assert Only(durable, protocol.rules.names) == durable;
    t := CompactionUndoesSave(env, protocol, s, 0, 1, versionId, compacted, snapshot, saved);
  }

  /** A save that raises freshness changes the head. */
  lemma SaveMovesHead(env: Storage.Environment, base: Tree, seen: Tree, snapshot: Snapshot, after: Tree)
    requires IsUsual(env) && IsProject(env, base) && IsProject(env, after) && Writes(env, base, seen, Saving(snapshot), after)
    requires RaisesFreshness(env, snapshot)
    ensures Head(env, Held(env.audit, base)) != Head(env, Held(env.audit, after))
  {
    hide IsUsual, IsProject, Held, Head, SameDocuments, RaisesFreshness, CarriesPacks, HoldsExactly, KeepsPacked;
    WrittenSource(env, base, seen, Saving(snapshot), after);
    ProjectIsClean(env, base);
    FreshnessRises(env, Held(env.audit, base), snapshot);
    SavedFreshness(env, after, snapshot);
    SameSource(env, base, after);
  }

  /**
    A save drops a pack: it looks the packs up, a compaction that has passed its last check commits a new one, and the save
    commits without it.
   */
  lemma SaveDropsPack(env: Storage.Environment, protocol: Protocol<Tree>, s: State<Tree>, compactor: Client, saver: Client,
                      id: string, compacted: Entries<Tree>, snapshot: Snapshot, saved: Entries<Tree>)
    returns (t: State<Tree>)
    requires IsSettled(env, protocol, s)
    requires {compactor, saver} <= protocol.clients && {compactor, saver} <= protocol.writers && compactor !in protocol.lockers
    requires compactor != saver
    requires CanBeWritten(env, protocol, s, Compacting(Some(id)), compacted)
    requires CanBeWritten(env, protocol, s, Saving(snapshot), saved)
    ensures Reaches(protocol, s, t) && t.history == s.history + [compacted, saved] && t.disk.replacement == None
    ensures PackPath(env.audit.stem(id)) in Flatten(compacted) && PackPath(env.audit.stem(id)) !in Flatten(t.Durable())
  {
    hide Held, Recoverable, FitsRules, IsProject, Lawful, CanonicalReplacement.Fits;
    RulesAreLawful(env.audit, protocol.rules);
    WritingIsReplacement(env, protocol, s, Compacting(Some(id)), compacted);
    WritingIsReplacement(env, protocol, s, Saving(snapshot), saved);
    t := StaleCommit(protocol, s, saver, compactor, saved, compacted);
    var before, p := Flatten(s.Durable()), PackPath(env.audit.stem(id));
    assert p !in before && p in PackFiles(Flatten(compacted));
    assert AuditDisk.Sound(env.audit, before) by { assert IsProject(env, before); ProjectIsSound(env, before); }
    WrittenPacks(env, before, before, Saving(snapshot), Flatten(saved));
    assert p !in PackFiles(Flatten(saved));
  }

  lemma ProjectIsSound(env: Storage.Environment, files: Tree)
    requires IsProject(env, files)
    ensures AuditDisk.Sound(env.audit, files)
  {
  }
}
