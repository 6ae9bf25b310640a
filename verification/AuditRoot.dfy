/**
  A JSON root over its life: documents are replaced and the audit layout is compacted, one call after the other, on a
  store in which any call may have died and left a replacement unfinished (packages/json/src/filesystem.ts).
  OverlappingStorage is about calls that overlap: a compaction takes no lock.
 */
module AuditRoot {
  import opened Wrappers
  import opened AuditLayout
  import opened AuditLayoutProofs
  import opened AuditStorage
  import opened AuditReading
  import opened AuditPacking
  import opened AuditDisk
  import opened CanonicalReplacement
  import opened CanonicalStore
  import Sorting

  /** The paths of the documents that are in packs. */
  ghost function PackedIn(files: map<Path, File>): (paths: set<Path>)
    ensures forall p <- files | p.PackPath? :: forall d <- PackFrom(p, files[p]).documents :: d.path in paths
  {
    set p <- files, d <- PackFrom(p, files[p]).documents | p.PackPath? :: d.path
  }

  ghost predicate HoldsExactly(env: Environment, files: map<Path, File>, documents: seq<Document>, packed: set<Path>) {
    forall x :: Holds(env, files, x) <==> exists d <- documents :: x == Stored(packed, d)
  }

  /** Validation looks at the documents and not at their order. */
  ghost predicate OrderFree(env: Environment) {
    forall a, b :: DistinctPaths(a) && DistinctPaths(b) && (forall x :: x in a <==> x in b) ==> env.valid(a) == env.valid(b)
  }

  lemma PacksAreReadable(env: Environment, files: map<Path, File>)
    requires Readable(env, files)
    ensures forall p <- files :: p.PackPath? ==> DocumentsIn(env, p, files[p]).Some?
  {
    hide DocumentsIn;
  }

  /** Every packed document is among `documents`, unchanged. */
  ghost predicate KeepsPacked(files: map<Path, File>, documents: seq<Document>) {
    forall p <- files :: p.PackPath? ==> forall d <- PackFrom(p, files[p]).documents :: d in documents
  }

  lemma PacksIntactExactly(files: map<Path, File>, packs: seq<PreservedPack>, documents: seq<Document>)
    requires IsPacksOf(files, packs)
    ensures PacksIntact(documents, packs) <==> KeepsPacked(files, documents)
  {
    if PacksIntact(documents, packs) {
      forall p <- files | p.PackPath? ensures forall d <- PackFrom(p, files[p]).documents :: d in documents {
        assert PackFrom(p, files[p]) in packs;
      }
    }
  }

  lemma PackedByPacks(files: map<Path, File>, packs: seq<PreservedPack>)
    requires IsPacksOf(files, packs)
    ensures PackedPaths(packs) == PackedIn(files)
  {
    forall path ensures path in PackedPaths(packs) <==> path in PackedIn(files) {
      if pack :| pack in packs && exists d <- pack.documents :: d.path == path {
        assert pack == PackFrom(pack.path, files[pack.path]);
      }
    }
  }

  /** The packs of a new layout are the packs it was built with. */
  lemma LayoutKeepsItsPacks(env: Environment, documents: seq<Document>, packs: seq<PreservedPack>,
                            physical: seq<PhysicalFile>, files: map<Path, File>)
    requires LaidOut(env, documents, packs, physical, files)
    ensures AuditLayoutPath in files
    ensures forall pack <- packs :: pack.path in files && files[pack.path] == pack.file
    ensures forall p <- files :: p.PackPath? ==> exists pack <- packs :: pack.path == p && pack.file == files[p]
    ensures PackedIn(files) == PackedPaths(packs)
  {
    hide OperationIdOf, GroupOf, IsEnvelope, DisjointPacks, DistinctPaths, IsDocumentSet, PacksIntact, Written, IsLoose;
    forall pack <- packs ensures pack.path in files && files[pack.path] == pack.file {
      PackIsHeld(env, documents, packs, physical, files, pack);
    }
    forall p <- files | p.PackPath? ensures exists pack <- packs :: pack.path == p && pack.file == files[p] {
      FileKinds(env, documents, packs, physical, files, p);
    }
    forall path ensures path in PackedIn(files) <==> path in PackedPaths(packs) {
      if path in PackedIn(files) {
        var p :| p in files && p.PackPath? && exists d <- PackFrom(p, files[p]).documents :: d.path == path;
        var pack :| pack in packs && pack.path == p && pack.file == files[p];
        PackPathsAgree(env, pack, path);
      }
      if pack :| pack in packs && exists d <- pack.documents :: d.path == path {
        PackPathsAgree(env, pack, path);
      }
    }
  }

  lemma PackPathsAgree(env: Environment, pack: PreservedPack, path: Path)
    requires FaithfulPack(env, pack)
    ensures (exists d <- PackFrom(pack.path, pack.file).documents :: d.path == path) <==> exists d <- pack.documents :: d.path == path
  {
    var expanded := Expand(pack.file.documents);
    Sorting.SameMembers(pack.file.documents, EmbedAll(pack.documents));
    if d :| d in expanded && d.path == path {
      var i :| 0 <= i < |expanded| && expanded[i] == d;
      assert pack.file.documents[i] in EmbedAll(pack.documents);
      var j :| 0 <= j < |pack.documents| && EmbedAll(pack.documents)[j] == pack.file.documents[i];
      assert pack.documents[j] in pack.documents;
    }
    if d :| d in pack.documents && d.path == path {
      var j :| 0 <= j < |pack.documents| && pack.documents[j] == d;
      assert EmbedAll(pack.documents)[j] in pack.file.documents;
      var i :| 0 <= i < |pack.file.documents| && pack.file.documents[i] == Embed(d);
      assert expanded[i] in expanded;
    }
  }

  /** What a staged layout holds once the count check has passed. */
  lemma StagedHoldsExactly(env: Environment, documents: seq<Document>, packs: seq<PreservedPack>,
                           physical: seq<PhysicalFile>, files: map<Path, File>, held: seq<Document>)
    requires LaidOut(env, documents, packs, physical, files) && IsReadOf(env, files, held) && |held| == |documents|
    ensures HoldsExactly(env, files, documents, PackedPaths(packs))
  {
    hide OperationIdOf, LaidOut, Stored, StemsDistinct, Survives, PackedPaths, Holds;
    CountCheckIsExact(env, documents, packs, physical, files, held);
    AllSurviveExactly(env, documents, packs, physical, files);
    forall x ensures Holds(env, files, x) <==> exists d <- documents :: x == Stored(PackedPaths(packs), d) {
      LayoutHoldsExactly(env, documents, packs, physical, files, x);
    }
  }

  lemma SameMembersSameCount(a: seq<Document>, b: seq<Document>)
    requires DistinctPaths(a) && DistinctPaths(b) && forall x :: x in a <==> x in b
    ensures |a| == |b|
  {
    PathsCount(a);
    PathsCount(b);
    assert PathsOf(a) == PathsOf(b);
  }

  /** What staging checks of the files it has written: they read back as a valid set of the expected number. */
  ghost predicate PassesStaging(env: Environment, files: Tree, count: nat) {
    && IsReadable(env, files) && IsDocumentSet(Held(env, files)) && env.valid(Held(env, files))
    && |Held(env, files)| == count
  }

  lemma HoldsTheSame(env: Environment, files: Tree, documents: seq<Document>, packed: set<Path>)
    requires HoldsExactly(env, files, documents, packed) && forall d <- documents :: IsCanonical(d)
    ensures forall x :: Holds(env, files, x) <==> x in documents
  {
    hide Holds, Stored;
    forall d <- documents ensures Stored(packed, d) == d { CanonicalIsStoredAsIs(packed, d); }
  }

  /** A set held as it was given is as valid as it was. */
  lemma HeldIsValid(env: Environment, files: Tree, documents: seq<Document>)
    requires Sorting.TotalOrder(env.pathLeq) && IsReadable(env, files) && OrderFree(env)
    requires IsDocumentSet(documents) && env.valid(documents) && forall x :: Holds(env, files, x) <==> x in documents
    ensures PassesStaging(env, files, |documents|)
  {
    hide Holds, Readable, PathsHeldOnce;
    SameMembersSameCount(Held(env, files), documents);
  }

  /** Staging a layout of canonical, valid documents succeeds if and only if no two operations share an envelope file. */
  lemma StagingVerdict(env: Environment, documents: seq<Document>, packs: seq<PreservedPack>,
                       physical: seq<PhysicalFile>, files: Tree)
    requires Sorting.TotalOrder(env.pathLeq) && LaidOut(env, documents, packs, physical, files)
    requires OrderFree(env) && env.valid(documents) && forall d <- documents :: IsCanonical(d)
    ensures PassesStaging(env, files, |documents|) <==> StemsDistinct(env, documents, PackedPaths(packs))
  {
    hide OperationIdOf, Stored, StemsDistinct, Survives, PackedPaths, Holds, Readable, PathsHeldOnce, FaithfulPacks, IsLayout,
         OrderFree;
    LayoutHoldsPathsOnce(env, documents, packs, physical, files);
    var held := Held(env, files);
    CountCheckIsExact(env, documents, packs, physical, files, held);
    if |held| == |documents| {
      StagedHoldsExactly(env, documents, packs, physical, files, held);
      HoldsTheSame(env, files, documents, PackedPaths(packs));
      HeldIsValid(env, files, documents);
    }
  }

  lemma LooseVerdict(env: Environment, documents: seq<Document>, files: Tree)
    requires Sorting.TotalOrder(env.pathLeq)
    requires IsDocumentSet(documents) && files == Written(LooseFiles(documents))
    requires OrderFree(env) && env.valid(documents)
    ensures PassesStaging(env, files, |documents|)
  {
    hide Holds, Readable, PathsHeldOnce, LooseFiles, OrderFree;
    LooseIsSound(env, documents, files);
    forall x ensures Holds(env, files, x) <==> x in documents { LooseHoldsExactly(env, documents, files, x); }
    HeldIsValid(env, files, documents);
  }

  function LooseFiles(documents: seq<Document>): (physical: seq<PhysicalFile>)
    ensures |physical| == |documents|
    ensures forall i :: 0 <= i < |documents| ==>
              physical[i] == PhysicalFile(documents[i].path, DocumentFile(documents[i].content))
  {
    seq(|documents|, i requires 0 <= i < |documents| => PhysicalFile(documents[i].path, DocumentFile(documents[i].content)))
  }

  lemma {:induction false} LooseFileHolds(documents: seq<Document>, files: map<Path, File>, d: Document)
    requires IsDocumentSet(documents) && files == Written(LooseFiles(documents)) && d in documents
    ensures d.path in files && files[d.path] == DocumentFile(d.content)
  {
    var physical := LooseFiles(documents);
    var i :| 0 <= i < |documents| && documents[i] == d;
    assert physical[i] in physical;
    assert PhysicalFile(d.path, files[d.path]) in physical;
    var j :| 0 <= j < |documents| && physical[j] == PhysicalFile(d.path, files[d.path]);
    assert documents[j] == d;
  }

  lemma {:induction false} LooseShare(env: Environment, documents: seq<Document>, files: map<Path, File>, p: Path)
    requires IsDocumentSet(documents) && files == Written(LooseFiles(documents)) && p in files
    ensures IsCanonicalPath(p) && DocumentsIn(env, p, files[p]).Some?
    ensures exists d <- documents :: d.path == p && Contribution(env, files, p) == [d]
  {
    hide Written, DistinctPaths;
    assert PhysicalFile(p, files[p]) in LooseFiles(documents);
    var i :| 0 <= i < |documents| && LooseFiles(documents)[i] == PhysicalFile(p, files[p]);
    assert documents[i] in documents;
  }

  lemma {:induction false} LooseIsSound(env: Environment, documents: seq<Document>, files: map<Path, File>)
    requires IsDocumentSet(documents) && files == Written(LooseFiles(documents))
    ensures Sound(env, files)
  {
    hide Written, DistinctPaths, DocumentsIn, Contribution, LooseFiles, IsDocumentSet;
    forall p <- files
      ensures IsCanonicalPath(p) && DocumentsIn(env, p, files[p]).Some? && DistinctPaths(Contribution(env, files, p))
      ensures forall x <- Contribution(env, files, p) :: x.path == p
    {
      LooseShare(env, documents, files, p);
      var d :| d in documents && d.path == p && Contribution(env, files, p) == [d];
      OneIsDistinct(d);
    }
  }

  /** Loose documents only: every file is one document. */
  lemma {:induction false} LooseHoldsExactly(env: Environment, documents: seq<Document>, files: map<Path, File>, x: Document)
    requires IsDocumentSet(documents) && files == Written(LooseFiles(documents))
    ensures Holds(env, files, x) <==> x in documents
  {
    hide Written, DistinctPaths, DocumentsIn, Contribution, LooseFiles;
    if Holds(env, files, x) {
      var p :| p in files && x in Contribution(env, files, p);
      LooseShare(env, documents, files, p);
    }
    if x in documents {
      LooseFileHolds(documents, files, x);
      LooseShare(env, documents, files, x.path);
      var e :| e in documents && e.path == x.path && Contribution(env, files, x.path) == [e];
      SamePathSameDocument(documents, x, e);
    }
  }

  lemma OneIsDistinct(d: Document)
    ensures DistinctPaths([d])
  {
  }

  lemma {:induction false} UnpackedIsDistinct(documents: seq<Document>, packed: set<Path>)
    requires DistinctPaths(documents)
    ensures DistinctPaths(Unpacked(documents, packed))
    decreases |documents|
  {
    if documents != [] {
      var rest := documents[..|documents| - 1];
      UnpackedIsDistinct(rest, packed);
      forall i | 0 <= i < |Unpacked(rest, packed)|
        ensures Unpacked(rest, packed)[i].path != documents[|documents| - 1].path
      {
        assert Unpacked(rest, packed)[i] in rest;
      }
    }
  }

  /** A pack of unpacked documents joins the existing packs. */
  lemma AddPack(env: Environment, documents: seq<Document>, packs: seq<PreservedPack>, rest: seq<Document>, id: string,
                pack: PreservedPack)
    requires DistinctPaths(documents) && FaithfulPacks(env, packs) && PacksIntact(documents, packs)
    requires forall d :: d in rest <==> d in documents && d.path !in PackedPaths(packs)
    requires FaithfulPack(env, pack) && Selects(rest, id, pack.documents)
    requires forall other <- packs :: other.path != pack.path
    ensures FaithfulPacks(env, packs + [pack]) && PacksIntact(documents, packs + [pack])
    ensures forall d <- rest :: d.path in PackedPaths(packs + [pack])
              <==> IsSelected(d, id, OperationIds(rest, id), PendingIds(rest, id))
  {
    hide FaithfulPack, IsSelected, OperationIds, PendingIds, OperationIdOf;
    var more := packs + [pack];
    forall d <- pack.documents ensures d in documents && d.path !in PackedPaths(packs) {
      assert d in rest;
    }
    forall i, j | 0 <= i < j < |more|
      ensures more[i].path != more[j].path && forall d <- more[i].documents, e <- more[j].documents :: d.path != e.path
    {
      assert more[i] in packs;
      if j < |packs| { assert more[j] == packs[j]; }
    }
    forall d <- rest ensures d.path in PackedPaths(more) <==> d in pack.documents {
      if d in pack.documents { assert pack in more; }
      if other :| other in more && exists e <- other.documents :: e.path == d.path {
        var e :| e in other.documents && e.path == d.path;
        assert other in packs ==> d.path in PackedPaths(packs);
        SamePathSameDocument(documents, d, e);
      }
    }
  }

  lemma FewerUnpackedStemsDistinct(env: Environment, documents: seq<Document>, packed: set<Path>, more: set<Path>)
    requires StemsDistinct(env, documents, packed) && packed <= more
    ensures StemsDistinct(env, documents, more)
  {
    hide OperationIdOf;
  }

  lemma CanonicalIsStoredAsIs(packed: set<Path>, d: Document)
    requires IsCanonical(d)
    ensures Stored(packed, d) == d
  {
  }

  /** The documents outside the packs. */
  function Unpacked(documents: seq<Document>, packed: set<Path>): (r: seq<Document>)
    ensures forall d :: d in r <==> d in documents && d.path !in packed
  {
    if documents == [] then []
    else
      var rest, last := Unpacked(documents[..|documents| - 1], packed), documents[|documents| - 1];
      assert forall d :: d in documents <==> d in documents[..|documents| - 1] || d == last;
      if last.path in packed then rest else rest + [last]
  }

  // ---------- What a command commits ----------

  ghost predicate PacksReadable(env: Environment, files: Tree) {
    forall p <- files :: p.PackPath? ==> DocumentsIn(env, p, files[p]).Some?
  }

  /** What a replacement that found `seen` before recovery makes durable. */
  ghost predicate Committed(env: Environment, seen: Tree, documents: seq<Document>, compactAudit: bool, after: Tree) {
    && IsDocumentSet(documents) && env.valid(documents) && Sound(env, after) && CarriesPacks(seen, compactAudit, after)
    && if compactAudit || AuditLayoutPath in seen
       then PacksReadable(env, seen) && KeepsPacked(seen, documents) && HoldsExactly(env, after, documents, PackedIn(seen))
       else forall x :: Holds(env, after, x) <==> x in documents
  }

  /** The replacements that staging accepts, for canonical documents. */
  ghost predicate CanBeReplaced(env: Environment, seen: Tree, documents: seq<Document>, compactAudit: bool) {
    && IsDocumentSet(documents) && env.valid(documents)
    && (compactAudit || AuditLayoutPath in seen ==>
          PacksReadable(env, seen) && KeepsPacked(seen, documents) && StemsDistinct(env, documents, PackedIn(seen)))
  }

  lemma CommittedHoldsTheSame(env: Environment, seen: Tree, documents: seq<Document>, compactAudit: bool, after: Tree)
    requires Committed(env, seen, documents, compactAudit, after) && forall d <- documents :: IsCanonical(d)
    ensures forall x :: Holds(env, after, x) <==> x in documents
  {
    hide Holds;
    if compactAudit || AuditLayoutPath in seen { HoldsTheSame(env, after, documents, PackedIn(seen)); }
  }

  /** What a compaction of these documents makes durable when it finds `seen`: the documents, the packs of `seen`, and the
      pack of a closed version. */
  ghost predicate CompactedFrom(env: Environment, documents: seq<Document>, seen: Tree, versionId: Option<string>, after: Tree) {
    && Sound(env, after) && KeepsPacks(seen, after)
    && HoldsExactly(env, after, documents, PackedIn(after))
    && match versionId
       case None => PackFiles(after) == PackFiles(seen)
       case Some(id) =>
         var unpacked := Unpacked(documents, PackedIn(seen));
         && PackFiles(after).Keys == PackFiles(seen).Keys + {PackPath(env.stem(id))}
         && PackPath(env.stem(id)) !in seen
         && forall d <- unpacked ::
              d.path in PackedIn(after) <==> IsSelected(d, id, OperationIds(unpacked, id), PendingIds(unpacked, id))
  }

  /** What a compaction makes of a root that it reads in one piece. */
  ghost predicate Compacted(env: Environment, before: Tree, versionId: Option<string>, after: Tree) {
    CompactedFrom(env, Held(env, before), before, versionId, after)
  }

  /** Compaction leaves what is read back unchanged if and only if all that it puts into containers is canonical text. */
  lemma CompactionKeepsReadsExactly(env: Environment, before: Tree, versionId: Option<string>, after: Tree)
    requires Sorting.TotalOrder(env.pathLeq) && IsReadable(env, before) && Compacted(env, before, versionId, after)
    ensures Held(env, after) == Held(env, before)
       <==> forall d <- Held(env, before) :: InContainer(PackedIn(after), d) ==> IsCanonical(d)
  {
    hide Holds, PathsHeldOnce, Readable, PackedIn, OperationIdOf, InContainer, Stored, KeepsPacks, PackFiles, IsSelected, Held,
         OperationIds, PendingIds, Unpacked, HoldsExactly, DistinctPaths;
    StoredFormsReadTheSame(env, before, after, PackedIn(after));
  }

  lemma StoredFormsReadTheSame(env: Environment, before: Tree, after: Tree, packed: set<Path>)
    requires Sorting.TotalOrder(env.pathLeq) && IsReadable(env, before) && IsReadable(env, after)
    requires HoldsExactly(env, after, Held(env, before), packed)
    ensures Held(env, after) == Held(env, before)
       <==> forall d <- Held(env, before) :: InContainer(packed, d) ==> IsCanonical(d)
  {
    hide Holds, Readable, PathsHeldOnce, OperationIdOf, InContainer, Stored, DistinctPaths, Held, Sorting.SortedBy, IsCanonical;
    var a, b := Held(env, before), Held(env, after);
    StoredAsIsExactly(a, packed);
    if forall d <- a :: Stored(packed, d) == d {
      forall x ensures Holds(env, after, x) <==> Holds(env, before, x) { assert x in a <==> Holds(env, before, x); }
      AuditDisk.SameHoldingsReadTheSame(env, after, before);
    }
    if a == b {
      forall d <- a ensures Stored(packed, d) == d {
        assert Holds(env, after, Stored(packed, d));
        assert Stored(packed, d) in b;
        StoredKeepsPath(packed, d);
        SamePathSameDocument(a, d, Stored(packed, d));
      }
    }
  }

  lemma StoredAsIsExactly(documents: seq<Document>, packed: set<Path>)
    ensures (forall d <- documents :: Stored(packed, d) == d)
       <==> forall d <- documents :: InContainer(packed, d) ==> IsCanonical(d)
  {
    hide InContainer;
  }

  lemma SoundIsReadable(env: Environment, files: Tree)
    requires Sound(env, files)
    ensures IsReadable(env, files)
  {
  }

  /** A staged layout commits. */
  lemma LayoutIsCommitted(env: Environment, seen: Tree, documents: seq<Document>, packs: seq<PreservedPack>,
                          physical: seq<PhysicalFile>, files: Tree)
    requires Sorting.TotalOrder(env.pathLeq)
    requires IsPacksOf(seen, packs) && LaidOut(env, documents, packs, physical, files)
    ensures Sound(env, files) && PackFiles(files) == PackFiles(seen)
    ensures |Held(env, files)| == |documents| ==> HoldsExactly(env, files, documents, PackedIn(seen))
  {
    hide Holds, Readable, PathsHeldOnce, OperationIdOf, FaithfulPacks, IsLayout, Stored, PackedIn, PackedPaths, IsDocumentSet,
         PacksIntact, Written;
    LayoutHoldsPathsOnce(env, documents, packs, physical, files);
    LayoutKeepsItsPacks(env, documents, packs, physical, files);
    SamePackFiles(seen, packs, files);
    if |Held(env, files)| == |documents| {
      StagedHoldsExactly(env, documents, packs, physical, files, Held(env, files));
      PackedByPacks(seen, packs);
    }
  }

  lemma OrderIsTotal(env: Environment, rules: Rules<Tree>)
    requires FitsRules(env, rules)
    ensures Sorting.TotalOrder(env.pathLeq)
  {
  }

  /** The store accepts staged files exactly when they pass the checks of staging. */
  lemma StagingFits(env: Environment, rules: Rules<Tree>, staged: Tree, read: Result<seq<Document>, AuditError>, count: nat)
    requires FitsRules(env, rules)
    requires read.Success? <==> Readable(env, staged) && PathsHeldOnce(env, staged)
    requires read.Success? ==> IsSortedRead(env, staged, read.value)
    ensures PassesStaging(env, staged, count) <==> Fits(rules, Split(staged)) && read.Success? && |read.value| == count
  {
    hide Readable, PathsHeldOnce, CutIsLawful, Holds, Split;
    SplitIsCanonical(staged);
    if read.Success? { ReadIsHeld(env, staged, read.value); }
  }

  lemma LooseIsCommitted(env: Environment, seen: Tree, documents: seq<Document>, files: Tree)
    requires IsDocumentSet(documents) && env.valid(documents) && AuditLayoutPath !in seen
    requires files == Written(LooseFiles(documents))
    ensures Committed(env, seen, documents, false, files)
  {
    hide Holds, Readable, PathsHeldOnce, Written, LooseFiles, IsDocumentSet;
    LooseIsSound(env, documents, files);
    forall x ensures Holds(env, files, x) <==> x in documents { LooseHoldsExactly(env, documents, files, x); }
    forall p | p in files ensures !p.PackPath? { LooseShare(env, documents, files, p); }
    assert PackFiles(files) == map[];
  }

  lemma StagedIsCommitted(env: Environment, rules: Rules<Tree>, seen: Tree, documents: seq<Document>, compactAudit: bool,
                          packs: seq<PreservedPack>, physical: seq<PhysicalFile>)
    requires FitsRules(env, rules) && IsDocumentSet(documents) && env.valid(documents)
    requires if compactAudit || AuditLayoutPath in seen
             then PacksReadable(env, seen) && IsPacksOf(seen, packs) && LaidOut(env, documents, packs, physical, Written(physical))
             else physical == LooseFiles(documents)
    ensures PassesStaging(env, Written(physical), |documents|) ==>
              Committed(env, seen, documents, compactAudit, Written(physical))
    ensures OrderFree(env) && !(compactAudit || AuditLayoutPath in seen) ==>
              PassesStaging(env, Written(physical), |documents|)
    ensures OrderFree(env) && (compactAudit || AuditLayoutPath in seen) && (forall d <- documents :: IsCanonical(d)) ==>
              (PassesStaging(env, Written(physical), |documents|) <==> StemsDistinct(env, documents, PackedIn(seen)))
  {
    hide Readable, PathsHeldOnce, Holds, LaidOut, Written, LooseFiles, IsDocumentSet, OrderFree, StemsDistinct, PackedIn,
         PackedPaths, HoldsExactly, VerdictOn, CutIsLawful, IsPacksOf, PacksIntact, KeepsPacked;
    if compactAudit || AuditLayoutPath in seen {
      LayoutIsCommitted(env, seen, documents, packs, physical, Written(physical));
      PackedByPacks(seen, packs);
      assert PacksIntact(documents, packs) by { LaidOutPacksAreIntact(env, documents, packs, physical); }
      PacksIntactExactly(seen, packs, documents);
      if OrderFree(env) && forall d <- documents :: IsCanonical(d) {
        StagingVerdict(env, documents, packs, physical, Written(physical));
      }
    } else {
      LooseIsCommitted(env, seen, documents, Written(physical));
      if OrderFree(env) { LooseVerdict(env, documents, Written(physical)); }
    }
  }

  lemma LaidOutPacksAreIntact(env: Environment, documents: seq<Document>, packs: seq<PreservedPack>, physical: seq<PhysicalFile>)
    requires LaidOut(env, documents, packs, physical, Written(physical))
    ensures PacksIntact(documents, packs)
  {
  }

  /** The packs of a root hold documents that reading it returns. */
  lemma HeldPacksAreIntact(env: Environment, files: Tree, packs: seq<PreservedPack>)
    requires Sorting.TotalOrder(env.pathLeq) && IsReadable(env, files) && IsPacksOf(files, packs)
    ensures PacksIntact(Held(env, files), packs)
  {
    hide Holds, Readable, PathsHeldOnce, IsPacksOf, FaithfulPacks;
    PacksReadAreFaithful(env, files, packs);
  }

  /** What the compaction of a root with these packs, and perhaps one more, stages. */
  ghost predicate AddsPack(env: Environment, documents: seq<Document>, existing: seq<PreservedPack>, versionId: Option<string>,
                           packs: seq<PreservedPack>) {
    match versionId
    case None => packs == existing
    case Some(id) =>
      var unpacked := Unpacked(documents, PackedPaths(existing));
      && |packs| == |existing| + 1 && packs[..|existing|] == existing
      && packs[|existing|].path == PackPath(env.stem(id))
      && (forall pack <- existing :: pack.path != PackPath(env.stem(id)))
      && PackedPaths(existing) <= PackedPaths(packs)
      && forall d <- unpacked ::
           d.path in PackedPaths(packs) <==> IsSelected(d, id, OperationIds(unpacked, id), PendingIds(unpacked, id))
  }

  lemma CompactionIsCommitted(env: Environment, documents: seq<Document>, seen: Tree, existing: seq<PreservedPack>,
                              versionId: Option<string>, packs: seq<PreservedPack>, physical: seq<PhysicalFile>)
    requires Sorting.TotalOrder(env.pathLeq) && IsPacksOf(seen, existing)
    requires AddsPack(env, documents, existing, versionId, packs)
    requires LaidOut(env, documents, packs, physical, Written(physical))
    ensures PassesStaging(env, Written(physical), |documents|) ==>
              Sound(env, Written(physical)) && CompactedFrom(env, documents, seen, versionId, Written(physical))
    ensures OrderFree(env) && env.valid(documents) && (forall d <- documents :: IsCanonical(d))
            && StemsDistinct(env, documents, PackedIn(seen))
            ==> PassesStaging(env, Written(physical), |documents|)
  {
    hide Readable, PathsHeldOnce, Holds, LaidOut, Written, OrderFree, StemsDistinct, PackedIn, PackedPaths, HoldsExactly,
         IsSelected, OperationIds, PendingIds;
    var files := Written(physical);
    LayoutHoldsPathsOnce(env, documents, packs, physical, files);
    LayoutKeepsItsPacks(env, documents, packs, physical, files);
    PackedByPacks(seen, existing);
    AddedPackFiles(seen, existing, packs, files, versionId, env);
    if |Held(env, files)| == |documents| {
      StagedHoldsExactly(env, documents, packs, physical, files, Held(env, files));
    }
    if OrderFree(env) && env.valid(documents) && (forall d <- documents :: IsCanonical(d))
       && StemsDistinct(env, documents, PackedIn(seen)) {
      FewerUnpackedStemsDistinct(env, documents, PackedIn(seen), PackedPaths(packs));
      StagingVerdict(env, documents, packs, physical, files);
    }
  }

  lemma AddedPackFiles(before: Tree, existing: seq<PreservedPack>, packs: seq<PreservedPack>, files: Tree,
                       versionId: Option<string>, env: Environment)
    requires IsPacksOf(before, existing)
    requires if versionId.None? then packs == existing
             else |packs| == |existing| + 1 && packs[..|existing|] == existing
                  && packs[|existing|].path == PackPath(env.stem(versionId.value))
                  && (forall pack <- existing :: pack.path != PackPath(env.stem(versionId.value)))
    requires forall pack <- packs :: pack.path in files && files[pack.path] == pack.file
    requires forall p <- files :: p.PackPath? ==> exists pack <- packs :: pack.path == p && pack.file == files[p]
    ensures KeepsPacks(before, files)
    ensures versionId.None? ==> PackFiles(files) == PackFiles(before)
    ensures versionId.Some? ==>
              && PackPath(env.stem(versionId.value)) !in PackFiles(before)
              && PackFiles(files).Keys == PackFiles(before).Keys + {PackPath(env.stem(versionId.value))}
  {
    forall pack <- existing ensures pack in packs {
      var i :| 0 <= i < |existing| && existing[i] == pack;
      assert packs[i] == pack;
    }
    forall p | p in PackFiles(before)
      ensures p in files && files[p] == before[p] && exists pack <- existing :: pack.path == p
    {
      assert PackFrom(p, before[p]) in existing;
    }
    forall p | p in PackFiles(files) ensures p in PackFiles(before) || (versionId.Some? && p == PackPath(env.stem(versionId.value))) {
      var pack :| pack in packs && pack.path == p && pack.file == files[p];
      var i :| 0 <= i < |packs| && packs[i] == pack;
      if i < |existing| { assert pack in existing; }
    }
    if versionId.Some? {
      assert packs[|existing|] in packs;
    }
  }

  lemma SamePackFiles(seen: Tree, packs: seq<PreservedPack>, files: Tree)
    requires IsPacksOf(seen, packs)
    requires forall pack <- packs :: pack.path in files && files[pack.path] == pack.file
    requires forall p <- files :: p.PackPath? ==> exists pack <- packs :: pack.path == p && pack.file == files[p]
    ensures PackFiles(files) == PackFiles(seen)
  {
    forall p | p in PackFiles(seen) ensures p in files && files[p] == seen[p] {
      assert PackFrom(p, seen[p]) in packs;
    }
  }

  class AuditRoot {
    const env: Environment
    const store: CanonicalStore

    constructor (env: Environment, store: CanonicalStore)
      requires FitsRules(env, store.rules) && store.Valid()
      requires Sound(env, Flatten(store.durable)) && Sound(env, Flatten(store.incoming))
      ensures Valid() && this.env == env && this.store == store
    {
      this.env, this.store := env, store;
    }

    ghost predicate Valid()
      reads this, store
    {
      && FitsRules(env, store.rules) && store.Valid()
      && Sound(env, Durable()) && Sound(env, Flatten(store.incoming))
    }

    /** The files under the root as they are, whether or not a replacement is unfinished. */
    function Seen(): Tree
      reads this, store
    {
      Flatten(store.root)
    }

    /** The files under the root once the next recovery completes. */
    ghost function Durable(): Tree
      reads this, store
    {
      Flatten(store.durable)
    }

    lemma RecoveredRootIsDurable()
      requires Valid() && store.replacement == None
      ensures Seen() == Durable()
    {
      hide VerdictOn, CutIsLawful;
      FlattenIgnoresForeignNames(store.root);
    }

    /** What is seen is part of the old tree or of the tree that was being swapped in. */
    lemma SeenIsPart()
      requires Valid()
      ensures IsPart(env, Seen(), Durable()) || IsPart(env, Seen(), Flatten(store.incoming))
    {
      hide VerdictOn, CutIsLawful, Recoverable, Flatten;
      var root := Only(store.root, store.rules.names);
      RootIsPartial(store.rules, store.Snapshot(), store.durable, store.incoming);
      FlattenIgnoresForeignNames(store.root);
      if Partial(store.rules, root, store.durable) {
        PartialMeansPart(env, store.rules, root, store.durable);
      } else {
        PartialMeansPart(env, store.rules, root, store.incoming);
      }
    }

    /** `readRouteLedgerJsonDocuments`: recovery first. */
    method Read() returns (r: Result<seq<Document>, AuditError>)
      requires Valid()
      modifies store`root, store`replacement
      ensures Valid()
      ensures r.Success? ==> r.value == Held(env, Durable()) && store.replacement == None && Seen() == Durable()
      ensures r.Failure? ==>
                || (r.error == AuditError.Interrupted && store.crashes)
                || (r.error == ContainerInvalid && Recovered(store.rules, old(store.Snapshot())) == None)
      ensures Recovered(store.rules, old(store.Snapshot())) == None ==> r == Failure(ContainerInvalid)
    {
      hide FitsRules, Recoverable, Flatten, Recovered, IsReadable;
      assert Sorting.TotalOrder(env.pathLeq) by { OrderIsTotal(env, store.rules); }
      var outcome := store.Recover();
      if outcome == Outcome.Interrupted { return Failure(AuditError.Interrupted); }
      if outcome == Refused { return Failure(ContainerInvalid); }
      RecoveredRootIsDurable();
      var read := ReadCanonicalDocuments(env, Seen());
      assert read.Success? by { SoundIsReadable(env, Durable()); }
      ReadIsHeld(env, Durable(), read.value);
      return read;
    }

    /** Stages the files, swaps them in, and compares only the number of documents. */
    method ReplaceFiles(count: nat, physical: seq<PhysicalFile>) returns (r: Result<(), AuditError>)
      requires Valid()
      requires PassesStaging(env, Written(physical), count) ==> Sound(env, Written(physical))
      modifies store`root, store`replacement, store`durable, store`incoming
      ensures Valid()
      ensures r.Success? ==> store.replacement == None && Durable() == Written(physical)
      ensures r.Success? ==> PassesStaging(env, Written(physical), count)
      ensures r.Failure? ==> r.error in {AuditError.Interrupted, ReplacementRefused}
      ensures r == Failure(AuditError.Interrupted) ==> store.crashes
      ensures store.durable != old(store.durable) ==>
                PassesStaging(env, Written(physical), count) && Durable() == Written(physical)
      ensures r == Failure(ReplacementRefused) ==>
                && store.durable == old(store.durable)
                && (Recovered(store.rules, old(store.Snapshot())) == None || !PassesStaging(env, Written(physical), count))
      ensures Recovered(store.rules, old(store.Snapshot())) == None ==> r == Failure(ReplacementRefused)
    {
      hide FitsRules, Recoverable, Flatten, Recovered, IsReadable, Sound, IsDocumentSet;
      assert Sorting.TotalOrder(env.pathLeq) by { OrderIsTotal(env, store.rules); }
      var staged: Tree := map[];
      for i := 0 to |physical|
        invariant staged == Written(physical[..i])
      {
        assert physical[..i + 1][..i] == physical[..i];
        staged := staged[physical[i].path := physical[i].file];
      }
      assert physical[..|physical|] == physical;
      var read := ReadCanonicalDocuments(env, staged);
      var complete := read.Success? && |read.value| == count;
      SplitIsCanonical(staged);
      StagingFits(env, store.rules, staged, read, count);
      var outcome := store.Apply(Split(staged), complete);
      match outcome
      case Completed => return Success(());
      case Interrupted => return Failure(AuditError.Interrupted);
      case Refused => return Failure(ReplacementRefused);
    }

    /**
      `replaceRouteLedgerJsonDocuments`: the marker and the packs are looked up in the root as it is, before the
      replacement recovers what an earlier one has left unfinished.
     */
    method Replace(documents: seq<Document>, compactAudit: bool) returns (r: Result<(), AuditError>)
      requires Valid()
      modifies store`root, store`replacement, store`durable, store`incoming
      ensures Valid()
      ensures r.Success? ==> store.replacement == None && Committed(env, old(Seen()), documents, compactAudit, Durable())
      ensures store.durable != old(store.durable) ==> Committed(env, old(Seen()), documents, compactAudit, Durable())
      ensures r.Failure? && r.error != AuditError.Interrupted ==> store.durable == old(store.durable)
      ensures r == Failure(AuditError.Interrupted) ==> store.crashes
      ensures r.Success? || store.durable != old(store.durable) ==>
                (KeepsPacks(old(Durable()), Durable()) <==> PacksInSight(old(Durable()), old(Seen()), compactAudit))
      ensures Recovered(store.rules, old(store.Snapshot())) == None ==>
                r.Failure? && r.error != AuditError.Interrupted
      ensures OrderFree(env) && (forall d <- documents :: IsCanonical(d)) ==>
                && (r.Success? ==> CanBeReplaced(env, old(Seen()), documents, compactAudit))
                && (r.Failure? && r.error != AuditError.Interrupted ==>
                      || !CanBeReplaced(env, old(Seen()), documents, compactAudit)
                      || Recovered(store.rules, old(store.Snapshot())) == None)
    {
      hide FitsRules, Recoverable, Flatten, Recovered, Holds, IsReadable, OperationIdOf, FaithfulPacks, IsLayout, Stored,
           PackedIn, PackedPaths, OrderFree, PacksIntact, KeepsPacked, StemsDistinct, Sound, PackFiles, PassesStaging,
           CanonicalStore.Valid;
      if !IsDocumentSet(documents) || !env.valid(documents) { return Failure(DocumentSetInvalid); }
      var seen := Seen();
      var physical := LooseFiles(documents);
      ghost var packs: seq<PreservedPack> := [];
      var usesCompactAuditLayout := compactAudit || AuditLayoutPath in seen;
      if usesCompactAuditLayout {
        var preserved := ReadAuditPacks(env, seen);
        if preserved.Failure? { return Failure(preserved.error); }
        PacksIntactExactly(seen, preserved.value, documents);
        assert Sorting.TotalOrder(env.pathLeq) by { OrderIsTotal(env, store.rules); }
        var built := BuildAuditPhysicalDocuments(env, documents, preserved.value);
        if built.Failure? { return Failure(built.error); }
        physical := built.value;
        packs := preserved.value;
        SeenPacksAreFaithful(packs);
      }
      StagedIsCommitted(env, store.rules, seen, documents, compactAudit, packs, physical);
      r := ReplaceFiles(|documents|, physical);
      if r.Success? || store.durable != old(store.durable) {
        PacksSurviveExactly(old(Durable()), seen, compactAudit, Durable());
      }
    }

    lemma PacksCanBeRead()
      requires Valid() && store.replacement == None
      ensures forall p <- Seen() :: p.PackPath? ==> DocumentsIn(env, p, Seen()[p]).Some?
    {
      RecoveredRootIsDurable();
      PacksAreReadable(env, Seen());
    }

    lemma SeenPacksAreFaithful(packs: seq<PreservedPack>)
      requires Valid() && IsPacksOf(Seen(), packs)
      requires forall p <- Seen() :: p.PackPath? ==> DocumentsIn(env, p, Seen()[p]).Some?
      ensures FaithfulPacks(env, packs)
    {
      hide CutIsLawful, Flatten, FaithfulPacks, VerdictOn, IsPacksOf, Recoverable, Readable, PathsHeldOnce;
      SeenIsPart();
      if IsPart(env, Seen(), Durable()) {
        PacksSeenAreFaithful(env, Seen(), Durable(), packs);
      } else {
        PacksSeenAreFaithful(env, Seen(), Flatten(store.incoming), packs);
      }
    }

    /** The documents that the existing packs leave over are searched for those of a closed version. */
    method AddClosedVersionPack(documents: seq<Document>, packs: seq<PreservedPack>, id: string, closedAt: Option<string>)
      returns (r: Result<seq<PreservedPack>, AuditError>)
      requires Sorting.TotalOrder(env.pathLeq)
      requires DistinctPaths(documents) && FaithfulPacks(env, packs) && PacksIntact(documents, packs)
      ensures r.Success? <==>
                && (forall pack <- packs :: pack.path != PackPath(env.stem(id))) && closedAt.Some?
                && forall d <- Unpacked(documents, PackedPaths(packs)) :: Parse(d.content).Some?
      ensures r.Success? ==>
                && FaithfulPacks(env, r.value) && PacksIntact(documents, r.value)
                && AddsPack(env, documents, packs, Some(id), r.value)
      ensures r.Failure? ==> r.error in {PackExists, VersionNotClosed, MalformedJson}
    {
      hide FaithfulPacks, PacksIntact, IsSelected, OperationIds, PendingIds, FaithfulPack, Selects, DistinctPaths;
      if exists pack <- packs :: pack.path == PackPath(env.stem(id)) { return Failure(PackExists); }
      if closedAt.None? { return Failure(VersionNotClosed); }
      var rest := Unpacked(documents, PackedPaths(packs));
      UnpackedIsDistinct(documents, PackedPaths(packs));
      var created := CreateClosedVersionAuditPack(env, rest, id, closedAt.value);
      if created.Failure? { return Failure(created.error); }
      AddPack(env, documents, packs, rest, id, created.value);
      r := Success(packs + [created.value]);
      assert forall pack <- packs :: pack in r.value;
    }

    /** The packs to be laid out: those of the root, which has just been read, and the pack of a closed version. */
    method GatherPacks(documents: seq<Document>, versionId: Option<string>, closedAt: Option<string>)
      returns (r: Result<seq<PreservedPack>, AuditError>, ghost existing: seq<PreservedPack>)
      requires Valid() && store.replacement == None && documents == Held(env, Durable()) && IsDocumentSet(documents)
      ensures IsPacksOf(Durable(), existing)
      ensures r.Success? ==>
                && FaithfulPacks(env, r.value) && PacksIntact(documents, r.value)
                && AddsPack(env, documents, existing, versionId, r.value)
                && (versionId.Some? ==> closedAt.Some?)
      ensures r.Failure? ==> r.error in {PackExists, VersionNotClosed, MalformedJson}
      ensures r.Failure? ==>
                || (exists d <- documents :: !IsCanonical(d))
                || (versionId.Some? && (closedAt.None? || PackPath(env.stem(versionId.value)) in Durable()))
    {
      hide FitsRules, Recoverable, Flatten, Held, FaithfulPacks, PacksIntact, AddsPack, IsPacksOf, Holds, CanonicalStore.Valid,
           Sound, DocumentsIn, IsReadable;
      assert Sorting.TotalOrder(env.pathLeq) by { OrderIsTotal(env, store.rules); }
      RecoveredRootIsDurable();
      PacksCanBeRead();
      var found := ReadAuditPacks(env, Seen());
      // The root has just been read, packs and all, so the packs can be read.
      assert found.Success?;
      existing := found.value;
      SeenPacksAreFaithful(existing);
      assert PacksIntact(documents, existing) by {
        SoundIsReadable(env, Durable());
        HeldPacksAreIntact(env, Durable(), existing);
      }
      if versionId.None? {
        AddsNothing(env, documents, existing);
        r := Success(found.value);
        return;
      }
      r := AddClosedVersionPack(documents, found.value, versionId.value, closedAt);
      if PackPath(env.stem(versionId.value)) !in Durable() {
        PackPathIsFree(env, Durable(), existing, versionId.value);
      }
    }

    /** `compactRouteLedgerAudit`: `closedAt` is when the decoded version was closed, if it was. */
    method CompactAudit(versionId: Option<string>, closedAt: Option<string>) returns (r: Result<(), AuditError>)
      requires Valid()
      modifies store`root, store`replacement, store`durable, store`incoming
      ensures Valid()
      ensures r.Success? ==> store.replacement == None && Compacted(env, old(Durable()), versionId, Durable())
      ensures store.durable != old(store.durable) ==>
                && Compacted(env, old(Durable()), versionId, Durable())
                && IsDocumentSet(Held(env, old(Durable()))) && env.valid(Held(env, old(Durable())))
      ensures r.Failure? && r.error != AuditError.Interrupted ==> store.durable == old(store.durable)
      ensures r == Failure(AuditError.Interrupted) ==> store.crashes
      ensures r.Success? && versionId.Some? ==> closedAt.Some?
      ensures r.Failure? && r.error != AuditError.Interrupted ==>
                || Recovered(store.rules, old(store.Snapshot())) == None
                || !MustCompact(env, Held(env, old(Durable())), old(Durable()), versionId, closedAt)
    {
      hide FitsRules, Recoverable, Flatten, Recovered, Holds, IsReadable, Held, FaithfulPacks, IsLayout, PacksIntact, AddsPack,
           IsPacksOf, PassesStaging, CanonicalStore.Valid, CompactedFrom, OrderFree, StemsDistinct, PackedIn, IsDocumentSet, Sound;
      assert Sorting.TotalOrder(env.pathLeq) by { OrderIsTotal(env, store.rules); }
      var read := Read();
      if read.Failure? { return Failure(read.error); }
      if !IsDocumentSet(read.value) || !env.valid(read.value) { return Failure(DocumentSetInvalid); }
      ghost var before := Durable();
      ghost var existing;
      var packs;
      packs, existing := GatherPacks(read.value, versionId, closedAt);
      if packs.Failure? { return Failure(packs.error); }
      assert DistinctPaths(read.value) by { DocumentSetIsDistinct(read.value); }
      var built := BuildAuditPhysicalDocuments(env, read.value, packs.value);
      // The packs are intact, so this call has no error to return.
      assert built.Success?;
      CompactionIsCommitted(env, read.value, before, existing, versionId, packs.value, built.value);
      NothingToRecover(store.rules, store.Snapshot());
      r := ReplaceFiles(|read.value|, built.value);
    }

    ghost function Now(): Glimpse
      reads this, store
    {
      Glimpse(Seen(), Durable())
    }

    /** Any sequence of calls, one after the other, each of which may fail, or die at any step and leave the rest to the next one. */
    method Run(commands: seq<Command>) returns (ghost log: seq<Glimpse>)
      requires Valid()
      modifies store`root, store`replacement, store`durable, store`incoming
      ensures Valid()
      ensures IsLog(env, log, commands) && log[0] == old(Now()) && log[|commands|] == Now()
    {
      hide Valid, Flatten, Committed, Compacted;
      log := [Now()];
      for i := 0 to |commands|
        invariant Valid() && IsLog(env, log, commands[..i]) && log[0] == old(Now()) && log[i] == Now()
      {
        assert commands[..i + 1][..i] == commands[..i] && commands[..i + 1][i] == commands[i];
        match commands[i] {
          case ReadDocuments =>
            var _ := Read();
          case ReplaceDocuments(documents, compactAudit) =>
            var _ := Replace(documents, compactAudit);
          case CompactDocuments(versionId, closedAt) =>
            var _ := CompactAudit(versionId, closedAt);
        }
        assert CommandStep(env, log[i], commands[i], Now());
        LogGrows(env, log, commands[..i + 1], Now());
        log := log + [Now()];
      }
      assert commands[..|commands|] == commands;
    }
  }

  // ---------- Runs ----------

  datatype Command =
    | ReadDocuments
    | ReplaceDocuments(documents: seq<Document>, compactAudit: bool)
    | CompactDocuments(versionId: Option<string>, closedAt: Option<string>)

  /** The root as it is and as the next recovery leaves it. */
  datatype Glimpse = Glimpse(seen: Tree, durable: Tree)

  ghost predicate CommandStep(env: Environment, a: Glimpse, command: Command, b: Glimpse) {
    || b.durable == a.durable
    || match command
       case ReadDocuments => false
       case ReplaceDocuments(documents, compactAudit) => Committed(env, a.seen, documents, compactAudit, b.durable)
       case CompactDocuments(versionId, _) => Compacted(env, a.durable, versionId, b.durable)
  }

  ghost predicate IsLog(env: Environment, log: seq<Glimpse>, commands: seq<Command>) {
    |log| == |commands| + 1 && forall i :: 0 <= i < |commands| ==> CommandStep(env, log[i], commands[i], log[i + 1])
  }

  lemma LogGrows(env: Environment, log: seq<Glimpse>, commands: seq<Command>, next: Glimpse)
    requires commands != [] && IsLog(env, log, commands[..|commands| - 1])
    requires CommandStep(env, log[|commands| - 1], commands[|commands| - 1], next)
    ensures IsLog(env, log + [next], commands)
  {
    hide CommandStep;
    var more := log + [next];
    forall i | 0 <= i < |commands| ensures CommandStep(env, more[i], commands[i], more[i + 1]) {
      if i < |commands| - 1 { assert commands[..|commands| - 1][i] == commands[i]; }
    }
  }

  /** The look-up of a replacement that commits finds the packs. */
  ghost predicate LooksBeforeItLoses(a: Glimpse, command: Command, b: Glimpse) {
    command.ReplaceDocuments? && b.durable != a.durable ==> PacksInSight(a.durable, a.seen, command.compactAudit)
  }

  /**
    In every run no step loses or changes a pack if and only if every replacement that commits had the marker and the
    packs in sight before it recovered what an earlier one had left unfinished.
   */
  lemma RunKeepsPacksExactly(env: Environment, log: seq<Glimpse>, commands: seq<Command>, i: nat, j: nat)
    requires IsLog(env, log, commands) && i <= j <= |commands|
    ensures (forall k :: i <= k < j ==> KeepsPacks(log[k].durable, log[k + 1].durable))
       <==> forall k :: i <= k < j ==> LooksBeforeItLoses(log[k], commands[k], log[k + 1])
    ensures (forall k :: i <= k < j ==> LooksBeforeItLoses(log[k], commands[k], log[k + 1])) ==>
              KeepsPacks(log[i].durable, log[j].durable)
  {
    hide CommandStep, KeepsPacks, LooksBeforeItLoses;
    forall k | i <= k < j
      ensures KeepsPacks(log[k].durable, log[k + 1].durable) <==> LooksBeforeItLoses(log[k], commands[k], log[k + 1])
    {
      StepKeepsPacksExactly(env, log[k], commands[k], log[k + 1]);
    }
    if forall k :: i <= k < j ==> KeepsPacks(log[k].durable, log[k + 1].durable) { StepsKeepPacks(log, i, j); }
  }

  lemma {:induction false} StepsKeepPacks(log: seq<Glimpse>, i: nat, j: nat)
    requires i <= j < |log| && forall k :: i <= k < j ==> KeepsPacks(log[k].durable, log[k + 1].durable)
    ensures KeepsPacks(log[i].durable, log[j].durable)
    decreases j
  {
    hide KeepsPacks;
    if i < j {
      StepsKeepPacks(log, i, j - 1);
      assert KeepsPacks(log[j - 1].durable, log[j - 1 + 1].durable);
      KeptTwiceIsKept(log[i].durable, log[j - 1].durable, log[j].durable);
    } else {
      KeepsItself(log[i].durable);
    }
  }

  lemma StepKeepsPacksExactly(env: Environment, a: Glimpse, command: Command, b: Glimpse)
    requires CommandStep(env, a, command, b)
    ensures KeepsPacks(a.durable, b.durable) <==> LooksBeforeItLoses(a, command, b)
  {
    hide HoldsExactly, Sound, KeepsPacked, PacksInSight;
    if b.durable == a.durable {
      KeepsItself(a.durable);
    } else if command.ReplaceDocuments? {
      PacksSurviveExactly(a.durable, a.seen, command.compactAudit, b.durable);
    }
  }

  lemma KeepsItself(files: Tree)
    ensures KeepsPacks(files, files)
  {
  }

  lemma KeptTwiceIsKept(a: Tree, b: Tree, c: Tree)
    requires KeepsPacks(a, b) && KeepsPacks(b, c)
    ensures KeepsPacks(a, c)
  {
    forall p | p in PackFiles(a) ensures p in c && c[p] == a[p] { assert p in PackFiles(b); }
  }

  lemma PackPathIsFree(env: Environment, files: Tree, packs: seq<PreservedPack>, id: string)
    requires IsPacksOf(files, packs) && PackPath(env.stem(id)) !in files
    ensures forall pack <- packs :: pack.path != PackPath(env.stem(id))
  {
  }

  lemma AddsNothing(env: Environment, documents: seq<Document>, existing: seq<PreservedPack>)
    ensures AddsPack(env, documents, existing, None, existing)
  {
  }

  lemma NothingToRecover(rules: Rules<Tree>, d: Disk<Tree>)
    requires d.replacement == None
    ensures Recovered(rules, d).Some?
  {
  }

  lemma DocumentSetIsDistinct(documents: seq<Document>)
    requires IsDocumentSet(documents)
    ensures DistinctPaths(documents)
  {
  }

  /** A valid, canonical root whose operations have envelope files of their own can always be compacted. */
  ghost predicate MustCompact(env: Environment, documents: seq<Document>, files: Tree, versionId: Option<string>,
                              closedAt: Option<string>) {
    && OrderFree(env) && IsDocumentSet(documents) && env.valid(documents) && (forall d <- documents :: IsCanonical(d))
    && StemsDistinct(env, documents, PackedIn(files))
    && (versionId.Some? ==> closedAt.Some? && PackPath(env.stem(versionId.value)) !in files)
  }
}
