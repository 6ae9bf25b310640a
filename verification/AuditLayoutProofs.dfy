/**
  Expanding a compact layout gives back the documents it was built from, exactly when every enveloped or packed document
  is canonical text and no two operations share a file name.
 */
module AuditLayoutProofs {
  import opened Wrappers
  import opened JsonValues
  import opened AuditLayout
  import Sorting

  // ---------- The packs a layout may preserve ----------

  /** A pack file is a valid container of exactly the documents of its audit pack. */
  ghost predicate FaithfulPack(env: Environment, pack: PreservedPack) {
    && pack.path.PackPath? && pack.file.PackFile?
    && pack.file.digest == env.packDigest(pack.file.versionId, pack.file.closedAt, pack.file.documents)
    && multiset(pack.file.documents) == multiset(EmbedAll(pack.documents))
    && DistinctPaths(pack.documents)
  }

  ghost predicate DisjointPacks(packs: seq<PreservedPack>) {
    forall i, j :: 0 <= i < j < |packs| ==>
      packs[i].path != packs[j].path
      && forall d <- packs[i].documents, e <- packs[j].documents :: d.path != e.path
  }

  ghost predicate FaithfulPacks(env: Environment, packs: seq<PreservedPack>) {
    (forall pack <- packs :: FaithfulPack(env, pack)) && DisjointPacks(packs)
  }

  predicate IsDocumentSet(documents: seq<Document>) {
    DistinctPaths(documents) && forall d <- documents :: IsCanonicalPath(d.path)
  }

  /** `files` is a compact layout of `documents` that preserves `packs`. */
  ghost predicate LaidOut(env: Environment, documents: seq<Document>, packs: seq<PreservedPack>, physical: seq<PhysicalFile>,
                          files: map<Path, File>) {
    && IsDocumentSet(documents)
    && FaithfulPacks(env, packs) && PacksIntact(documents, packs)
    && IsLayout(env, documents, packs, physical)
    && files == Written(physical)
  }

  // ---------- What each document becomes ----------

  predicate InContainer(packed: set<Path>, d: Document) {
    d.path in packed || OperationIdOf(d).Some?
  }

  /** Containers keep the value, not the text. */
  function Stored(packed: set<Path>, d: Document): Document {
    if InContainer(packed, d) then Document(d.path, CanonicalText(Parse(d.content).GetOr(Null))) else d
  }

  predicate IsCanonical(d: Document) {
    d.content.Printed? && d.content.style == CanonicalStyle
  }

  ghost predicate Survives(env: Environment, files: map<Path, File>, packed: set<Path>, d: Document) {
    d.path !in packed && OperationIdOf(d).Some? ==>
      var p := OperationPath(env.stem(OperationIdOf(d).value));
      p in files && files[p].EnvelopeFile? && files[p].operationId == OperationIdOf(d).value
  }

  ghost predicate StemsDistinct(env: Environment, documents: seq<Document>, packed: set<Path>) {
    forall d <- documents, e <- documents ::
      d.path !in packed && e.path !in packed && OperationIdOf(d).Some? && OperationIdOf(e).Some?
      && env.stem(OperationIdOf(d).value) == env.stem(OperationIdOf(e).value)
      ==> OperationIdOf(d) == OperationIdOf(e)
  }

  lemma SamePathSameDocument(documents: seq<Document>, d: Document, e: Document)
    requires DistinctPaths(documents) && d in documents && e in documents && d.path == e.path
    ensures d == e
  {
  }

  // ---------- File by file ----------

  lemma FileKinds(env: Environment, documents: seq<Document>, packs: seq<PreservedPack>, physical: seq<PhysicalFile>,
                  files: map<Path, File>, p: Path)
    requires LaidOut(env, documents, packs, physical, files) && p in files
    ensures IsCanonicalPath(p) ==> IsLoose(documents, PackedPaths(packs), PhysicalFile(p, files[p]))
    ensures p.OperationPath? ==> IsEnvelope(env, documents, PackedPaths(packs), PhysicalFile(p, files[p]))
    ensures p.PackPath? ==> IsPack(packs, PhysicalFile(p, files[p]))
  {
    hide GroupOf, Embeds, Written, PackedPaths, OperationIdOf, DistinctPaths, DisjointPacks;
    var f := PhysicalFile(p, files[p]);
    assert f in physical;
    if IsPack(packs, f) {
      var pack :| pack in packs && f == PhysicalFile(pack.path, pack.file);
      assert FaithfulPack(env, pack);
    }
    if IsLoose(documents, PackedPaths(packs), f) {
      var d :| d in documents && f == PhysicalFile(d.path, DocumentFile(d.content));
      assert IsCanonicalPath(d.path);
    }
  }

  /** A container expands to the stored forms of the documents it was built from. */
  lemma ExpandsToStored(packed: set<Path>, group: seq<Document>, embedded: seq<Embedded>, x: Document)
    requires multiset(embedded) == multiset(EmbedAll(group))
    requires forall d <- group :: InContainer(packed, d)
    ensures x in Expand(embedded) <==> exists d <- group :: x == Stored(packed, d)
  {
    hide OperationIdOf, InContainer;
    Sorting.SameMembers(embedded, EmbedAll(group));
    var expanded := Expand(embedded);
    if x in expanded {
      var i :| 0 <= i < |expanded| && expanded[i] == x;
      assert embedded[i] in EmbedAll(group);
      var j :| 0 <= j < |group| && embedded[i] == Embed(group[j]);
      assert group[j] in group && x == Stored(packed, group[j]);
    }
    if d :| d in group && x == Stored(packed, d) {
      var j :| 0 <= j < |group| && group[j] == d;
      assert EmbedAll(group)[j] in embedded;
      var i :| 0 <= i < |embedded| && embedded[i] == Embed(d);
      assert expanded[i] == x;
    }
  }

  lemma ExpandsToDistinctPaths(group: seq<Document>, embedded: seq<Embedded>)
    requires multiset(embedded) == multiset(EmbedAll(group)) && DistinctPaths(group)
    ensures DistinctPaths(Expand(embedded))
  {
    Sorting.PermutationKeepsDistinct((e: Embedded) => e.path, EmbedAll(group), embedded);
  }

  lemma {:induction false} GroupHasDistinctPaths(documents: seq<Document>, packed: set<Path>, id: string)
    requires DistinctPaths(documents)
    ensures DistinctPaths(GroupOf(documents, packed, id))
    decreases |documents|
  {
    hide OperationIdOf;
    if documents != [] {
      var rest := documents[..|documents| - 1];
      GroupHasDistinctPaths(rest, packed, id);
      forall i | 0 <= i < |GroupOf(rest, packed, id)|
        ensures GroupOf(rest, packed, id)[i].path != documents[|documents| - 1].path
      {
        assert GroupOf(rest, packed, id)[i] in rest;
      }
    }
  }

  /** The place where a layout holds a document. */
  ghost predicate HeldAt(env: Environment, packs: seq<PreservedPack>, files: map<Path, File>, d: Document, p: Path) {
    if d.path in PackedPaths(packs) then exists pack <- packs :: d in pack.documents && p == pack.path
    else if OperationIdOf(d).Some? then
      && p == OperationPath(env.stem(OperationIdOf(d).value))
      && p in files && files[p].EnvelopeFile? && files[p].operationId == OperationIdOf(d).value
    else p == d.path
  }

  /** One file's share: valid, free of repeats, and made of stored documents of the set. */
  lemma FileShare(env: Environment, documents: seq<Document>, packs: seq<PreservedPack>, physical: seq<PhysicalFile>,
                  files: map<Path, File>, p: Path)
    requires LaidOut(env, documents, packs, physical, files) && p in files
    ensures DocumentsIn(env, p, files[p]).Some? && DistinctPaths(Contribution(env, files, p))
    ensures forall x <- Contribution(env, files, p) ::
              exists d <- documents :: x == Stored(PackedPaths(packs), d) && HeldAt(env, packs, files, d, p)
  {
    hide OperationIdOf, GroupOf, PackedPaths, Written, IsLayout;
    FileKinds(env, documents, packs, physical, files, p);
    var packed := PackedPaths(packs);
    if p.OperationPath? {
      var id := files[p].operationId;
      var group := GroupOf(documents, packed, id);
      GroupHasDistinctPaths(documents, packed, id);
      ExpandsToDistinctPaths(group, files[p].documents);
      forall x <- Contribution(env, files, p)
        ensures exists d <- documents :: x == Stored(packed, d) && HeldAt(env, packs, files, d, p)
      {
        ExpandsToStored(packed, group, files[p].documents, x);
      }
    } else if p.PackPath? {
      var pack :| pack in packs && PhysicalFile(p, files[p]) == PhysicalFile(pack.path, pack.file);
      assert FaithfulPack(env, pack);
      ExpandsToDistinctPaths(pack.documents, files[p].documents);
      forall x <- Contribution(env, files, p)
        ensures exists d <- documents :: x == Stored(packed, d) && HeldAt(env, packs, files, d, p)
      {
        ExpandsToStored(packed, pack.documents, files[p].documents, x);
      }
    }
  }

  // ---------- The whole layout ----------

  lemma HomesAreUnique(env: Environment, documents: seq<Document>, packs: seq<PreservedPack>, files: map<Path, File>,
                       d: Document, p: Path, q: Path)
    requires DisjointPacks(packs)
    requires HeldAt(env, packs, files, d, p) && HeldAt(env, packs, files, d, q)
    ensures p == q
  {
    hide OperationIdOf, PackedPaths;
    if d.path in PackedPaths(packs) {
      var i :| 0 <= i < |packs| && d in packs[i].documents && p == packs[i].path;
      var j :| 0 <= j < |packs| && d in packs[j].documents && q == packs[j].path;
    }
  }

  lemma SharesDoNotMeet(env: Environment, documents: seq<Document>, packs: seq<PreservedPack>, physical: seq<PhysicalFile>,
                        files: map<Path, File>, p: Path, q: Path, x: Document, y: Document)
    requires LaidOut(env, documents, packs, physical, files)
    requires p in files && q in files && p != q
    requires x in Contribution(env, files, p) && y in Contribution(env, files, q)
    ensures x.path != y.path
  {
    hide HeldAt, Stored, DocumentsIn, IsLayout, FaithfulPack, PacksIntact, Written;
    FileShare(env, documents, packs, physical, files, p);
    FileShare(env, documents, packs, physical, files, q);
    var d :| d in documents && x == Stored(PackedPaths(packs), d) && HeldAt(env, packs, files, d, p);
    var e :| e in documents && y == Stored(PackedPaths(packs), e) && HeldAt(env, packs, files, e, q);
    StoredKeepsPath(PackedPaths(packs), d);
    StoredKeepsPath(PackedPaths(packs), e);
    if x.path == y.path {
      SamePathSameDocument(documents, d, e);
      HomesAreUnique(env, documents, packs, files, d, p, q);
    }
  }

  /** No layout holds a path twice, so the duplicate check of the reader never rejects one. */
  lemma LayoutHoldsPathsOnce(env: Environment, documents: seq<Document>, packs: seq<PreservedPack>,
                             physical: seq<PhysicalFile>, files: map<Path, File>)
    requires LaidOut(env, documents, packs, physical, files)
    ensures Readable(env, files) && PathsHeldOnce(env, files)
  {
    hide HeldAt, Stored, DocumentsIn, LaidOut, Contribution, DistinctPaths;
    forall p <- files ensures DocumentsIn(env, p, files[p]).Some? && DistinctPaths(Contribution(env, files, p)) {
      FileShare(env, documents, packs, physical, files, p);
    }
    forall p <- files, q <- files, x <- Contribution(env, files, p), y <- Contribution(env, files, q) | p != q
      ensures x.path != y.path
    {
      SharesDoNotMeet(env, documents, packs, physical, files, p, q, x, y);
    }
  }

  lemma StoredKeepsPath(packed: set<Path>, d: Document)
    ensures Stored(packed, d).path == d.path
  {
  }

  lemma PackIsHeld(env: Environment, documents: seq<Document>, packs: seq<PreservedPack>, physical: seq<PhysicalFile>,
                   files: map<Path, File>, pack: PreservedPack)
    requires LaidOut(env, documents, packs, physical, files) && pack in packs
    ensures pack.path in files && files[pack.path] == pack.file
  {
    hide OperationIdOf, GroupOf, PackedPaths;
    assert PhysicalFile(pack.path, pack.file) in physical;
    assert FaithfulPack(env, pack);
    FileKinds(env, documents, packs, physical, files, pack.path);
  }

  lemma PackedIsHeld(env: Environment, documents: seq<Document>, packs: seq<PreservedPack>, physical: seq<PhysicalFile>,
                     files: map<Path, File>, d: Document)
    requires LaidOut(env, documents, packs, physical, files)
    requires d in documents && d.path in PackedPaths(packs)
    ensures Holds(env, files, Stored(PackedPaths(packs), d))
  {
    hide OperationIdOf, GroupOf, IsLayout, Written;
    var pack :| pack in packs && exists e <- pack.documents :: e.path == d.path;
    var e :| e in pack.documents && e.path == d.path;
    SamePathSameDocument(documents, d, e);
    PackIsHeld(env, documents, packs, physical, files, pack);
    assert FaithfulPack(env, pack);
    PackHoldsItsDocument(env, PackedPaths(packs), pack, d);
    assert Stored(PackedPaths(packs), d) in Contribution(env, files, pack.path);
  }

  lemma PackHoldsItsDocument(env: Environment, packed: set<Path>, pack: PreservedPack, d: Document)
    requires FaithfulPack(env, pack) && d in pack.documents
    requires forall e <- pack.documents :: e.path in packed
    ensures Stored(packed, d) in DocumentsIn(env, pack.path, pack.file).GetOr([])
  {
    hide OperationIdOf;
    ExpandsToStored(packed, pack.documents, pack.file.documents, Stored(packed, d));
  }

  lemma EnvelopedIsHeld(env: Environment, documents: seq<Document>, packs: seq<PreservedPack>, physical: seq<PhysicalFile>,
                        files: map<Path, File>, d: Document)
    requires LaidOut(env, documents, packs, physical, files)
    requires d in documents && Survives(env, files, PackedPaths(packs), d)
    requires d.path !in PackedPaths(packs) && OperationIdOf(d).Some?
    ensures Holds(env, files, Stored(PackedPaths(packs), d))
  {
    hide OperationIdOf, GroupOf, IsLayout, Written, FaithfulPacks;
    var packed := PackedPaths(packs);
    var p := OperationPath(env.stem(OperationIdOf(d).value));
    FileKinds(env, documents, packs, physical, files, p);
    var group := GroupOf(documents, packed, OperationIdOf(d).value);
    ExpandsToStored(packed, group, files[p].documents, Stored(packed, d));
    assert d in group;
    assert Stored(packed, d) in Contribution(env, files, p);
  }

  lemma LooseIsHeld(env: Environment, documents: seq<Document>, packs: seq<PreservedPack>, physical: seq<PhysicalFile>,
                    files: map<Path, File>, d: Document)
    requires LaidOut(env, documents, packs, physical, files)
    requires d in documents && d.path !in PackedPaths(packs) && OperationIdOf(d).None?
    ensures Holds(env, files, d)
  {
    hide OperationIdOf, GroupOf, FaithfulPacks, PackedPaths;
    assert PhysicalFile(d.path, DocumentFile(d.content)) in physical;
    FileKinds(env, documents, packs, physical, files, d.path);
    assert d in Contribution(env, files, d.path);
  }

  lemma SurvivorIsHeld(env: Environment, documents: seq<Document>, packs: seq<PreservedPack>, physical: seq<PhysicalFile>,
                       files: map<Path, File>, d: Document)
    requires LaidOut(env, documents, packs, physical, files)
    requires d in documents && Survives(env, files, PackedPaths(packs), d)
    ensures Holds(env, files, Stored(PackedPaths(packs), d))
  {
    hide OperationIdOf, LaidOut, PackedPaths, Holds, Survives;
    if d.path in PackedPaths(packs) {
      PackedIsHeld(env, documents, packs, physical, files, d);
    } else if OperationIdOf(d).Some? {
      EnvelopedIsHeld(env, documents, packs, physical, files, d);
    } else {
      LooseIsHeld(env, documents, packs, physical, files, d);
    }
  }

  /** Reading a layout gives back, in stored form, exactly the documents whose envelope was not overwritten. */
  lemma LayoutHoldsExactly(env: Environment, documents: seq<Document>, packs: seq<PreservedPack>,
                           physical: seq<PhysicalFile>, files: map<Path, File>, x: Document)
    requires LaidOut(env, documents, packs, physical, files)
    ensures Holds(env, files, x)
       <==> exists d <- documents :: Survives(env, files, PackedPaths(packs), d) && x == Stored(PackedPaths(packs), d)
  {
    hide OperationIdOf, GroupOf, Stored, IsLayout, DocumentsIn, FaithfulPacks;
    if Holds(env, files, x) {
      var p :| p in files && x in Contribution(env, files, p);
      FileShare(env, documents, packs, physical, files, p);
    }
    forall d <- documents | Survives(env, files, PackedPaths(packs), d)
      ensures Holds(env, files, Stored(PackedPaths(packs), d))
    {
      SurvivorIsHeld(env, documents, packs, physical, files, d);
    }
  }

  lemma AllSurviveExactly(env: Environment, documents: seq<Document>, packs: seq<PreservedPack>,
                          physical: seq<PhysicalFile>, files: map<Path, File>)
    requires LaidOut(env, documents, packs, physical, files)
    ensures (forall d <- documents :: Survives(env, files, PackedPaths(packs), d))
       <==> StemsDistinct(env, documents, PackedPaths(packs))
  {
    hide OperationIdOf, DocumentsIn, FaithfulPacks;
    var packed := PackedPaths(packs);
    if StemsDistinct(env, documents, packed) {
      forall d <- documents ensures Survives(env, files, packed, d) {
        if d.path !in packed && OperationIdOf(d).Some? {
          var id := OperationIdOf(d).value;
          assert d in GroupOf(documents, packed, id);
          var p := OperationPath(env.stem(id));
          assert p in files;
          FileKinds(env, documents, packs, physical, files, p);
          var e := GroupOf(documents, packed, files[p].operationId)[0];
          assert e in GroupOf(documents, packed, files[p].operationId);
        }
      }
    }
  }

  // ---------- What the reader returns ----------

  /** The result of a successful read: every held document once. */
  ghost predicate IsReadOf(env: Environment, files: map<Path, File>, held: seq<Document>) {
    DistinctPaths(held) && forall x :: x in held <==> Holds(env, files, x)
  }

  lemma {:induction false} PathsCount(documents: seq<Document>)
    requires DistinctPaths(documents)
    ensures |PathsOf(documents)| == |documents|
    decreases |documents|
  {
    if documents == [] {
      assert PathsOf(documents) == {};
    } else {
      var rest, last := documents[..|documents| - 1], documents[|documents| - 1];
      PathsCount(rest);
      assert forall d :: d in documents <==> d in rest || d == last;
      assert PathsOf(documents) == PathsOf(rest) + {last.path};
    }
  }

  lemma SmallerSet<T>(a: set<T>, b: set<T>)
    requires a <= b
    ensures |a| <= |b| && (|a| == |b| <==> a == b)
  {
    assert b == a + (b - a);
  }

  /**
    The staging check compares only the number of documents.  It catches exactly the replacements in which two
    operations share an envelope file.
   */
  lemma CountCheckIsExact(env: Environment, documents: seq<Document>, packs: seq<PreservedPack>,
                          physical: seq<PhysicalFile>, files: map<Path, File>, held: seq<Document>)
    requires LaidOut(env, documents, packs, physical, files) && IsReadOf(env, files, held)
    ensures |held| == |documents| <==> StemsDistinct(env, documents, PackedPaths(packs))
  {
    hide OperationIdOf, Survives, Stored, StemsDistinct;
    var packed := PackedPaths(packs);
    PathsCount(held);
    PathsCount(documents);
    forall x <- held ensures x.path in PathsOf(documents) {
      LayoutHoldsExactly(env, documents, packs, physical, files, x);
      var d :| d in documents && x == Stored(packed, d);
      StoredKeepsPath(packed, d);
    }
    SmallerSet(PathsOf(held), PathsOf(documents));
    AllSurviveExactly(env, documents, packs, physical, files);
    forall d <- documents ensures d.path in PathsOf(held) <==> Survives(env, files, packed, d) {
      StoredKeepsPath(packed, d);
      if Survives(env, files, packed, d) {
        LayoutHoldsExactly(env, documents, packs, physical, files, Stored(packed, d));
      }
      if x :| x in held && x.path == d.path {
        LayoutHoldsExactly(env, documents, packs, physical, files, x);
        var e :| e in documents && Survives(env, files, packed, e) && x == Stored(packed, e);
        StoredKeepsPath(packed, e);
        SamePathSameDocument(documents, d, e);
      }
    }
  }

  /**
    A replacement that passed the staging check reads back as exactly the documents it was given if and only if every
    enveloped or packed document was canonical text.
   */
  lemma RoundTripIsExact(env: Environment, documents: seq<Document>, packs: seq<PreservedPack>,
                         physical: seq<PhysicalFile>, files: map<Path, File>, held: seq<Document>)
    requires LaidOut(env, documents, packs, physical, files) && IsReadOf(env, files, held)
    requires |held| == |documents|
    ensures (forall x :: x in held <==> x in documents)
       <==> forall d <- documents :: InContainer(PackedPaths(packs), d) ==> IsCanonical(d)
  {
    hide OperationIdOf, Survives, StemsDistinct, InContainer;
    var packed := PackedPaths(packs);
    CountCheckIsExact(env, documents, packs, physical, files, held);
    AllSurviveExactly(env, documents, packs, physical, files);
    forall x ensures x in held <==> exists d <- documents :: x == Stored(packed, d) {
      LayoutHoldsExactly(env, documents, packs, physical, files, x);
    }
    forall d <- documents ensures Stored(packed, d) == d <==> (InContainer(packed, d) ==> IsCanonical(d)) {
    }
    if forall x :: x in held <==> x in documents {
      forall d <- documents ensures Stored(packed, d) == d {
        assert Stored(packed, d) in documents;
        SamePathSameDocument(documents, d, Stored(packed, d));
      }
    }
  }
}
