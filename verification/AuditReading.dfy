/** Reading a JSON root back: loose documents, envelopes and packs, each path once, sorted. */
module AuditReading {
  import opened Wrappers
  import opened AuditLayout
  import opened AuditLayoutProofs
  import opened AuditStorage
  import Sorting

  // ---------- Packs ----------

  function PackFrom(p: Path, file: File): PreservedPack {
    PreservedPack(p, file, if file.PackFile? then Expand(file.documents) else [])
  }

  /** The packs of a root, each once. */
  ghost predicate IsPacksOf(files: map<Path, File>, packs: seq<PreservedPack>) {
    && (forall pack <- packs :: pack.path.PackPath? && pack.path in files && pack == PackFrom(pack.path, files[pack.path]))
    && (forall p <- files :: p.PackPath? ==> PackFrom(p, files[p]) in packs)
    && (forall i, j :: 0 <= i < j < |packs| ==> packs[i].path != packs[j].path)
  }

  method ReadAuditPacks(env: Environment, files: map<Path, File>) returns (r: Result<seq<PreservedPack>, AuditError>)
    ensures r.Success? <==> forall p <- files :: p.PackPath? ==> DocumentsIn(env, p, files[p]).Some?
    ensures r.Success? ==> IsPacksOf(files, r.value)
    ensures r.Failure? ==> r.error == ContainerInvalid
  {
    var packs: seq<PreservedPack> := [];
    var remaining := set p <- files | p.PackPath?;
    while remaining != {}
      invariant forall p <- remaining :: p in files && p.PackPath?
      invariant forall p <- files :: p.PackPath? && p !in remaining ==>
                  DocumentsIn(env, p, files[p]).Some? && PackFrom(p, files[p]) in packs
      invariant forall pack <- packs ::
                  && pack.path.PackPath? && pack.path in files && pack.path !in remaining
                  && pack == PackFrom(pack.path, files[pack.path])
      invariant forall i, j :: 0 <= i < j < |packs| ==> packs[i].path != packs[j].path
    {
      var p :| p in remaining;
      if DocumentsIn(env, p, files[p]).None? { return Failure(ContainerInvalid); }
      packs := packs + [PackFrom(p, files[p])];
      remaining := remaining - {p};
    }
    return Success(packs);
  }

  lemma PacksReadAreFaithful(env: Environment, files: map<Path, File>, packs: seq<PreservedPack>)
    requires Readable(env, files) && PathsHeldOnce(env, files) && IsPacksOf(files, packs)
    ensures FaithfulPacks(env, packs)
    ensures forall pack <- packs, d <- pack.documents :: Holds(env, files, d)
  {
    forall pack <- packs ensures FaithfulPack(env, pack) && pack.documents == Contribution(env, files, pack.path) {
      assert EmbedAll(pack.documents) == pack.file.documents;
      assert DistinctPaths(Contribution(env, files, pack.path));
    }
    forall i, j | 0 <= i < j < |packs|
      ensures packs[i].path != packs[j].path && forall d <- packs[i].documents, e <- packs[j].documents :: d.path != e.path
    {
      assert packs[i] in packs && packs[j] in packs;
    }
    forall pack <- packs, d <- pack.documents ensures Holds(env, files, d) {
      assert d in Contribution(env, files, pack.path);
    }
  }

  // ---------- Documents ----------

  ghost predicate HeldOnceAmong(env: Environment, files: map<Path, File>, some: set<Path>)
    requires some <= files.Keys
  {
    && (forall p <- some :: DistinctPaths(Contribution(env, files, p)))
    && (forall p <- some, q <- some :: p != q ==>
          forall d <- Contribution(env, files, p), e <- Contribution(env, files, q) :: d.path != e.path)
  }

  ghost predicate Collected(env: Environment, files: map<Path, File>, some: set<Path>, documents: seq<Document>)
    requires some <= files.Keys
  {
    && (forall x :: x in documents <==> exists p <- some :: x in Contribution(env, files, p))
    && (DistinctPaths(documents) <==> HeldOnceAmong(env, files, some))
  }

  lemma DistinctPathsJoin(a: seq<Document>, b: seq<Document>)
    ensures DistinctPaths(a + b)
       <==> DistinctPaths(a) && DistinctPaths(b) && forall d <- a, e <- b :: d.path != e.path
  {
    var ab := a + b;
    if DistinctPaths(ab) {
      forall i, j | 0 <= i < j < |a| ensures a[i].path != a[j].path { assert ab[i] == a[i] && ab[j] == a[j]; }
      forall i, j | 0 <= i < j < |b| ensures b[i].path != b[j].path { assert ab[|a| + i] == b[i] && ab[|a| + j] == b[j]; }
      forall d <- a, e <- b ensures d.path != e.path {
        var i :| 0 <= i < |a| && a[i] == d;
        var j :| 0 <= j < |b| && b[j] == e;
        assert ab[i] == d && ab[|a| + j] == e;
      }
    } else {
      var i, j :| 0 <= i < j < |ab| && ab[i].path == ab[j].path;
      assert i < |a| <= j ==> a[i] in a && b[j - |a|] in b;
    }
  }

  lemma CollectOneMore(env: Environment, files: map<Path, File>, some: set<Path>, documents: seq<Document>, p: Path)
    requires some <= files.Keys && p in files && p !in some && Collected(env, files, some, documents)
    ensures Collected(env, files, some + {p}, documents + Contribution(env, files, p))
  {
    hide DocumentsIn, DistinctPaths, Contribution;
    var more := Contribution(env, files, p);
    DistinctPathsJoin(documents, more);
    forall x ensures x in documents + more <==> exists q <- some + {p} :: x in Contribution(env, files, q) {
    }
    MeetExactly(env, files, some, documents, p);
  }

  lemma MeetExactly(env: Environment, files: map<Path, File>, some: set<Path>, documents: seq<Document>, p: Path)
    requires some <= files.Keys && p in files && p !in some
    requires forall x :: x in documents <==> exists q <- some :: x in Contribution(env, files, q)
    ensures HeldOnceAmong(env, files, some + {p})
       <==> && HeldOnceAmong(env, files, some) && DistinctPaths(Contribution(env, files, p))
            && forall d <- documents, e <- Contribution(env, files, p) :: d.path != e.path
  {
    hide DocumentsIn, DistinctPaths, Contribution;
    if HeldOnceAmong(env, files, some + {p}) {
      assert p in some + {p};
      forall d <- documents, e <- Contribution(env, files, p) ensures d.path != e.path {
        var q :| q in some && d in Contribution(env, files, q);
        assert q in some + {p} && q != p;
      }
    }
  }

  /** `readCanonicalDocumentsFromJsonRoot`: fails exactly on an invalid container or a path held twice. */
  method ReadCanonicalDocuments(env: Environment, files: map<Path, File>) returns (r: Result<seq<Document>, AuditError>)
    requires Sorting.TotalOrder(env.pathLeq)
    ensures r.Success? <==> Readable(env, files) && PathsHeldOnce(env, files)
    ensures r.Success? ==> IsReadOf(env, files, r.value)
    ensures r.Success? ==> Sorting.SortedBy((d: Document) => d.path, env.pathLeq, r.value)
  {
    hide DocumentsIn, DistinctPaths, HeldOnceAmong, Sorting.Sort;
    var documents: seq<Document> := [];
    var remaining := files.Keys;
    NothingCollected(env, files);
    while remaining != {}
      invariant remaining <= files.Keys
      invariant Collected(env, files, files.Keys - remaining, documents)
      invariant forall p <- files :: p !in remaining ==> DocumentsIn(env, p, files[p]).Some?
    {
      var p :| p in remaining;
      if DocumentsIn(env, p, files[p]).None? { return Failure(ContainerInvalid); }
      CollectOneMore(env, files, files.Keys - remaining, documents, p);
      assert files.Keys - remaining + {p} == files.Keys - (remaining - {p});
      documents := documents + Contribution(env, files, p);
      remaining := remaining - {p};
    }
    assert files.Keys - remaining == files.Keys;
    HeldOnceEverywhere(env, files);
    var seen: set<Path> := {};
    for i := 0 to |documents|
      invariant forall p :: p in seen <==> exists j :: 0 <= j < i && documents[j].path == p
      invariant forall j, k :: 0 <= j < k < i ==> documents[j].path != documents[k].path
    {
      if documents[i].path in seen {
        TwicePath(documents, i);
        return Failure(DuplicatePath);
      }
      seen := seen + {documents[i].path};
    }
    IsDistinct(documents);
    var sorted := Sorting.Sort((d: Document) => d.path, env.pathLeq, documents);
    Sorting.SortSorts((d: Document) => d.path, env.pathLeq, documents);
    SortedRead(env, files, documents, sorted);
    return Success(sorted);
  }

  lemma NothingCollected(env: Environment, files: map<Path, File>)
    ensures Collected(env, files, files.Keys - files.Keys, [])
  {
  }

  lemma HeldOnceEverywhere(env: Environment, files: map<Path, File>)
    ensures HeldOnceAmong(env, files, files.Keys) <==> PathsHeldOnce(env, files)
  {
    hide Contribution, DistinctPaths;
  }

  lemma TwicePath(documents: seq<Document>, i: nat)
    requires i < |documents| && exists j :: 0 <= j < i && documents[j].path == documents[i].path
    ensures !DistinctPaths(documents)
  {
  }

  lemma IsDistinct(documents: seq<Document>)
    requires forall j, k :: 0 <= j < k < |documents| ==> documents[j].path != documents[k].path
    ensures DistinctPaths(documents)
  {
  }

  lemma SortedRead(env: Environment, files: map<Path, File>, documents: seq<Document>, sorted: seq<Document>)
    requires Collected(env, files, files.Keys, documents) && DistinctPaths(documents)
    requires multiset(sorted) == multiset(documents)
    ensures IsReadOf(env, files, sorted)
  {
    hide Contribution;
    Sorting.SameMembers(sorted, documents);
    Sorting.PermutationKeepsDistinct((d: Document) => d.path, documents, sorted);
  }
}
