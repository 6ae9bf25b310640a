/** Building, reading, replacing and compacting the audit layout of one recovered JSON root. */
module AuditStorage {
  import opened Wrappers
  import opened AuditLayout
  import Sorting

  datatype AuditError =
    | PackedDocumentIsImmutable(path: Path)
    | ContainerInvalid
    | DuplicatePath
    | DocumentSetInvalid
    | PackExists
    | VersionNotClosed
    | MalformedJson
    | ReplacementRefused
    | Interrupted

  // ---------- Building ----------

  function ByPath(documents: seq<Document>): map<Path, Document> {
    if documents == [] then map[]
    else
      var last := documents[|documents| - 1];
      ByPath(documents[..|documents| - 1])[last.path := last]
  }

  lemma {:induction false} ByPathFinds(documents: seq<Document>)
    requires DistinctPaths(documents)
    ensures forall d <- documents :: d.path in ByPath(documents) && ByPath(documents)[d.path] == d
    ensures forall p <- ByPath(documents) :: ByPath(documents)[p] in documents && ByPath(documents)[p].path == p
    decreases |documents|
  {
    if documents != [] {
      var rest := documents[..|documents| - 1];
      ByPathFinds(rest);
      assert forall d <- documents :: d in rest || d == documents[|documents| - 1];
    }
  }

  /** Every packed document must still be there, unchanged. */
  method CheckPackedDocuments(documents: seq<Document>, packs: seq<PreservedPack>) returns (changed: Option<Path>)
    requires DistinctPaths(documents)
    ensures changed.None? <==> PacksIntact(documents, packs)
  {
    ByPathFinds(documents);
    var byPath := ByPath(documents);
    for i := 0 to |packs|
      invariant forall k :: 0 <= k < i ==> forall d <- packs[k].documents :: d in documents
    {
      for j := 0 to |packs[i].documents|
        invariant forall k :: 0 <= k < j ==> packs[i].documents[k] in documents
      {
        var d := packs[i].documents[j];
        if d.path !in byPath || byPath[d.path].content != d.content {
          assert d in packs[i].documents && packs[i] in packs;
          return Some(d.path);
        }
      }
    }
    return None;
  }

  ghost predicate IsGrouped(documents: seq<Document>, packed: set<Path>, grouped: map<string, seq<Document>>) {
    forall id :: GroupOf(documents, packed, id) == if id in grouped then grouped[id] else []
  }

  ghost predicate AreLoose(documents: seq<Document>, packed: set<Path>, loose: seq<PhysicalFile>) {
    && (forall f <- loose :: IsLoose(documents, packed, f))
    && (forall d <- documents :: d.path !in packed && OperationIdOf(d).None? ==>
          PhysicalFile(d.path, DocumentFile(d.content)) in loose)
  }

  lemma SortOneMore(documents: seq<Document>, packed: set<Path>, i: nat, grouped: map<string, seq<Document>>,
                    loose: seq<PhysicalFile>)
    requires i < |documents| && IsGrouped(documents[..i], packed, grouped) && AreLoose(documents[..i], packed, loose)
    ensures var d := documents[i];
            if d.path in packed then
              IsGrouped(documents[..i + 1], packed, grouped) && AreLoose(documents[..i + 1], packed, loose)
            else if OperationIdOf(d).None? then
              && IsGrouped(documents[..i + 1], packed, grouped)
              && AreLoose(documents[..i + 1], packed, loose + [PhysicalFile(d.path, DocumentFile(d.content))])
            else
              var id := OperationIdOf(d).value;
              && IsGrouped(documents[..i + 1], packed, grouped[id := (if id in grouped then grouped[id] else []) + [d]])
              && AreLoose(documents[..i + 1], packed, loose)
  {
    hide OperationIdOf;
    var longer := documents[..i + 1];
    assert longer[..i] == documents[..i] && longer[i] == documents[i];
    assert forall d :: d in longer <==> d in documents[..i] || d == documents[i];
  }

  /** The documents left outside the packs: loose ones, and groups by operation. */
  method GroupByOperation(documents: seq<Document>, packed: set<Path>)
    returns (loose: seq<PhysicalFile>, grouped: map<string, seq<Document>>)
    ensures AreLoose(documents, packed, loose) && IsGrouped(documents, packed, grouped)
    ensures forall id <- grouped :: grouped[id] != []
  {
    hide OperationIdOf, IsGrouped, AreLoose;
    loose, grouped := [], map[];
    NothingGrouped(packed);
    for i := 0 to |documents|
      invariant AreLoose(documents[..i], packed, loose) && IsGrouped(documents[..i], packed, grouped)
      invariant forall id <- grouped :: grouped[id] != []
    {
      var d := documents[i];
      SortOneMore(documents, packed, i, grouped, loose);
      if d.path in packed { continue; }
      var operationId := OperationIdOf(d);
      if operationId.None? {
        loose := loose + [PhysicalFile(d.path, DocumentFile(d.content))];
        continue;
      }
      var group := if operationId.value in grouped then grouped[operationId.value] else [];
      grouped := grouped[operationId.value := group + [d]];
    }
    assert documents[..|documents|] == documents;
  }

  lemma NothingGrouped(packed: set<Path>)
    ensures AreLoose([], packed, []) && IsGrouped([], packed, map[])
  {
  }

  function CreateEnvelope(env: Environment, operationId: string, group: seq<Document>): PhysicalFile {
    var embedded := Sorting.Sort((e: Embedded) => e.path, env.pathLeq, EmbedAll(group));
    PhysicalFile(OperationPath(env.stem(operationId)),
                 EnvelopeFile(operationId, embedded, env.envelopeDigest(operationId, embedded)))
  }

  lemma CreatesEnvelope(env: Environment, documents: seq<Document>, packed: set<Path>, operationId: string)
    requires Sorting.TotalOrder(env.pathLeq) && GroupOf(documents, packed, operationId) != []
    ensures IsEnvelope(env, documents, packed, CreateEnvelope(env, operationId, GroupOf(documents, packed, operationId)))
  {
    hide GroupOf, Sorting.Sort, Sorting.Insert;
    var group := GroupOf(documents, packed, operationId);
    Sorting.SortSorts((e: Embedded) => e.path, env.pathLeq, EmbedAll(group));
    assert Embeds(env, group, CreateEnvelope(env, operationId, group).file.documents);
  }

  ghost predicate HasEnvelope(env: Environment, documents: seq<Document>, packed: set<Path>, files: seq<PhysicalFile>,
                              operationId: string)
  {
    exists f <- files :: f.file.EnvelopeFile? && f.file.operationId == operationId && IsEnvelope(env, documents, packed, f)
  }

  /** The envelopes of all groups; the order does not matter, because the files are sorted by path afterwards. */
  method CreateEnvelopes(env: Environment, documents: seq<Document>, packed: set<Path>, grouped: map<string, seq<Document>>)
    returns (envelopes: seq<PhysicalFile>)
    requires Sorting.TotalOrder(env.pathLeq)
    requires IsGrouped(documents, packed, grouped) && forall id <- grouped :: grouped[id] != []
    ensures forall f <- envelopes :: IsEnvelope(env, documents, packed, f)
    ensures forall id <- grouped :: HasEnvelope(env, documents, packed, envelopes, id)
    ensures |envelopes| == |grouped|
  {
    hide IsEnvelope, CreateEnvelope, GroupOf;
    envelopes := [];
    var remaining := grouped.Keys;
    while remaining != {}
      invariant remaining <= grouped.Keys && |envelopes| + |remaining| == |grouped.Keys|
      invariant forall f <- envelopes :: IsEnvelope(env, documents, packed, f)
      invariant forall id <- grouped.Keys - remaining :: HasEnvelope(env, documents, packed, envelopes, id)
    {
      var id :| id in remaining;
      var envelope := CreateEnvelope(env, id, grouped[id]);
      CreatesEnvelope(env, documents, packed, id);
      EnvelopeNamesItsOperation(env, id, grouped[id]);
      ghost var before := envelopes;
      envelopes := envelopes + [envelope];
      assert forall f <- before :: f in envelopes;
      assert forall other | HasEnvelope(env, documents, packed, before, other) ::
          HasEnvelope(env, documents, packed, envelopes, other);
      assert envelope in envelopes;
      remaining := remaining - {id};
    }
  }

  lemma EnvelopeNamesItsOperation(env: Environment, operationId: string, group: seq<Document>)
    ensures CreateEnvelope(env, operationId, group).file.EnvelopeFile?
    ensures CreateEnvelope(env, operationId, group).file.operationId == operationId
  {
  }

  /** `buildAuditPhysicalDocuments`: fails exactly when a packed document is missing or changed. */
  method BuildAuditPhysicalDocuments(env: Environment, documents: seq<Document>, packs: seq<PreservedPack>)
    returns (r: Result<seq<PhysicalFile>, AuditError>)
    requires Sorting.TotalOrder(env.pathLeq) && DistinctPaths(documents)
    ensures r.Success? <==> PacksIntact(documents, packs)
    ensures r.Failure? ==> r.error.PackedDocumentIsImmutable?
    ensures r.Success? ==> IsLayout(env, documents, packs, r.value)
  {
    hide OperationIdOf, GroupOf, IsEnvelope, DistinctPaths;
    var changed := CheckPackedDocuments(documents, packs);
    if changed.Some? { return Failure(PackedDocumentIsImmutable(changed.value)); }
    var packed := PackedPaths(packs);
    var loose, grouped := GroupByOperation(documents, packed);
    var envelopes := CreateEnvelopes(env, documents, packed, grouped);
    var physical := loose + [PhysicalFile(AuditLayoutPath, LayoutFile)] + envelopes
      + seq(|packs|, i requires 0 <= i < |packs| => PhysicalFile(packs[i].path, packs[i].file));
    var sorted := Sorting.Sort((f: PhysicalFile) => f.path, env.pathLeq, physical);
    Sorting.SameMembers(sorted, physical);
    AssembledIsLayout(env, documents, packs, loose, envelopes, grouped, physical);
    SameFilesSameLayout(env, documents, packs, physical, sorted);
    return Success(sorted);
  }

  lemma AssembledIsLayout(env: Environment, documents: seq<Document>, packs: seq<PreservedPack>, loose: seq<PhysicalFile>,
                          envelopes: seq<PhysicalFile>, grouped: map<string, seq<Document>>, physical: seq<PhysicalFile>)
    requires AreLoose(documents, PackedPaths(packs), loose) && IsGrouped(documents, PackedPaths(packs), grouped)
    requires forall f <- envelopes :: IsEnvelope(env, documents, PackedPaths(packs), f)
    requires forall id <- grouped :: HasEnvelope(env, documents, PackedPaths(packs), envelopes, id)
    requires physical == loose + [PhysicalFile(AuditLayoutPath, LayoutFile)] + envelopes
               + seq(|packs|, i requires 0 <= i < |packs| => PhysicalFile(packs[i].path, packs[i].file))
    ensures IsLayout(env, documents, packs, physical)
  {
    hide OperationIdOf, GroupOf, IsEnvelope, PackedPaths;
    var packFiles := seq(|packs|, i requires 0 <= i < |packs| => PhysicalFile(packs[i].path, packs[i].file));
    var marker := PhysicalFile(AuditLayoutPath, LayoutFile);
    assert forall f :: f in physical <==> f in loose || f == marker || f in envelopes || f in packFiles;
    forall pack <- packs ensures PhysicalFile(pack.path, pack.file) in packFiles {
      var i :| 0 <= i < |packs| && packs[i] == pack;
      assert packFiles[i] == PhysicalFile(pack.path, pack.file);
    }
  }

  lemma SameFilesSameLayout(env: Environment, documents: seq<Document>, packs: seq<PreservedPack>,
                            a: seq<PhysicalFile>, b: seq<PhysicalFile>)
    requires IsLayout(env, documents, packs, a) && forall f :: f in a <==> f in b
    ensures IsLayout(env, documents, packs, b)
  {
    hide OperationIdOf, GroupOf, IsEnvelope, PackedPaths, IsLoose, IsPack;
    forall id | GroupOf(documents, PackedPaths(packs), id) != []
      ensures exists f <- b :: f.file.EnvelopeFile? && f.file.operationId == id
                               && IsEnvelope(env, documents, PackedPaths(packs), f)
    {
      var f :| f in a && f.file.EnvelopeFile? && f.file.operationId == id && IsEnvelope(env, documents, PackedPaths(packs), f);
      assert f in b;
    }
  }
}
