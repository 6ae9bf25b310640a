/** Which documents go into the audit pack of a closed version, and that operations are not torn apart. */
module AuditPacking {
  import opened Wrappers
  import opened JsonValues
  import opened AuditLayout
  import opened AuditLayoutProofs
  import opened AuditStorage
  import Sorting

  predicate FieldIs(payload: Json, key: string, value: string) {
    StringField(payload, key) == Some(value)
  }

  predicate ScopedTo(payload: Json, versionId: string) {
    payload.Obj? && var scope := Get(payload.fields, "scope"); scope.Some? && FieldIs(scope.value, "version_id", versionId)
  }

  predicate IsPendingFor(payload: Json, versionId: string) {
    StringField(payload, "id").Some? && FieldIs(payload, "kind", "pending_operation")
    && FieldIs(payload, "target_id", versionId)
  }

  predicate IsRelatedTo(payload: Json, versionId: string) {
    StringField(payload, "id").Some?
    && (|| FieldIs(payload, "version_id", versionId)
        || FieldIs(payload, "origin_version_id", versionId)
        || FieldIs(payload, "target_review_version_id", versionId)
        || ScopedTo(payload, versionId))
  }

  function Payload(d: Document): Json {
    Parse(d.content).GetOr(Null)
  }

  function IdOf(d: Document): string {
    StringField(Payload(d), "id").GetOr("")
  }

  function PendingIds(documents: seq<Document>, versionId: string): set<string> {
    set d <- documents | IsPendingFor(Payload(d), versionId) :: IdOf(d)
  }

  function RelatedIds(documents: seq<Document>, versionId: string): set<string> {
    {versionId}
    + set d <- documents | IsPendingFor(Payload(d), versionId) || IsRelatedTo(Payload(d), versionId) :: IdOf(d)
  }

  predicate IsEventOn(payload: Json, related: set<string>) {
    FieldIs(payload, "kind", "transition_event") && StringField(payload, "operation_id").Some?
    && var target := StringField(payload, "target_id"); target.Some? && target.value in related
  }

  /** The operations of the events on the version and its records. */
  function OperationIds(documents: seq<Document>, versionId: string): set<string> {
    set d <- documents | IsEventOn(Payload(d), RelatedIds(documents, versionId)) ::
      StringField(Payload(d), "operation_id").GetOr("")
  }

  predicate IsSelected(d: Document, versionId: string, operationIds: set<string>, pendingIds: set<string>) {
    Payload(d).Obj? &&
    match d.path
    case EventPath(_) =>
      var id := StringField(Payload(d), "operation_id"); id.Some? && id.value in operationIds
    case ReceiptPath(_) =>
      var id := OperationIdOf(d); id.Some? && id.value in operationIds
    case PendingOperationPath(_) =>
      var id := StringField(Payload(d), "id"); id.Some? && id.value in pendingIds
    case ApprovalArtifactPath(_) =>
      var id := StringField(Payload(d), "pending_operation_id");
      (id.Some? && id.value in pendingIds) || FieldIs(Payload(d), "target_id", versionId)
    case _ => false
  }

  ghost predicate Selects(documents: seq<Document>, versionId: string, selected: seq<Document>) {
    forall d :: d in selected <==>
      d in documents && IsSelected(d, versionId, OperationIds(documents, versionId), PendingIds(documents, versionId))
  }

  // ---------- By payload fields ----------

  /** A text at the top of the document. */
  function Text(d: Document, key: string): Option<string> {
    StringField(Payload(d), key)
  }

  /** The document is a pending operation on the version, with this id. */
  ghost predicate IsPendingOn(d: Document, versionId: string, id: string) {
    Text(d, "id") == Some(id) && Text(d, "kind") == Some("pending_operation") && Text(d, "target_id") == Some(versionId)
  }

  /** The document is a record with this id that belongs to the version by one of its references or by its scope. */
  ghost predicate BelongsTo(d: Document, versionId: string, id: string) {
    && Text(d, "id") == Some(id)
    && (|| Text(d, "version_id") == Some(versionId)
        || Text(d, "origin_version_id") == Some(versionId)
        || Text(d, "target_review_version_id") == Some(versionId)
        || exists scope: Json ::
             Payload(d).Obj? && Get(Payload(d).fields, "scope") == Some(scope) && StringField(scope, "version_id") == Some(versionId))
  }

  /** The version, a pending operation on it, or a record that belongs to it. */
  ghost predicate IsOfVersion(documents: seq<Document>, versionId: string, id: string) {
    id == versionId || exists d <- documents :: IsPendingOn(d, versionId, id) || BelongsTo(d, versionId, id)
  }

  /** Some transition event of the operation has a target of the version. */
  ghost predicate TouchesVersion(documents: seq<Document>, versionId: string, operationId: string) {
    exists d <- documents, target ::
      && Text(d, "kind") == Some("transition_event") && Text(d, "operation_id") == Some(operationId)
      && Text(d, "target_id") == Some(target) && IsOfVersion(documents, versionId, target)
  }

  ghost predicate HasPending(documents: seq<Document>, versionId: string, id: Option<string>) {
    id.Some? && exists d <- documents :: IsPendingOn(d, versionId, id.value)
  }

  /**
    What a closed-version pack holds, by the fields of the payloads: events and receipts of operations that touch the
    version, pending operations on it, artifacts of those or on the version itself, and nothing from another namespace.
   */
  ghost predicate PacksByFields(documents: seq<Document>, versionId: string, packed: seq<Document>) {
    && (forall d <- packed :: d in documents && Payload(d).Obj?)
    && (forall d <- packed :: d.path.EventPath? || d.path.ReceiptPath? || d.path.PendingOperationPath? || d.path.ApprovalArtifactPath?)
    && forall d <- documents | Payload(d).Obj? ::
         && (d.path.EventPath? ==>
               (d in packed <==> Text(d, "operation_id").Some? && TouchesVersion(documents, versionId, Text(d, "operation_id").value)))
         && (d.path.ReceiptPath? ==>
               (d in packed <==> OperationIdOf(d).Some? && TouchesVersion(documents, versionId, OperationIdOf(d).value)))
         && (d.path.PendingOperationPath? ==> (d in packed <==> HasPending(documents, versionId, Text(d, "id"))))
         && (d.path.ApprovalArtifactPath? ==>
               (d in packed <==>
                HasPending(documents, versionId, Text(d, "pending_operation_id")) || Text(d, "target_id") == Some(versionId)))
  }

  lemma PendingByFields(documents: seq<Document>, versionId: string, id: string)
    ensures id in PendingIds(documents, versionId) <==> exists d <- documents :: IsPendingOn(d, versionId, id)
  {
    hide Payload;
    if id in PendingIds(documents, versionId) {
      var d :| d in documents && IsPendingFor(Payload(d), versionId) && IdOf(d) == id;
      assert IsPendingOn(d, versionId, id);
    }
    if d :| d in documents && IsPendingOn(d, versionId, id) {
      assert IsPendingFor(Payload(d), versionId) && IdOf(d) == id;
    }
  }

  lemma RelatedByFields(documents: seq<Document>, versionId: string, id: string)
    ensures id in RelatedIds(documents, versionId) <==> IsOfVersion(documents, versionId, id)
  {
    hide Payload;
    forall d | d in documents
      ensures IsRelatedTo(Payload(d), versionId) && IdOf(d) == id <==> BelongsTo(d, versionId, id)
      ensures IsPendingFor(Payload(d), versionId) && IdOf(d) == id <==> IsPendingOn(d, versionId, id)
    {
    }
  }

  lemma OperationsByFields(documents: seq<Document>, versionId: string, id: string)
    ensures id in OperationIds(documents, versionId) <==> TouchesVersion(documents, versionId, id)
  {
    hide Payload, RelatedIds, IsOfVersion;
    var related := RelatedIds(documents, versionId);
    if id in OperationIds(documents, versionId) {
      var d :| d in documents && IsEventOn(Payload(d), related) && Text(d, "operation_id").GetOr("") == id;
      RelatedByFields(documents, versionId, Text(d, "target_id").value);
      assert Text(d, "operation_id") == Some(id);
    }
    if d, target :|
      && d in documents && Text(d, "kind") == Some("transition_event") && Text(d, "operation_id") == Some(id)
      && Text(d, "target_id") == Some(target) && IsOfVersion(documents, versionId, target)
    {
      RelatedByFields(documents, versionId, target);
      assert IsEventOn(Payload(d), related);
    }
  }

  /** The selection takes what the fields say. */
  lemma SelectionByFields(documents: seq<Document>, versionId: string, packed: seq<Document>)
    requires Selects(documents, versionId, packed)
    ensures PacksByFields(documents, versionId, packed)
  {
    hide PendingIds, OperationIds, TouchesVersion, Payload, Visit;
    forall id ensures id in OperationIds(documents, versionId) <==> TouchesVersion(documents, versionId, id) {
      OperationsByFields(documents, versionId, id);
    }
    forall id ensures id in PendingIds(documents, versionId) <==> HasPending(documents, versionId, Some(id)) {
      PendingByFields(documents, versionId, id);
    }
    hide HasPending;
  }

  /** The ids a closed-version pack starts from, collected in one pass. */
  method CollectRelatedIds(documents: seq<Document>, versionId: string)
    returns (related: set<string>, pending: set<string>)
    ensures related == RelatedIds(documents, versionId) && pending == PendingIds(documents, versionId)
  {
    hide IsPendingFor, IsRelatedTo, Payload;
    related, pending := {versionId}, {};
    for i := 0 to |documents|
      invariant related == RelatedIds(documents[..i], versionId)
      invariant pending == PendingIds(documents[..i], versionId)
    {
      var d := documents[i];
      assert forall x :: x in documents[..i + 1] <==> x in documents[..i] || x == d;
      if IsPendingFor(Payload(d), versionId) {
        pending := pending + {IdOf(d)};
        related := related + {IdOf(d)};
      } else if IsRelatedTo(Payload(d), versionId) {
        related := related + {IdOf(d)};
      }
    }
    assert documents[..|documents|] == documents;
  }

  method CollectOperationIds(documents: seq<Document>, versionId: string, related: set<string>)
    returns (operationIds: set<string>)
    requires related == RelatedIds(documents, versionId)
    ensures operationIds == OperationIds(documents, versionId)
  {
    hide RelatedIds, IsEventOn, Payload;
    operationIds := {};
    for i := 0 to |documents|
      invariant operationIds == set d <- documents[..i] | IsEventOn(Payload(d), related) ::
                                  StringField(Payload(d), "operation_id").GetOr("")
    {
      var d := documents[i];
      assert forall x :: x in documents[..i + 1] <==> x in documents[..i] || x == d;
      if IsEventOn(Payload(d), related) {
        operationIds := operationIds + {StringField(Payload(d), "operation_id").GetOr("")};
      }
    }
    assert documents[..|documents|] == documents;
  }

  /**
    `createClosedVersionAuditPack`: throws when a document is not JSON, otherwise packs exactly the selected documents
    and nothing else, each once.
   */
  method CreateClosedVersionAuditPack(env: Environment, documents: seq<Document>, versionId: string, closedAt: string)
    returns (r: Result<PreservedPack, AuditError>)
    requires Sorting.TotalOrder(env.pathLeq) && DistinctPaths(documents)
    ensures r.Success? <==> forall d <- documents :: Parse(d.content).Some?
    ensures r.Failure? ==> r.error == MalformedJson
    ensures r.Success? ==>
              && FaithfulPack(env, r.value) && r.value.path == PackPath(env.stem(versionId))
              && r.value.file.versionId == versionId && r.value.file.closedAt == closedAt
              && Selects(documents, versionId, r.value.documents)
              && PacksByFields(documents, versionId, r.value.documents)
  {
    hide PacksByFields;
    hide IsSelected, OperationIds, PendingIds, RelatedIds, Sorting.Sort;
    for i := 0 to |documents|
      invariant forall j :: 0 <= j < i ==> Parse(documents[j].content).Some?
    {
      if Parse(documents[i].content).None? { return Failure(MalformedJson); }
    }
    var related, pending := CollectRelatedIds(documents, versionId);
    var operationIds := CollectOperationIds(documents, versionId, related);
    var selected: seq<Document> := [];
    for i := 0 to |documents|
      invariant forall d :: d in selected <==> d in documents[..i] && IsSelected(d, versionId, operationIds, pending)
      invariant DistinctPaths(selected)
    {
      assert forall d <- documents[..i] :: d.path != documents[i].path;
      assert forall d <- selected :: d in documents[..i];
      if IsSelected(documents[i], versionId, operationIds, pending) { selected := selected + [documents[i]]; }
    }
    assert documents[..|documents|] == documents;
    var embedded := Sorting.Sort((e: Embedded) => e.path, env.pathLeq, EmbedAll(selected));
    var sorted := Sorting.Sort((d: Document) => d.path, env.pathLeq, selected);
    SortedPackIsFaithful(selected, sorted, embedded);
    SelectionByFields(documents, versionId, sorted);
    return Success(PreservedPack(PackPath(env.stem(versionId)),
                                 PackFile(versionId, closedAt, embedded, env.packDigest(versionId, closedAt, embedded)),
                                 sorted));
  }

  lemma SortedPackIsFaithful(selected: seq<Document>, sorted: seq<Document>, embedded: seq<Embedded>)
    requires DistinctPaths(selected) && multiset(sorted) == multiset(selected)
    requires multiset(embedded) == multiset(EmbedAll(selected))
    ensures DistinctPaths(sorted) && multiset(embedded) == multiset(EmbedAll(sorted))
    ensures forall d :: d in sorted <==> d in selected
  {
    Sorting.SameMembers(sorted, selected);
    Sorting.PermutationKeepsDistinct((d: Document) => d.path, selected, sorted);
    Sorting.MapPermutation(Embed, selected, sorted);
    assert EmbedAll(selected) == Sorting.Map(Embed, selected) && EmbedAll(sorted) == Sorting.Map(Embed, sorted);
  }

  // ---------- Whole operations ----------

  /** The event and receipt documents that one operation's envelope would hold. */
  ghost predicate IsMember(documents: seq<Document>, operationId: string, d: Document) {
    d in documents && OperationIdOf(d) == Some(operationId)
  }

  /** The selection looks for an operation id only at the top of an event, and only in receipts that are objects. */
  predicate IsPlain(d: Document) {
    Payload(d).Obj? && (d.path.EventPath? ==> StringField(Payload(d), "operation_id").Some?)
  }

  ghost predicate TakesAllOrNone(documents: seq<Document>, versionId: string, operationId: string) {
    var ids, pending := OperationIds(documents, versionId), PendingIds(documents, versionId);
    || (forall d | IsMember(documents, operationId, d) :: IsSelected(d, versionId, ids, pending))
    || (forall d | IsMember(documents, operationId, d) :: !IsSelected(d, versionId, ids, pending))
  }

  lemma MemberIsSelectedExactly(documents: seq<Document>, versionId: string, operationId: string, d: Document)
    requires IsMember(documents, operationId, d)
    ensures IsSelected(d, versionId, OperationIds(documents, versionId), PendingIds(documents, versionId))
       <==> operationId in OperationIds(documents, versionId) && IsPlain(d)
  {
    hide OperationIds, PendingIds, Visit;
    assert d.path.EventPath? || d.path.ReceiptPath?;
  }

  /**
    Packing keeps operations whole exactly when no selected operation mixes plain documents with events that carry
    their operation id only below the top level (or receipts that are not objects).
   */
  lemma WholeOperationsExactly(documents: seq<Document>, versionId: string)
    ensures (forall id :: TakesAllOrNone(documents, versionId, id))
       <==> forall id <- OperationIds(documents, versionId), d, e ::
              IsMember(documents, id, d) && IsMember(documents, id, e) ==> (IsPlain(d) <==> IsPlain(e))
  {
    hide OperationIds, PendingIds, IsSelected, IsPlain, IsMember;
    forall id, d | IsMember(documents, id, d)
      ensures IsSelected(d, versionId, OperationIds(documents, versionId), PendingIds(documents, versionId))
         <==> id in OperationIds(documents, versionId) && IsPlain(d)
    {
      MemberIsSelectedExactly(documents, versionId, id, d);
    }
    if forall id :: TakesAllOrNone(documents, versionId, id) {
      forall id <- OperationIds(documents, versionId), d, e | IsMember(documents, id, d) && IsMember(documents, id, e)
        ensures IsPlain(d) <==> IsPlain(e)
      {
        assert TakesAllOrNone(documents, versionId, id);
      }
    }
  }

  /** An event that names its operation only in a nested record is left out while its sibling is packed. */
  lemma NestedOperationIdIsTornApart()
    ensures exists documents, id :: !TakesAllOrNone(documents, "v", id)
  {
    var top := Document(EventPath("a"), CanonicalText(Obj([
      Field("kind", Str("transition_event")), Field("operation_id", Str("op")), Field("target_id", Str("v"))])));
    var inner := Obj([Field("operation_id", Str("op"))]);
    var nested := Document(EventPath("b"), CanonicalText(Obj([Field("data", inner)])));
    var documents := [top, nested];
    assert Get(top.content.json.fields[1..], "operation_id") == Some(Str("op"));
    assert Get(top.content.json.fields[2..], "target_id") == Some(Str("v"));
    assert Get(top.content.json.fields[1..], "target_id") == Some(Str("v"));
    assert StringField(Payload(top), "target_id") == Some("v");
    assert IsEventOn(Payload(top), RelatedIds(documents, "v"));
    assert "op" in OperationIds(documents, "v");
    assert Get(nested.content.json.fields[1..], "operation_id") == None;
    assert Get(nested.content.json.fields[1..], "operationId") == None;
    assert StringField(inner, "operation_id") == Some("op");
    assert Visit(inner) == Some("op");
    assert VisitFields(nested.content.json.fields) == Some("op");
    assert OperationIdOf(nested) == Some("op") && OperationIdOf(top) == Some("op");
    assert IsMember(documents, "op", documents[0]) && IsMember(documents, "op", documents[1]);
    assert IsPlain(top) && !IsPlain(nested);
    MemberIsSelectedExactly(documents, "v", "op", top);
    MemberIsSelectedExactly(documents, "v", "op", nested);
    assert !TakesAllOrNone(documents, "v", "op");
  }
}
