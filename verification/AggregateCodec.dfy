/** Encoding a project aggregate to canonical documents and back (packages/json/src/codec.ts). */
module AggregateCodec {
  import opened Wrappers
  import opened JsonValues
  import opened DocumentPaths
  import opened JsonKeys
  import opened JsonOrder
  import opened DigestPayloads
  import ApprovalCodec
  import Sorting

  /**
    A record of any kind: what its path depends on, and the rest.  `fields` stands for the fields that are copied one to
    one; an event has free-form metadata, a receipt an opaque result, and operations and artifacts a digest.
   */
  datatype Record = Record(kind: Kind, id: string, createdAt: string, body: Body)

  datatype Body =
    | EventBody(fields: Json, metadata: Json)
    | ReceiptBody(fields: Json, result: Json)
    | OperationBody(fields: Json, digest: ApprovalCodec.Digest)
    | ApprovalBody(artifact: ApprovalCodec.ApprovalArtifact)
    | PlainBody(fields: Json)

  /** The same as written. */
  datatype JsonRecord = JsonRecord(kind: Kind, id: string, createdAt: string, body: JsonBody)

  datatype JsonBody =
    | JsonEvent(fields: Json, metadata: Json)
    | JsonReceipt(fields: Json, result: Json)
    | JsonOperation(fields: Json, digest: ApprovalCodec.Digest)
    | JsonApproval(artifact: ApprovalCodec.JsonApprovalArtifact)
    | JsonPlain(fields: Json)

  datatype Project = Project(id: string, currentVersionId: Option<string>, body: Json)

  /** The collections of an aggregate, by kind; the receipts may be absent. */
  datatype Snapshot = Snapshot(project: Project, collections: map<Kind, seq<Record>>)

  datatype Content =
    | SchemaContent
    | ProjectContent(json: Json)
    | CurrentRefContent(projectId: string, currentVersionId: Option<string>)
    | RecordContent(record: JsonRecord)

  datatype Document = Document(path: string, content: Content)

  datatype CodecError =
    | RecordNotEncodable(kind: Kind, id: string)
    | ProjectMissing | CurrentRefMissing | CurrentRefMismatch | RecordNotDecodable(path: string) | UnsupportedDocument(path: string)
    | LifecycleInvalid

  /** The project codec, the shape checks of operations and plain records, the order on strings and the lifecycle rules. */
  datatype Environment = Environment(
    encodeProject: Project -> Json,
    decodeProject: Json -> Option<Project>,
    shapeOk: (Kind, Json) -> bool,
    lifecycleOk: set<Record> -> bool,
    leq: (string, string) -> bool)

  const KINDS: seq<Kind> := [
    VersionKind, WorkItemKind, TodoKind, UndoKind, DeferredItemKind, ConstraintKind, AssetKind, EventKind,
    PendingOperationKind, ApprovalArtifactKind, OrdinaryWriteReceiptKind]

  function Collection(s: Snapshot, kind: Kind): seq<Record> {
    if kind in s.collections then s.collections[kind] else []
  }

  function PathOf(r: Record): Option<string> {
    RecordPath(r.kind, r.id, r.createdAt)
  }

  // ---------- One record ----------

  /** Metadata and digest payloads are written in sorted snake case, a result only sorted, an artifact by its own codec. */
  function EncodeRecord(env: Environment, r: Record): Option<JsonRecord> {
    match r.body
    case EventBody(fields, metadata) =>
      Some(JsonRecord(r.kind, r.id, r.createdAt, JsonEvent(fields, EncodePayload(env.leq, metadata))))
    case ReceiptBody(fields, result) =>
      Some(JsonRecord(r.kind, r.id, r.createdAt, JsonReceipt(fields, SortJson(env.leq, result))))
    case OperationBody(fields, digest) =>
      Some(JsonRecord(r.kind, r.id, r.createdAt, JsonOperation(fields, ApprovalCodec.EncodeDigest(env.leq, digest))))
    case ApprovalBody(artifact) =>
      var json := ApprovalCodec.Encode(env.leq, artifact);
      if json.Success? then Some(JsonRecord(r.kind, r.id, r.createdAt, JsonApproval(json.value))) else None
    case PlainBody(fields) => Some(JsonRecord(r.kind, r.id, r.createdAt, JsonPlain(fields)))
  }

  /** The decoder of a namespace; None when it throws. */
  function DecodeRecord(env: Environment, kind: Kind, json: JsonRecord): Option<Record> {
    if json.kind != kind then None
    else
      match json.body
      case JsonEvent(fields, metadata) =>
        if kind.EventKind? then Some(Record(kind, json.id, json.createdAt, EventBody(fields, DecodePayload(metadata)))) else None
      case JsonReceipt(fields, result) =>
        if kind.OrdinaryWriteReceiptKind? then Some(Record(kind, json.id, json.createdAt, ReceiptBody(fields, result))) else None
      case JsonOperation(fields, digest) =>
        if kind.PendingOperationKind? && env.shapeOk(kind, fields)
        then Some(Record(kind, json.id, json.createdAt, OperationBody(fields, ApprovalCodec.DecodeDigest(digest)))) else None
      case JsonApproval(artifact) =>
        var decoded := ApprovalCodec.Decode(artifact);
        if kind.ApprovalArtifactKind? && decoded.Success?
        then Some(Record(kind, json.id, json.createdAt, ApprovalBody(decoded.value))) else None
      case JsonPlain(fields) =>
        if IsPlainKind(kind) && env.shapeOk(kind, fields) then Some(Record(kind, json.id, json.createdAt, PlainBody(fields)))
        else None
  }

  predicate IsPlainKind(kind: Kind) {
    !kind.EventKind? && !kind.OrdinaryWriteReceiptKind? && !kind.ApprovalArtifactKind? && !kind.PendingOperationKind?
  }

  /** The body is of the record's kind, and an artifact knows its own id and creation time. */
  predicate HasBodyOfKind(r: Record) {
    match r.body
    case EventBody(_, metadata) => r.kind.EventKind? && IsJsonValue(metadata)
    case ReceiptBody(_, result) => r.kind.OrdinaryWriteReceiptKind? && IsJsonValue(result)
    case OperationBody(_, digest) => r.kind.PendingOperationKind? && IsJsonValue(digest.payload)
    case ApprovalBody(artifact) =>
      && r.kind.ApprovalArtifactKind? && IsJsonValue(artifact.core.digest.payload)
      && artifact.core.id == r.id && artifact.core.createdAt == r.createdAt
    case PlainBody(_) => IsPlainKind(r.kind)
  }

  /** Which bodies go with which kind: every kind has records, and each body its own. */
  lemma BodiesByKind(r: Record)
    ensures HasBodyOfKind(r) && r.kind == EventKind <==> r.kind == EventKind && r.body.EventBody? && IsJsonValue(r.body.metadata)
    ensures HasBodyOfKind(r) && r.kind == OrdinaryWriteReceiptKind <==>
              r.kind == OrdinaryWriteReceiptKind && r.body.ReceiptBody? && IsJsonValue(r.body.result)
    ensures HasBodyOfKind(r) && r.kind == PendingOperationKind <==>
              r.kind == PendingOperationKind && r.body.OperationBody? && IsJsonValue(r.body.digest.payload)
    ensures HasBodyOfKind(r) && r.kind == ApprovalArtifactKind <==>
              && r.kind == ApprovalArtifactKind && r.body.ApprovalBody? && IsJsonValue(r.body.artifact.core.digest.payload)
              && r.body.artifact.core.id == r.id && r.body.artifact.core.createdAt == r.createdAt
    ensures r.kind in {VersionKind, WorkItemKind, TodoKind, UndoKind, DeferredItemKind, ConstraintKind, AssetKind} ==>
              (HasBodyOfKind(r) <==> r.body.PlainBody?)
  {
  }

  const NO_RECORD := JsonRecord(VersionKind, "", "", JsonPlain(Null))

  predicate Encodable(env: Environment, r: Record) {
    PathOf(r).Some? && EncodeRecord(env, r).Some?
  }

  function DocumentOf(env: Environment, r: Record): Document {
    Document(PathOf(r).GetOr(""), RecordContent(EncodeRecord(env, r).GetOr(NO_RECORD)))
  }

  function FixedDocuments(env: Environment, project: Project): seq<Document> {
    [Document(SCHEMA_PATH, SchemaContent),
     Document(PROJECT_PATH, ProjectContent(env.encodeProject(project))),
     Document(CURRENT_REF_PATH, CurrentRefContent(project.id, project.currentVersionId))]
  }

  ghost predicate IsRecordOf(s: Snapshot, r: Record) {
    exists kind :: r in Collection(s, kind)
  }

  ghost predicate WellTyped(s: Snapshot) {
    forall kind :: forall r <- Collection(s, kind) :: r.kind == kind && HasBodyOfKind(r)
  }

  ghost predicate AllEncodable(env: Environment, s: Snapshot) {
    forall r :: IsRecordOf(s, r) ==> Encodable(env, r)
  }

  /** Ids are unique within their kind; events need only differ in month or id. */
  ghost predicate UniqueIds(s: Snapshot) {
    forall kind :: forall i, j :: 0 <= i < j < |Collection(s, kind)| ==>
      var a, b := Collection(s, kind)[i], Collection(s, kind)[j];
      a.id != b.id || (kind.EventKind? && EventMonth(a.createdAt) != EventMonth(b.createdAt))
  }

  ghost predicate DistinctPaths(documents: seq<Document>) {
    forall i, j :: 0 <= i < j < |documents| ==> documents[i].path != documents[j].path
  }

  ghost predicate SortedByPath(env: Environment, documents: seq<Document>) {
    Sorting.SortedBy((d: Document) => d.path, env.leq, documents)
  }

  lemma KindsAreAll(kind: Kind)
    ensures kind in KINDS
  {
    assert KINDS[0] == VersionKind && KINDS[1] == WorkItemKind && KINDS[2] == TodoKind && KINDS[3] == UndoKind
      && KINDS[4] == DeferredItemKind && KINDS[5] == ConstraintKind && KINDS[6] == AssetKind && KINDS[7] == EventKind
      && KINDS[8] == PendingOperationKind && KINDS[9] == ApprovalArtifactKind && KINDS[10] == OrdinaryWriteReceiptKind;
  }

  lemma KindsAreDistinct(i: nat, j: nat)
    requires i < j < |KINDS|
    ensures KINDS[i] != KINDS[j]
  {
  }

  // ---------- Encoding ----------

  /** The documents of one collection. */
  function DocumentsOf(env: Environment, records: seq<Record>): seq<Document> {
    Sorting.Map((r: Record) => DocumentOf(env, r), records)
  }

  /** The collections in the order in which the encoder visits them, each unsorted. */
  function AllRecords(s: Snapshot, kinds: seq<Kind>): seq<Record> {
    if kinds == [] then [] else AllRecords(s, kinds[..|kinds| - 1]) + Collection(s, kinds[|kinds| - 1])
  }

  /** One collection: sorted by path, then encoded record by record; an event without a month or a refused record throws. */
  method EncodeCollection(env: Environment, records: seq<Record>) returns (r: Result<seq<Document>, CodecError>)
    ensures r.Success? <==> forall x <- records :: Encodable(env, x)
    ensures r.Success? ==> multiset(r.value) == multiset(DocumentsOf(env, records))
    ensures r.Failure? ==> exists x <- records :: !Encodable(env, x) && r.error == RecordNotEncodable(x.kind, x.id)
  {
    hide Sorting.Sort, PathOf, EncodeRecord;
    for i := 0 to |records|
      invariant forall j :: 0 <= j < i ==> PathOf(records[j]).Some?
    {
      if PathOf(records[i]).None? {
        assert !Encodable(env, records[i]);
        return Failure(RecordNotEncodable(records[i].kind, records[i].id));
      }
    }
    var sorted := Sorting.Sort((x: Record) => PathOf(x).GetOr(""), env.leq, records);
    Sorting.SameMembers(sorted, records);
    var documents: seq<Document> := [];
    for i := 0 to |sorted|
      invariant forall j :: 0 <= j < i ==> Encodable(env, sorted[j])
      invariant |documents| == i && forall j :: 0 <= j < i ==> documents[j] == DocumentOf(env, sorted[j])
    {
      assert sorted[i] in records;
      var encoded := EncodeRecord(env, sorted[i]);
      if encoded.None? { return Failure(RecordNotEncodable(sorted[i].kind, sorted[i].id)); }
      documents := documents + [Document(PathOf(sorted[i]).value, RecordContent(encoded.value))];
    }
    AllMembers(env, sorted, records);
    assert documents == DocumentsOf(env, sorted);
    Sorting.MapPermutation((x: Record) => DocumentOf(env, x), sorted, records);
    return Success(documents);
  }

  lemma {:induction false} AllMembers(env: Environment, a: seq<Record>, b: seq<Record>)
    requires forall x :: x in a <==> x in b
    requires forall i :: 0 <= i < |a| ==> Encodable(env, a[i])
    ensures forall x <- b :: Encodable(env, x)
  {
    hide Encodable;
    forall x <- b ensures Encodable(env, x) {
      var i :| 0 <= i < |a| && a[i] == x;
    }
  }

  /** `documents` holds the fixed documents and one per record of `s`, in path order. */
  ghost predicate IsEncoding(env: Environment, s: Snapshot, documents: seq<Document>) {
    && SortedByPath(env, documents)
    && multiset(documents) == multiset(FixedDocuments(env, s.project) + DocumentsOf(env, AllRecords(s, KINDS)))
  }

  /** The collections one after the other, in the encoder's order. */
  method EncodeCollections(env: Environment, s: Snapshot) returns (r: Result<seq<Document>, CodecError>)
    ensures r.Success? <==> AllEncodable(env, s)
    ensures r.Success? ==> multiset(r.value) == multiset(DocumentsOf(env, AllRecords(s, KINDS)))
    ensures r.Failure? ==> exists x :: IsRecordOf(s, x) && !Encodable(env, x) && r.error == RecordNotEncodable(x.kind, x.id)
  {
    hide Encodable, DocumentsOf, Collection;
    var documents: seq<Document> := [];
    DocumentsOfNothing(env);
    for i := 0 to |KINDS|
      invariant forall x <- AllRecords(s, KINDS[..i]) :: Encodable(env, x)
      invariant multiset(documents) == multiset(DocumentsOf(env, AllRecords(s, KINDS[..i])))
    {
      assert KINDS[..i + 1][..i] == KINDS[..i];
      var encoded := EncodeCollection(env, Collection(s, KINDS[i]));
      if encoded.Failure? {
        var x :| x in Collection(s, KINDS[i]) && !Encodable(env, x) && encoded.error == RecordNotEncodable(x.kind, x.id);
        assert IsRecordOf(s, x);
        return Failure(encoded.error);
      }
      DocumentsOfJoin(env, AllRecords(s, KINDS[..i]), Collection(s, KINDS[i]));
      documents := documents + encoded.value;
    }
    assert KINDS[..|KINDS|] == KINDS;
    AllRecordsAreAll(s);
    return Success(documents);
  }

  lemma DocumentsOfNothing(env: Environment)
    ensures DocumentsOf(env, []) == []
  {
  }

  /** `encodeProjectAggregateToJsonDocuments`: fixed documents and one per record, in path order. */
  method Encode(env: Environment, s: Snapshot) returns (r: Result<seq<Document>, CodecError>)
    requires Sorting.TotalOrder(env.leq)
    ensures r.Success? <==> AllEncodable(env, s)
    ensures r.Success? ==> IsEncoding(env, s, r.value)
    ensures r.Failure? ==> exists x :: IsRecordOf(s, x) && !Encodable(env, x) && r.error == RecordNotEncodable(x.kind, x.id)
  {
    hide AllEncodable, DocumentsOf, AllRecords, FixedDocuments, Sorting.Sort;
    var encoded := EncodeCollections(env, s);
    if encoded.Failure? { return Failure(encoded.error); }
    var documents := FixedDocuments(env, s.project) + encoded.value;
    Sorting.SortSorts((d: Document) => d.path, env.leq, documents);
    return Success(Sorting.Sort((d: Document) => d.path, env.leq, documents));
  }

  lemma DocumentsOfJoin(env: Environment, a: seq<Record>, b: seq<Record>)
    ensures DocumentsOf(env, a + b) == DocumentsOf(env, a) + DocumentsOf(env, b)
  {
  }

  lemma {:induction false} AllRecordsHolds(s: Snapshot, kinds: seq<Kind>, r: Record)
    ensures r in AllRecords(s, kinds) <==> exists i :: 0 <= i < |kinds| && r in Collection(s, kinds[i])
    decreases |kinds|
  {
    if kinds != [] {
      var rest := kinds[..|kinds| - 1];
      AllRecordsHolds(s, rest, r);
      assert forall i :: 0 <= i < |rest| ==> rest[i] == kinds[i];
    }
  }

  lemma AllRecordsAreAll(s: Snapshot)
    ensures forall r :: r in AllRecords(s, KINDS) <==> IsRecordOf(s, r)
  {
    forall r ensures r in AllRecords(s, KINDS) <==> IsRecordOf(s, r) {
      AllRecordsHolds(s, KINDS, r);
      if kind :| r in Collection(s, kind) {
        KindsAreAll(kind);
        var i :| 0 <= i < |KINDS| && KINDS[i] == kind;
        assert r in Collection(s, KINDS[i]);
      }
    }
  }

  // ---------- Decoding ----------

  predicate IsFixedPath(path: string) {
    path == SCHEMA_PATH || path == PROJECT_PATH || path == CURRENT_REF_PATH
  }

  /** The record a document decodes to, if it is a record document of that kind. */
  function DecodedAs(env: Environment, d: Document, kind: Kind): Option<Record> {
    if !IsFixedPath(d.path) && KindOf(d.path) == Some(kind) && d.content.RecordContent?
    then DecodeRecord(env, kind, d.content.record) else None
  }

  /** The records of one kind, in the order of their documents. */
  function RecordsIn(env: Environment, documents: seq<Document>, kind: Kind): (records: seq<Record>)
    ensures forall r :: r in records <==> exists d <- documents :: DecodedAs(env, d, kind) == Some(r)
  {
    if documents == [] then []
    else
      var rest, last := RecordsIn(env, documents[..|documents| - 1], kind), documents[|documents| - 1];
      assert forall d :: d in documents <==> d in documents[..|documents| - 1] || d == last;
      match DecodedAs(env, last, kind)
      case None => rest
      case Some(r) => rest + [r]
  }

  predicate IsDecodable(env: Environment, d: Document) {
    IsFixedPath(d.path) || (KindOf(d.path).Some? && DecodedAs(env, d, KindOf(d.path).value).Some?)
  }

  /** All records of a document sequence. */
  function RecordSet(env: Environment, documents: seq<Document>): set<Record> {
    set d <- documents, kind <- KINDS | DecodedAs(env, d, kind).Some? :: DecodedAs(env, d, kind).value
  }

  /** The map from paths to documents; of two documents with one path the later is kept. */
  function ByPath(documents: seq<Document>): map<string, Document> {
    if documents == [] then map[]
    else
      var last := documents[|documents| - 1];
      ByPath(documents[..|documents| - 1])[last.path := last]
  }

  lemma {:induction false} ByPathFinds(documents: seq<Document>)
    ensures forall p <- ByPath(documents) :: ByPath(documents)[p] in documents && ByPath(documents)[p].path == p
    ensures DistinctPaths(documents) ==> forall d <- documents :: d.path in ByPath(documents) && ByPath(documents)[d.path] == d
    decreases |documents|
  {
    if documents != [] {
      var rest := documents[..|documents| - 1];
      ByPathFinds(rest);
      assert forall d <- documents :: d in rest || d == documents[|documents| - 1];
    }
  }

  /** `ordered` is the documents kept for each path, in path order. */
  ghost predicate IsOrdered(env: Environment, documents: seq<Document>, ordered: seq<Document>) {
    && SortedByPath(env, ordered) && DistinctPaths(ordered)
    && forall d :: d in ordered <==> d.path in ByPath(documents) && d == ByPath(documents)[d.path]
  }

  /** The order is determined, and a document set already in path order is left as it is. */
  lemma OrderIsUnique(env: Environment, documents: seq<Document>, a: seq<Document>, b: seq<Document>)
    requires Sorting.TotalOrder(env.leq) && IsOrdered(env, documents, a)
    ensures IsOrdered(env, documents, b) ==> a == b
    ensures DistinctPaths(documents) ==> forall d :: d in a <==> d in documents
    ensures DistinctPaths(documents) && SortedByPath(env, documents) ==> a == documents
  {
    hide ByPath;
    ByPathFinds(documents);
    if IsOrdered(env, documents, b) {
      Sorting.SortedIsUnique((d: Document) => d.path, env.leq, a, b);
    }
    if DistinctPaths(documents) && SortedByPath(env, documents) {
      Sorting.SortedIsUnique((d: Document) => d.path, env.leq, a, documents);
    }
  }

  method OrderByPath(env: Environment, documents: seq<Document>) returns (ordered: seq<Document>)
    requires Sorting.TotalOrder(env.leq)
    ensures IsOrdered(env, documents, ordered)
  {
    hide Sorting.Sort;
    var byPath := ByPath(documents);
    ByPathFinds(documents);
    var values: seq<Document> := [];
    var remaining := byPath.Keys;
    while remaining != {}
      invariant remaining <= byPath.Keys
      invariant forall d :: d in values <==> d.path in byPath && d.path !in remaining && d == byPath[d.path]
      invariant DistinctPaths(values)
    {
      var p :| p in remaining;
      values := values + [byPath[p]];
      remaining := remaining - {p};
    }
    ordered := Sorting.Sort((d: Document) => d.path, env.leq, values);
    Sorting.SortSorts((d: Document) => d.path, env.leq, values);
    Sorting.SortKeepsDistinct((d: Document) => d.path, env.leq, values);
    Sorting.SameMembers(ordered, values);
  }

  /** The project document and the current ref that mirrors it are present. */
  ghost predicate NamesProject(env: Environment, ordered: seq<Document>, project: Project) {
    && (exists d <- ordered :: d.path == PROJECT_PATH && d.content.ProjectContent?
                               && env.decodeProject(d.content.json) == Some(project))
    && Document(CURRENT_REF_PATH, CurrentRefContent(project.id, project.currentVersionId)) in ordered
  }

  /** `t` is the aggregate of a document sequence in path order. */
  ghost predicate IsAggregateOf(env: Environment, ordered: seq<Document>, t: Snapshot) {
    && NamesProject(env, ordered, t.project) && IsDecoding(env, ordered, t)
    && env.lifecycleOk(RecordSet(env, ordered))
  }

  /** `t` is what decoding `documents` fills in. */
  ghost predicate IsDecoding(env: Environment, documents: seq<Document>, t: Snapshot) {
    && (forall d <- documents :: IsDecodable(env, d))
    && forall kind :: Collection(t, kind) == RecordsIn(env, documents, kind)
  }

  /** What is wrong with these documents when decoding them ends with this error. */
  ghost predicate IsCause(env: Environment, documents: seq<Document>, error: CodecError) {
    match error
    case ProjectMissing => forall d <- documents :: d.path != PROJECT_PATH
    case CurrentRefMissing => forall d <- documents :: d.path != CURRENT_REF_PATH
    case CurrentRefMismatch =>
      exists d <- documents, e <- documents ::
        && d.path == PROJECT_PATH && d.content.ProjectContent? && env.decodeProject(d.content.json).Some?
        && e.path == CURRENT_REF_PATH
        && var project := env.decodeProject(d.content.json).value;
           e.content != CurrentRefContent(project.id, project.currentVersionId)
    case RecordNotDecodable(path) => exists d <- documents :: d.path == path && IsUnreadable(env, d)
    case UnsupportedDocument(path) => (exists d <- documents :: d.path == path) && !IsFixedPath(path) && KindOf(path) == None
    case LifecycleInvalid => !env.lifecycleOk(RecordSet(env, documents))
    case _ => false
  }

  /** A project or a record of a known kind whose decoder refuses the content. */
  ghost predicate IsUnreadable(env: Environment, d: Document) {
    if d.path == PROJECT_PATH then d.content.ProjectContent? ==> env.decodeProject(d.content.json).None?
    else !IsFixedPath(d.path) && KindOf(d.path).Some? && DecodedAs(env, d, KindOf(d.path).value).None?
  }

  /** `decodeProjectAggregateFromJsonDocuments`: it throws exactly when the documents are those of no aggregate. */
  method Decode(env: Environment, documents: seq<Document>) returns (r: Result<Snapshot, CodecError>)
    requires Sorting.TotalOrder(env.leq)
    ensures r.Success? ==> exists ordered :: IsOrdered(env, documents, ordered) && IsAggregateOf(env, ordered, r.value)
    ensures r.Failure? ==> forall ordered, t :: IsOrdered(env, documents, ordered) ==> !IsAggregateOf(env, ordered, t)
    ensures r.Failure? ==> forall ordered :: IsOrdered(env, documents, ordered) ==> IsCause(env, ordered, r.error)
  {
    hide KindOf, IsOrdered, IsDecodable, RecordSet, RecordsIn;
    var sorted := OrderByPath(env, documents);
    forall ordered | IsOrdered(env, documents, ordered) ensures ordered == sorted {
      OrderIsUnique(env, documents, sorted, ordered);
    }
    assert DistinctPaths(sorted) by { OrderIsDistinct(env, documents, sorted); }
    var byPath := ByPath(sorted);
    ByPathFinds(sorted);
    if PROJECT_PATH !in byPath { return Failure(ProjectMissing); }
    if CURRENT_REF_PATH !in byPath { return Failure(CurrentRefMissing); }
    var projectDocument, refDocument := byPath[PROJECT_PATH], byPath[CURRENT_REF_PATH];
    if !projectDocument.content.ProjectContent? || env.decodeProject(projectDocument.content.json).None? {
      return Failure(RecordNotDecodable(PROJECT_PATH));
    }
    var project := env.decodeProject(projectDocument.content.json).value;
    if refDocument.content != CurrentRefContent(project.id, project.currentVersionId) {
      return Failure(CurrentRefMismatch);
    }
    var failed, collections := FillCollections(env, sorted);
    if failed.Some? { return Failure(failed.value); }
    if !env.lifecycleOk(RecordSet(env, sorted)) { return Failure(LifecycleInvalid); }
    r := Success(Snapshot(project, collections));
    assert IsAggregateOf(env, sorted, r.value);
  }

  lemma OrderIsDistinct(env: Environment, documents: seq<Document>, ordered: seq<Document>)
    requires IsOrdered(env, documents, ordered)
    ensures DistinctPaths(ordered)
  {
  }

  /** Each document in turn is pushed to the collection of its namespace. */
  method FillCollections(env: Environment, documents: seq<Document>)
    returns (failed: Option<CodecError>, collections: map<Kind, seq<Record>>)
    ensures failed.None? <==> forall d <- documents :: IsDecodable(env, d)
    ensures failed.Some? ==> IsCause(env, documents, failed.value)
    ensures failed.None? ==> forall kind ::
              (if kind in collections then collections[kind] else []) == RecordsIn(env, documents, kind)
  {
    hide KindOf;
    failed, collections := None, map[];
    for i := 0 to |documents|
      invariant forall j :: 0 <= j < i ==> IsDecodable(env, documents[j])
      invariant forall kind ::
                  (if kind in collections then collections[kind] else []) == RecordsIn(env, documents[..i], kind)
    {
      var d := documents[i];
      assert documents[..i + 1][..i] == documents[..i] && documents[..i + 1][i] == d;
      if IsFixedPath(d.path) { continue; }
      var kind := KindOf(d.path);
      assert IsDecodable(env, documents[i]) <==> kind.Some? && DecodedAs(env, d, kind.value).Some?;
      if kind.None? { failed := Some(UnsupportedDocument(d.path)); return; }
      var decoded := DecodedAs(env, d, kind.value);
      if decoded.None? { failed := Some(RecordNotDecodable(d.path)); return; }
      var records := if kind.value in collections then collections[kind.value] else [];
      collections := collections[kind.value := records + [decoded.value]];
    }
    assert documents[..|documents|] == documents;
  }
}
