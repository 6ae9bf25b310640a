/**
  The compact audit layout (packages/json/src/audit-storage.ts): logical documents are stored loose, in operation
  envelopes or in closed-version packs, and reading expands them again.  This module holds the data and what a layout
  and its expansion are; AuditStorage builds and reads them.
 */
module AuditLayout {
  import opened Wrappers
  import opened JsonValues

  // ---------- Documents ----------

  datatype Style = CanonicalStyle | OtherStyle(variant: nat)

  /** A file's text: JSON printed in some style, or text that does not parse. */
  datatype Text = Printed(style: Style, json: Json) | NotJson(raw: string)

  function Parse(text: Text): Option<Json> {
    if text.Printed? then Some(text.json) else None
  }

  function CanonicalText(json: Json): Text {
    Printed(CanonicalStyle, json)
  }

  /** The other directories of canonical documents. */
  datatype Namespace =
    | Schema | Refs | Versions | WorkItems | Todos | Undos | DeferredItems | Constraints | Assets

  /** The path of a file under `.routeledger`, by the namespace it falls in. */
  datatype Path =
    | ProjectPath
    | EventPath(name: string)
    | ReceiptPath(name: string)
    | PendingOperationPath(name: string)
    | ApprovalArtifactPath(name: string)
    | OtherCanonicalPath(namespace: Namespace, name: string)
    | AuditLayoutPath
    | OperationPath(stem: string)
    | PackPath(stem: string)

  predicate IsCanonicalPath(path: Path) {
    !path.AuditLayoutPath? && !path.OperationPath? && !path.PackPath?
  }

  datatype Document = Document(path: Path, content: Text)

  /** The first `operation_id` or `operationId` string met in a depth-first walk. */
  function Visit(value: Json): Option<string>
    decreases value
  {
    match value
    case Arr(items) => VisitItems(items)
    case Obj(fields) =>
      var snake, camel := StringField(value, "operation_id"), StringField(value, "operationId");
      if snake.Some? then snake else if camel.Some? then camel else VisitFields(fields)
    case _ => None
  }

  function VisitItems(items: seq<Json>): Option<string>
    decreases items
  {
    if items == [] then None
    else if Visit(items[0]).Some? then Visit(items[0])
    else VisitItems(items[1..])
  }

  function VisitFields(fields: seq<Field>): Option<string>
    decreases fields
  {
    if fields == [] then None
    else if Visit(fields[0].value).Some? then Visit(fields[0].value)
    else VisitFields(fields[1..])
  }

  function OperationIdOf(document: Document): Option<string> {
    if !document.path.EventPath? && !document.path.ReceiptPath? then None
    else if Parse(document.content).None? then None
    else
      var payload := Parse(document.content).value;
      var top := StringField(payload, "operation_id");
      if top.Some? then top else Visit(payload)
  }

  // ---------- Physical files ----------

  datatype Embedded = Embedded(path: Path, payload: Json)

  /** A physical file after parsing; `Unreadable` stands for a container that is malformed. */
  datatype File =
    | DocumentFile(content: Text)
    | LayoutFile
    | EnvelopeFile(operationId: string, documents: seq<Embedded>, digest: string)
    | PackFile(versionId: string, closedAt: string, documents: seq<Embedded>, digest: string)
    | Unreadable

  datatype PhysicalFile = PhysicalFile(path: Path, file: File)

  /** The files below a directory, by path. */
  type Tree = map<Path, File>

  /**
    The file-name stem of an id, the two payload digests, the order on paths, the validation of a document set beyond
    its paths, and what a file may read as (first) when a crash has cut short its copy (second).
   */
  datatype Environment = Environment(
    stem: string -> string,
    envelopeDigest: (string, seq<Embedded>) -> string,
    packDigest: (string, string, seq<Embedded>) -> string,
    pathLeq: (Path, Path) -> bool,
    valid: seq<Document> -> bool,
    cut: (File, File) -> bool)

  datatype PreservedPack = PreservedPack(path: Path, file: File, documents: seq<Document>)

  function Expand(embedded: seq<Embedded>): (documents: seq<Document>)
    ensures |documents| == |embedded|
    ensures forall i :: 0 <= i < |embedded| ==>
              documents[i] == Document(embedded[i].path, CanonicalText(embedded[i].payload))
  {
    seq(|embedded|, i requires 0 <= i < |embedded| => Document(embedded[i].path, CanonicalText(embedded[i].payload)))
  }

  /** The logical documents a physical file contributes; `None` when the file is an invalid container. */
  function DocumentsIn(env: Environment, path: Path, file: File): Option<seq<Document>> {
    match path
    case AuditLayoutPath => Some([])
    case OperationPath(_) =>
      if file.EnvelopeFile? && file.digest == env.envelopeDigest(file.operationId, file.documents)
      then Some(Expand(file.documents)) else None
    case PackPath(_) =>
      if file.PackFile? && file.digest == env.packDigest(file.versionId, file.closedAt, file.documents)
      then Some(Expand(file.documents)) else None
    case _ => Some(if file.DocumentFile? then [Document(path, file.content)] else [])
  }

  // ---------- Reading ----------

  ghost predicate Readable(env: Environment, files: map<Path, File>) {
    forall p <- files :: DocumentsIn(env, p, files[p]).Some?
  }

  function Contribution(env: Environment, files: map<Path, File>, p: Path): seq<Document>
    requires p in files
  {
    DocumentsIn(env, p, files[p]).GetOr([])
  }

  ghost predicate Holds(env: Environment, files: map<Path, File>, d: Document) {
    exists p <- files :: d in Contribution(env, files, p)
  }

  predicate DistinctPaths(documents: seq<Document>) {
    forall i, j :: 0 <= i < j < |documents| ==> documents[i].path != documents[j].path
  }

  /** No two containers, and no container twice, hold a document of the same path. */
  ghost predicate PathsHeldOnce(env: Environment, files: map<Path, File>) {
    && (forall p <- files :: DistinctPaths(Contribution(env, files, p)))
    && (forall p <- files, q <- files :: p != q ==>
          forall d <- Contribution(env, files, p), e <- Contribution(env, files, q) :: d.path != e.path)
  }

  // ---------- Layouts ----------

  function PathsOf(documents: seq<Document>): (paths: set<Path>)
    ensures forall p :: p in paths <==> exists d <- documents :: d.path == p
  {
    set d <- documents :: d.path
  }

  function PackedPaths(packs: seq<PreservedPack>): (paths: set<Path>)
    ensures forall p :: p in paths <==> exists pack <- packs :: exists d <- pack.documents :: d.path == p
  {
    set pack <- packs, d <- pack.documents :: d.path
  }

  /** The documents that go into the envelope of one operation, in their given order. */
  function GroupOf(documents: seq<Document>, packed: set<Path>, operationId: string): (group: seq<Document>)
    ensures forall d :: d in group <==> d in documents && d.path !in packed && OperationIdOf(d) == Some(operationId)
  {
    if documents == [] then []
    else
      var rest := GroupOf(documents[..|documents| - 1], packed, operationId);
      var last := documents[|documents| - 1];
      assert forall d :: d in documents <==> d in documents[..|documents| - 1] || d == last;
      if last.path !in packed && OperationIdOf(last) == Some(operationId) then rest + [last] else rest
  }

  /** What a container stores of a document: its path and its parsed value, never its text. */
  function Embed(d: Document): Embedded {
    Embedded(d.path, Parse(d.content).GetOr(Null))
  }

  function EmbedAll(group: seq<Document>): (embedded: seq<Embedded>)
    ensures |embedded| == |group| && forall i :: 0 <= i < |group| ==> embedded[i] == Embed(group[i])
  {
    seq(|group|, i requires 0 <= i < |group| => Embed(group[i]))
  }

  /** `embedded` holds each document of `group` once, in path order. */
  ghost predicate Embeds(env: Environment, group: seq<Document>, embedded: seq<Embedded>) {
    && multiset(embedded) == multiset(EmbedAll(group))
    && (forall i, j :: 0 <= i < j < |embedded| ==> env.pathLeq(embedded[i].path, embedded[j].path))
  }

  ghost predicate IsEnvelope(env: Environment, documents: seq<Document>, packed: set<Path>, f: PhysicalFile) {
    && f.file.EnvelopeFile?
    && f.path == OperationPath(env.stem(f.file.operationId))
    && GroupOf(documents, packed, f.file.operationId) != []
    && Embeds(env, GroupOf(documents, packed, f.file.operationId), f.file.documents)
    && f.file.digest == env.envelopeDigest(f.file.operationId, f.file.documents)
  }

  ghost predicate IsLoose(documents: seq<Document>, packed: set<Path>, f: PhysicalFile) {
    exists d <- documents :: d.path !in packed && OperationIdOf(d).None? && f == PhysicalFile(d.path, DocumentFile(d.content))
  }

  ghost predicate IsPack(packs: seq<PreservedPack>, f: PhysicalFile) {
    exists pack <- packs :: f == PhysicalFile(pack.path, pack.file)
  }

  /** The physical files of a compact layout: loose documents, the layout marker, one envelope per operation, the packs. */
  ghost predicate IsLayout(env: Environment, documents: seq<Document>, packs: seq<PreservedPack>, physical: seq<PhysicalFile>)
  {
    var packed := PackedPaths(packs);
    && (forall f <- physical ::
          || IsLoose(documents, packed, f) || f == PhysicalFile(AuditLayoutPath, LayoutFile)
          || IsEnvelope(env, documents, packed, f) || IsPack(packs, f))
    && (forall d <- documents :: d.path !in packed && OperationIdOf(d).None? ==>
          PhysicalFile(d.path, DocumentFile(d.content)) in physical)
    && PhysicalFile(AuditLayoutPath, LayoutFile) in physical
    && (forall id :: GroupOf(documents, packed, id) != [] ==>
          exists f <- physical :: f.file.EnvelopeFile? && f.file.operationId == id && IsEnvelope(env, documents, packed, f))
    && (forall pack <- packs :: PhysicalFile(pack.path, pack.file) in physical)
  }

  /** Every packed document is still in the set, with the same content. */
  ghost predicate PacksIntact(documents: seq<Document>, packs: seq<PreservedPack>) {
    forall pack <- packs :: forall d <- pack.documents :: d in documents
  }

  /** Files written one after the other: of two with one path the later wins. */
  function Written(physical: seq<PhysicalFile>): (files: map<Path, File>)
    ensures forall p <- files :: PhysicalFile(p, files[p]) in physical
    ensures forall f <- physical :: f.path in files
  {
    if physical == [] then map[]
    else
      var last := physical[|physical| - 1];
      assert forall f :: f in physical <==> f in physical[..|physical| - 1] || f == last;
      Written(physical[..|physical| - 1])[last.path := last.file]
  }
}
