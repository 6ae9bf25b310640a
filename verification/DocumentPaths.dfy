/** Canonical document paths (packages/json/src/document-descriptors.ts). */
module DocumentPaths {
  import opened Wrappers

  datatype Kind =
    | VersionKind | WorkItemKind | TodoKind | UndoKind | DeferredItemKind | ConstraintKind | AssetKind
    | EventKind | PendingOperationKind | ApprovalArtifactKind | OrdinaryWriteReceiptKind

  const SCHEMA_PATH := ".routeledger/schema/routeledger.schema.json"
  const PROJECT_PATH := ".routeledger/project.json"
  const CURRENT_REF_PATH := ".routeledger/refs/current.json"

  function Namespace(kind: Kind): string {
    match kind
    case VersionKind => ".routeledger/versions/"
    case WorkItemKind => ".routeledger/work_items/"
    case TodoKind => ".routeledger/todos/"
    case UndoKind => ".routeledger/undos/"
    case DeferredItemKind => ".routeledger/deferred_items/"
    case ConstraintKind => ".routeledger/constraints/"
    case AssetKind => ".routeledger/assets/"
    case EventKind => ".routeledger/events/"
    case PendingOperationKind => ".routeledger/pending_operations/"
    case ApprovalArtifactKind => ".routeledger/approval_artifacts/"
    case OrdinaryWriteReceiptKind => ".routeledger/ordinary_write_receipts/"
  }

  /** `id.slice(0, 2).padEnd(2, "_")`. */
  function IdPrefix(id: string): (prefix: string)
    ensures |prefix| == 2
  {
    if |id| >= 2 then id[..2] else if |id| == 1 then id + "_" else "__"
  }

  predicate AreDigits(s: string) {
    forall c <- s :: '0' <= c <= '9'
  }

  /** `yyyy/mm` of a creation time, if it starts with `yyyy-mm`. */
  function EventMonth(createdAt: string): (month: Option<string>)
    ensures month.Some? ==> |month.value| == 7
  {
    if |createdAt| >= 7 && AreDigits(createdAt[..4]) && createdAt[4] == '-' && AreDigits(createdAt[5..7])
    then Some(createdAt[..4] + "/" + createdAt[5..7]) else None
  }

  /** A creation time is filed exactly when it starts with four digits, a dash and two digits, and then under those. */
  lemma EventMonthExactly(createdAt: string)
    ensures EventMonth(createdAt).Some? <==>
              && |createdAt| >= 7 && createdAt[4] == '-'
              && forall i :: i in {0, 1, 2, 3, 5, 6} ==> createdAt[i] in "0123456789"
    ensures EventMonth(createdAt).Some? ==>
              EventMonth(createdAt).value == createdAt[..4] + "/" + createdAt[5..7]
  {
    if |createdAt| >= 7 {
      DigitsByPlace(createdAt[..4]);
      DigitsByPlace(createdAt[5..7]);
      assert createdAt[..4][0] == createdAt[0] && createdAt[..4][1] == createdAt[1] && createdAt[..4][2] == createdAt[2]
          && createdAt[..4][3] == createdAt[3] && createdAt[5..7][0] == createdAt[5] && createdAt[5..7][1] == createdAt[6];
    }
  }

  lemma DigitsByPlace(s: string)
    ensures AreDigits(s) <==> forall i :: 0 <= i < |s| ==> s[i] in "0123456789"
  {
    assert forall c: char :: '0' <= c <= '9' <==> c in "0123456789";
    if AreDigits(s) {
      forall i | 0 <= i < |s| ensures s[i] in "0123456789" { assert s[i] in s; }
    }
  }

  /** The directory below the namespace; events are filed by month and need a well-formed creation time. */
  function Directory(kind: Kind, id: string, createdAt: string): Option<string> {
    if kind.EventKind? then EventMonth(createdAt) else Some(IdPrefix(id))
  }

  function RecordPath(kind: Kind, id: string, createdAt: string): Option<string> {
    match Directory(kind, id, createdAt)
    case None => None
    case Some(directory) => Some(Namespace(kind) + directory + "/" + id + ".json")
  }

  /** The two characters after `.routeledger/` tell every document kind apart. */
  function Tag(path: string): (char, char)
    requires |path| >= 15
  {
    (path[13], path[14])
  }

  function NamespaceTag(kind: Kind): (tag: (char, char))
    ensures |Namespace(kind)| >= 15 && tag == Tag(Namespace(kind))
  {
    match kind
    case VersionKind => ('v', 'e')
    case WorkItemKind => ('w', 'o')
    case TodoKind => ('t', 'o')
    case UndoKind => ('u', 'n')
    case DeferredItemKind => ('d', 'e')
    case ConstraintKind => ('c', 'o')
    case AssetKind => ('a', 's')
    case EventKind => ('e', 'v')
    case PendingOperationKind => ('p', 'e')
    case ApprovalArtifactKind => ('a', 'p')
    case OrdinaryWriteReceiptKind => ('o', 'r')
  }

  lemma TagsAreInjective(kind: Kind, other: Kind)
    ensures NamespaceTag(kind) == NamespaceTag(other) <==> kind == other
  {
  }

  lemma FixedTags(kind: Kind)
    ensures NamespaceTag(kind) !in {Tag(SCHEMA_PATH), Tag(PROJECT_PATH), Tag(CURRENT_REF_PATH)}
  {
    assert SCHEMA_PATH[13] == 's' && PROJECT_PATH[13] == 'p' && PROJECT_PATH[14] == 'r' && CURRENT_REF_PATH[13] == 'r';
  }

  lemma PrefixHasTag(kind: Kind, path: string)
    requires Namespace(kind) <= path
    ensures |path| >= 15 && Tag(path) == NamespaceTag(kind)
  {
    assert path[13] == Namespace(kind)[13] && path[14] == Namespace(kind)[14];
  }

  lemma SamePartsExactly(namespace: string, directory: string, id: string, directory': string, id': string)
    requires |directory| == |directory'|
    ensures namespace + directory + "/" + id + ".json" == namespace + directory' + "/" + id' + ".json"
       <==> directory == directory' && id == id'
  {
    var path, path' := namespace + directory + "/" + id + ".json", namespace + directory' + "/" + id' + ".json";
    var n, m := |namespace|, |directory|;
    if path == path' {
      assert path[n..n + m] == directory && path'[n..n + m] == directory';
      assert path[n + m + 1..|path| - 5] == id && path'[n + m + 1..|path| - 5] == id';
    }
  }

  /** Two records share a path exactly when they share kind, id and, for events, month: for ids of any shape. */
  lemma PathsAreInjective(kind: Kind, id: string, createdAt: string, kind': Kind, id': string, createdAt': string)
    requires RecordPath(kind, id, createdAt).Some? && RecordPath(kind', id', createdAt').Some?
    ensures RecordPath(kind, id, createdAt) == RecordPath(kind', id', createdAt')
       <==> kind == kind' && id == id' && (kind.EventKind? ==> EventMonth(createdAt) == EventMonth(createdAt'))
  {
    hide Namespace, EventMonth;
    var path := RecordPath(kind, id, createdAt).value;
    if kind == kind' {
      SamePartsExactly(Namespace(kind), Directory(kind, id, createdAt).value, id, Directory(kind', id', createdAt').value, id');
    } else {
      PrefixHasTag(kind, path);
      PrefixHasTag(kind', RecordPath(kind', id', createdAt').value);
      TagsAreInjective(kind, kind');
    }
  }

  /** The kind a decoder finds for a path, trying the namespaces in turn. */
  function KindOf(path: string): (kind: Option<Kind>)
    ensures kind.Some? ==> Namespace(kind.value) <= path
  {
    if Namespace(VersionKind) <= path then Some(VersionKind)
    else if Namespace(WorkItemKind) <= path then Some(WorkItemKind)
    else if Namespace(TodoKind) <= path then Some(TodoKind)
    else if Namespace(UndoKind) <= path then Some(UndoKind)
    else if Namespace(DeferredItemKind) <= path then Some(DeferredItemKind)
    else if Namespace(ConstraintKind) <= path then Some(ConstraintKind)
    else if Namespace(AssetKind) <= path then Some(AssetKind)
    else if Namespace(EventKind) <= path then Some(EventKind)
    else if Namespace(PendingOperationKind) <= path then Some(PendingOperationKind)
    else if Namespace(ApprovalArtifactKind) <= path then Some(ApprovalArtifactKind)
    else if Namespace(OrdinaryWriteReceiptKind) <= path then Some(OrdinaryWriteReceiptKind)
    else None
  }

  lemma KindOfHasPrefix(path: string, kind: Kind)
    requires Namespace(kind) <= path
    ensures KindOf(path).Some?
  {
    match kind
    case VersionKind =>
    case WorkItemKind =>
    case TodoKind =>
    case UndoKind =>
    case DeferredItemKind =>
    case ConstraintKind =>
    case AssetKind =>
    case EventKind =>
    case PendingOperationKind =>
    case ApprovalArtifactKind =>
    case OrdinaryWriteReceiptKind =>
  }

  /** Decoding dispatches every record path to its own kind, and no record path is one of the fixed documents. */
  lemma PathsDispatch(kind: Kind, id: string, createdAt: string)
    requires RecordPath(kind, id, createdAt).Some?
    ensures KindOf(RecordPath(kind, id, createdAt).value) == Some(kind)
    ensures RecordPath(kind, id, createdAt).value !in {SCHEMA_PATH, PROJECT_PATH, CURRENT_REF_PATH}
  {
    hide KindOf, Namespace, NamespaceTag;
    var path := RecordPath(kind, id, createdAt).value;
    KindOfHasPrefix(path, kind);
    PrefixHasTag(kind, path);
    PrefixHasTag(KindOf(path).value, path);
    TagsAreInjective(KindOf(path).value, kind);
    FixedTags(kind);
  }
}
