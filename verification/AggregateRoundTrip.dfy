/**
  Laws of the aggregate codec: distinct paths, independence of collection order, round trip, and a fixpoint that the
  merge check (packages/json/src/merge-check.ts) accepts.
 */
module AggregateRoundTrip {
  import opened Wrappers
  import opened JsonValues
  import opened DocumentPaths
  import opened AggregateCodec
  import opened JsonKeys
  import opened JsonOrder
  import opened JsonPayloads
  import opened JsonReencoding
  import opened DigestPayloads
  import ApprovalCodec
  import Sorting

  // ---------- Distinct paths ----------

  ghost predicate DistinctRecords(records: seq<Record>) {
    forall i, j :: 0 <= i < j < |records| ==> PathOf(records[i]) != PathOf(records[j])
  }

  lemma {:induction false} JoinIsDistinctExactly(a: seq<Record>, b: seq<Record>)
    ensures DistinctRecords(a + b) <==> DistinctRecords(a) && DistinctRecords(b) && forall x <- a, y <- b :: PathOf(x) != PathOf(y)
  {
    hide PathOf;
    var ab := a + b;
    if DistinctRecords(ab) {
      forall i, j | 0 <= i < j < |a| ensures PathOf(a[i]) != PathOf(a[j]) { assert ab[i] == a[i] && ab[j] == a[j]; }
      forall i, j | 0 <= i < j < |b| ensures PathOf(b[i]) != PathOf(b[j]) {
        assert ab[|a| + i] == b[i] && ab[|a| + j] == b[j];
      }
      forall x <- a, y <- b ensures PathOf(x) != PathOf(y) {
        var i :| 0 <= i < |a| && a[i] == x;
        var j :| 0 <= j < |b| && b[j] == y;
        assert ab[i] == x && ab[|a| + j] == y;
      }
    } else {
      var i, j :| 0 <= i < j < |ab| && PathOf(ab[i]) == PathOf(ab[j]);
      assert i < |a| <= j ==> a[i] in a && b[j - |a|] in b;
    }
  }

  lemma UniqueIdsExactly(env: Environment, s: Snapshot)
    requires WellTyped(s) && AllEncodable(env, s)
    ensures UniqueIds(s) <==> forall kind :: DistinctRecords(Collection(s, kind))
  {
    hide RecordPath, EventMonth, Collection;
    forall kind, i, j | 0 <= i < j < |Collection(s, kind)|
      ensures var a, b := Collection(s, kind)[i], Collection(s, kind)[j];
              PathOf(a) != PathOf(b) <==> a.id != b.id || (kind.EventKind? && EventMonth(a.createdAt) != EventMonth(b.createdAt))
    {
      var a, b := Collection(s, kind)[i], Collection(s, kind)[j];
      assert a in Collection(s, kind) && b in Collection(s, kind);
      assert IsRecordOf(s, a) && IsRecordOf(s, b);
      assert Encodable(env, a) && Encodable(env, b);
      PathsAreInjective(a.kind, a.id, a.createdAt, b.kind, b.id, b.createdAt);
    }
  }

  lemma {:induction false} CollectionsAreDistinctExactly(env: Environment, s: Snapshot, kinds: seq<Kind>)
    requires WellTyped(s) && AllEncodable(env, s)
    requires forall i, j :: 0 <= i < j < |kinds| ==> kinds[i] != kinds[j]
    ensures DistinctRecords(AllRecords(s, kinds)) <==> forall i :: 0 <= i < |kinds| ==> DistinctRecords(Collection(s, kinds[i]))
    decreases |kinds|
  {
    hide PathOf, Collection;
    if kinds != [] {
      var rest, last := kinds[..|kinds| - 1], kinds[|kinds| - 1];
      CollectionsAreDistinctExactly(env, s, rest);
      JoinIsDistinctExactly(AllRecords(s, rest), Collection(s, last));
      forall x <- AllRecords(s, rest), y <- Collection(s, last) ensures PathOf(x) != PathOf(y) {
        AllRecordsHolds(s, rest, x);
        var i :| 0 <= i < |rest| && x in Collection(s, rest[i]);
        assert IsRecordOf(s, x) && IsRecordOf(s, y);
        OtherKindOtherPath(env, x, y);
      }
      assert forall i :: 0 <= i < |rest| ==> rest[i] == kinds[i];
    }
  }

  lemma OtherKindOtherPath(env: Environment, x: Record, y: Record)
    requires Encodable(env, x) && Encodable(env, y) && x.kind != y.kind
    ensures PathOf(x) != PathOf(y)
  {
    PathsAreInjective(x.kind, x.id, x.createdAt, y.kind, y.id, y.createdAt);
  }

  lemma RecordsAreDistinctExactly(env: Environment, s: Snapshot)
    requires WellTyped(s) && AllEncodable(env, s)
    ensures DistinctRecords(AllRecords(s, KINDS)) <==> UniqueIds(s)
  {
    hide PathOf, Collection, AllRecords, UniqueIds, DistinctRecords;
    forall i, j | 0 <= i < j < |KINDS| ensures KINDS[i] != KINDS[j] { KindsAreDistinct(i, j); }
    CollectionsAreDistinctExactly(env, s, KINDS);
    UniqueIdsExactly(env, s);
    if DistinctRecords(AllRecords(s, KINDS)) {
      forall kind ensures DistinctRecords(Collection(s, kind)) {
        KindsAreAll(kind);
        var i :| 0 <= i < |KINDS| && KINDS[i] == kind;
        assert DistinctRecords(Collection(s, KINDS[i]));
      }
    }
  }

  lemma RecordDocument(env: Environment, r: Record)
    requires Encodable(env, r)
    ensures PathOf(r) == Some(DocumentOf(env, r).path) && !IsFixedPath(DocumentOf(env, r).path)
  {
    PathsDispatch(r.kind, r.id, r.createdAt);
  }

  lemma {:induction false} FixedDocumentsStandApart(env: Environment, project: Project, made: seq<Document>)
    requires forall i :: 0 <= i < |made| ==> !IsFixedPath(made[i].path)
    ensures DistinctPaths(FixedDocuments(env, project) + made) <==> DistinctPaths(made)
  {
    var fixed := FixedDocuments(env, project);
    var all := fixed + made;
    assert SCHEMA_PATH[13] == 's' && PROJECT_PATH[13] == 'p' && CURRENT_REF_PATH[13] == 'r';
    assert forall i :: 0 <= i < |made| ==> all[3 + i] == made[i];
    if DistinctPaths(all) {
      forall i, j | 0 <= i < j < |made| ensures made[i].path != made[j].path { assert all[3 + i].path != all[3 + j].path; }
    }
  }

  lemma {:induction false} DocumentsAreDistinctExactly(env: Environment, records: seq<Record>, project: Project)
    requires forall r <- records :: Encodable(env, r)
    ensures DistinctPaths(FixedDocuments(env, project) + DocumentsOf(env, records)) <==> DistinctRecords(records)
  {
    hide PathOf, DocumentOf, Encodable, FixedDocuments;
    var made := DocumentsOf(env, records);
    forall i | 0 <= i < |records| ensures PathOf(records[i]) == Some(made[i].path) && !IsFixedPath(made[i].path) {
      assert records[i] in records;
      RecordDocument(env, records[i]);
    }
    FixedDocumentsStandApart(env, project, made);
    if DistinctPaths(made) {
      forall i, j | 0 <= i < j < |records| ensures PathOf(records[i]) != PathOf(records[j]) {
        assert made[i].path != made[j].path;
      }
    }
    if DistinctRecords(records) {
      forall i, j | 0 <= i < j < |made| ensures made[i].path != made[j].path {
        assert PathOf(records[i]) != PathOf(records[j]);
      }
    }
  }

  /** Encoded documents have pairwise distinct paths exactly when ids are unique within each kind. */
  lemma PathsAreDistinctExactly(env: Environment, s: Snapshot, documents: seq<Document>)
    requires WellTyped(s) && AllEncodable(env, s) && IsEncoding(env, s, documents)
    ensures DistinctPaths(documents) <==> UniqueIds(s)
  {
    hide PathOf, Collection, AllRecords, UniqueIds, FixedDocuments, DocumentsOf, Encodable;
    AllRecordsAreAll(s);
    RecordsAreDistinctExactly(env, s);
    DocumentsAreDistinctExactly(env, AllRecords(s, KINDS), s.project);
    var unsorted := FixedDocuments(env, s.project) + DocumentsOf(env, AllRecords(s, KINDS));
    if DistinctPaths(unsorted) {
      Sorting.PermutationKeepsDistinct((d: Document) => d.path, unsorted, documents);
    }
    if DistinctPaths(documents) {
      Sorting.PermutationKeepsDistinct((d: Document) => d.path, documents, unsorted);
    }
  }

  // ---------- Order ----------

  /** The same records in any order of the collections. */
  ghost predicate SameCollections(s: Snapshot, t: Snapshot) {
    s.project == t.project && forall kind :: multiset(Collection(s, kind)) == multiset(Collection(t, kind))
  }

  lemma {:induction false} SameRecords(s: Snapshot, t: Snapshot, kinds: seq<Kind>)
    requires SameCollections(s, t)
    ensures multiset(AllRecords(s, kinds)) == multiset(AllRecords(t, kinds))
    decreases |kinds|
  {
    if kinds != [] { SameRecords(s, t, kinds[..|kinds| - 1]); }
  }

  /** With unique ids the encoding does not depend on the order of any collection. */
  lemma EncodingIgnoresOrder(env: Environment, s: Snapshot, t: Snapshot, a: seq<Document>, b: seq<Document>)
    requires Sorting.TotalOrder(env.leq) && SameCollections(s, t)
    requires WellTyped(s) && AllEncodable(env, s) && UniqueIds(s)
    requires IsEncoding(env, s, a) && IsEncoding(env, t, b)
    ensures a == b
  {
    hide PathOf, Collection, AllRecords, UniqueIds, FixedDocuments, Encodable, DocumentOf;
    SameRecords(s, t, KINDS);
    Sorting.MapPermutation((r: Record) => DocumentOf(env, r), AllRecords(s, KINDS), AllRecords(t, KINDS));
    PathsAreDistinctExactly(env, s, a);
    assert multiset(a) == multiset(b);
    Sorting.SameMembers(a, b);
    Sorting.PermutationKeepsDistinct((d: Document) => d.path, a, b);
    Sorting.SortedIsUnique((d: Document) => d.path, env.leq, a, b);
  }

  // ---------- Round trip ----------

  lemma EncodingHolds(env: Environment, s: Snapshot, documents: seq<Document>, d: Document)
    requires AllEncodable(env, s) && IsEncoding(env, s, documents)
    ensures d in documents <==> d in FixedDocuments(env, s.project) || exists r :: IsRecordOf(s, r) && d == DocumentOf(env, r)
  {
    hide Collection, AllRecords, FixedDocuments, Encodable, DocumentOf;
    var fixed, made := FixedDocuments(env, s.project), DocumentsOf(env, AllRecords(s, KINDS));
    Sorting.SameMembers(documents, fixed + made);
    AllRecordsAreAll(s);
    if d in made {
      var i :| 0 <= i < |made| && made[i] == d;
      assert AllRecords(s, KINDS)[i] in AllRecords(s, KINDS);
    }
    if r :| IsRecordOf(s, r) && d == DocumentOf(env, r) {
      var i :| 0 <= i < |AllRecords(s, KINDS)| && AllRecords(s, KINDS)[i] == r;
      assert made[i] == d;
    }
  }

  /** What a record is when it comes back from disk. */
  function Reread(env: Environment, r: Record): Option<Record> {
    DecodeRecord(env, r.kind, EncodeRecord(env, r).GetOr(NO_RECORD))
  }

  /** The same content: free-form values may have their fields in another order. */
  predicate SameRecord(a: Record, b: Record) {
    && a.kind == b.kind && a.id == b.id && a.createdAt == b.createdAt
    && match (a.body, b.body)
       case (EventBody(f, m), EventBody(g, n)) => f == g && SameValue(m, n)
       case (ReceiptBody(f, m), ReceiptBody(g, n)) => f == g && SameValue(m, n)
       case (OperationBody(f, d), OperationBody(g, e)) => f == g && d.value == e.value && SameValue(d.payload, e.payload)
       case (ApprovalBody(c), ApprovalBody(d)) => ApprovalCodec.SameArtifact(c, d)
       case _ => a.body == b.body
  }

  /**
    What a record must be like to survive: metadata and digest payloads have their keys in camel case at every depth, and
    the gate snapshot of a digest has its lists; an artifact has an authorization id to hang its provenance on; operations
    and plain records pass the shape check of their decoder.
   */
  predicate Survives(env: Environment, r: Record) {
    match r.body
    case EventBody(_, metadata) => HasCamelKeys(metadata)
    case ReceiptBody(_, _) => true
    case OperationBody(fields, digest) => env.shapeOk(r.kind, fields) && ApprovalCodec.DigestSurvives(digest.payload)
    case ApprovalBody(artifact) =>
      ApprovalCodec.HasPlaceForProvenance(artifact) && ApprovalCodec.DigestSurvives(artifact.core.digest.payload)
    case PlainBody(fields) => env.shapeOk(r.kind, fields)
  }

  lemma RecordSurvivesExactly(env: Environment, r: Record)
    requires Sorting.TotalOrder(env.leq) && HasBodyOfKind(r) && EncodeRecord(env, r).Some?
    ensures Reread(env, r).Some? && SameRecord(Reread(env, r).value, r) <==> Survives(env, r)
  {
    hide SameValue, HasCamelKeys, EncodePayload, DecodePayload, IsJsonValue, SortJson, DecodeDigestPayload, IsComplete,
         ApprovalCodec.Encode, ApprovalCodec.Decode;
    match r.body
    case EventBody(_, metadata) => PayloadRoundTripExactly(env.leq, metadata);
    case OperationBody(_, digest) => DigestRoundTripExactly(env.leq, digest.payload);
    case ReceiptBody(_, result) => SortKeepsContent(env.leq, result);
    case ApprovalBody(artifact) => ApprovalCodec.ApprovalRoundTripExactly(env.leq, artifact);
    case PlainBody(_) =>
  }

  /** Whatever survives of it, a record that is read back is one of its kind with the same path. */
  lemma RereadKeepsPath(env: Environment, r: Record, x: Record)
    requires Sorting.TotalOrder(env.leq) && HasBodyOfKind(r) && Encodable(env, r) && Reread(env, r) == Some(x)
    ensures x.kind == r.kind && x.id == r.id && x.createdAt == r.createdAt && PathOf(x) == PathOf(r)
    ensures HasBodyOfKind(x) && Encodable(env, x)
  {
    hide RecordPath, EncodePayload, IsJsonValue, SortJson, SameValue, DecodeDigestPayload;
    match r.body
    case EventBody(_, metadata) => DecodedIsValue(EncodePayload(env.leq, metadata));
    case OperationBody(_, digest) => DecodedDigestIsValue(EncodePayload(env.leq, digest.payload));
    case ReceiptBody(_, result) => SortKeepsContent(env.leq, result);
    case ApprovalBody(artifact) =>
      ApprovalCodec.ApprovalRoundTripExactly(env.leq, artifact);
      DecodedDigestIsValue(EncodePayload(env.leq, artifact.core.digest.payload));
    case PlainBody(_) =>
  }

  lemma DecodedDigestIsValue(written: Json)
    ensures IsJsonValue(DecodeDigestPayload(written))
  {
    DecodedIsValue(written);
    CompletedIsValue(DecodePayload(written));
  }

  lemma DocumentDecodesAs(env: Environment, r: Record, kind: Kind)
    requires Encodable(env, r)
    ensures DecodedAs(env, DocumentOf(env, r), kind) == if kind == r.kind then Reread(env, r) else None
    ensures IsDecodable(env, DocumentOf(env, r)) <==> Reread(env, r).Some?
  {
    hide EncodeRecord, DecodeRecord;
    PathsDispatch(r.kind, r.id, r.createdAt);
    DecodedKindOnly(env, r, kind);
  }

  lemma DecodedKindOnly(env: Environment, r: Record, kind: Kind)
    requires Encodable(env, r) && KindOf(DocumentOf(env, r).path) == Some(r.kind)
    ensures kind != r.kind ==> DecodedAs(env, DocumentOf(env, r), kind) == None
  {
  }

  /** What the records of one collection are read back as. */
  ghost predicate Recovers(env: Environment, s: Snapshot, kind: Kind, x: Record) {
    exists r <- Collection(s, kind) :: Reread(env, r) == Some(x)
  }

  /** Decoding an encoding finds, in each collection, what each record's own codec makes of it. */
  lemma {:induction false} CollectionsComeBack(env: Environment, s: Snapshot, documents: seq<Document>, kind: Kind, x: Record)
    requires WellTyped(s) && AllEncodable(env, s) && IsEncoding(env, s, documents)
    ensures x in RecordsIn(env, documents, kind) <==> Recovers(env, s, kind, x)
  {
    hide Collection, AllRecords, KindOf, RecordPath, RecordsIn, Reread, DecodedAs, HasBodyOfKind, DocumentOf;
    if x in RecordsIn(env, documents, kind) {
      var d :| d in documents && DecodedAs(env, d, kind) == Some(x);
      if d in FixedDocuments(env, s.project) { FixedIsNoRecord(env, s.project, d, kind); }
      EncodingHolds(env, s, documents, d);
      var r :| IsRecordOf(s, r) && d == DocumentOf(env, r);
      DocumentDecodesAs(env, r, kind);
      var k := HasKind(s, r);
    }
    if r :| r in Collection(s, kind) && Reread(env, r) == Some(x) {
      assert IsRecordOf(s, r);
      EncodingHolds(env, s, documents, DocumentOf(env, r));
      DocumentDecodesAs(env, r, kind);
    }
  }

  lemma FixedIsNoRecord(env: Environment, project: Project, d: Document, kind: Kind)
    requires d in FixedDocuments(env, project)
    ensures DecodedAs(env, d, kind) == None
  {
  }

  /** The same records, each up to the order of fields inside free-form values. */
  ghost predicate AlikeRecords(a: seq<Record>, b: seq<Record>) {
    && (forall x <- a :: exists y <- b :: SameRecord(x, y))
    && (forall y <- b :: exists x <- a :: SameRecord(x, y))
  }

  /** With unique ids, decoding an encoding gives back the same records if and only if every record can survive. */
  lemma {:induction false} RoundTripExactly(env: Environment, s: Snapshot, documents: seq<Document>)
    requires Sorting.TotalOrder(env.leq)
    requires WellTyped(s) && AllEncodable(env, s) && UniqueIds(s) && IsEncoding(env, s, documents)
    ensures (forall kind :: AlikeRecords(RecordsIn(env, documents, kind), Collection(s, kind)))
       <==> forall r :: IsRecordOf(s, r) ==> Survives(env, r)
  {
    hide *;
    forall kind, x ensures x in RecordsIn(env, documents, kind) <==> Recovers(env, s, kind, x) {
      CollectionsComeBack(env, s, documents, kind, x);
    }
    if forall kind :: AlikeRecords(RecordsIn(env, documents, kind), Collection(s, kind)) {
      forall r | IsRecordOf(s, r) ensures Survives(env, r) {
        var kind := HasKind(s, r);
        var x := FindSame(RecordsIn(env, documents, kind), Collection(s, kind), r);
        RecoveredSurvives(env, s, kind, r, x);
      }
    }
    if forall r :: IsRecordOf(s, r) ==> Survives(env, r) {
      forall kind ensures AlikeRecords(RecordsIn(env, documents, kind), Collection(s, kind)) {
        SurvivorsAreRecovered(env, s, kind, RecordsIn(env, documents, kind));
      }
    }
  }

  lemma HasKind(s: Snapshot, r: Record) returns (kind: Kind)
    requires IsRecordOf(s, r)
    ensures r in Collection(s, kind)
  {
    kind :| r in Collection(s, kind);
  }

  lemma FindSame(a: seq<Record>, b: seq<Record>, y: Record) returns (x: Record)
    requires AlikeRecords(a, b) && y in b
    ensures x in a && SameRecord(x, y)
  {
    hide SameRecord;
    x :| x in a && SameRecord(x, y);
  }

  lemma RecordFits(env: Environment, s: Snapshot, kind: Kind, r: Record)
    requires WellTyped(s) && AllEncodable(env, s) && r in Collection(s, kind)
    ensures IsRecordOf(s, r) && r.kind == kind && HasBodyOfKind(r) && Encodable(env, r)
  {
    hide Encodable, HasBodyOfKind;
  }

  lemma SurvivorsAreRecovered(env: Environment, s: Snapshot, kind: Kind, decoded: seq<Record>)
    requires Sorting.TotalOrder(env.leq) && WellTyped(s) && AllEncodable(env, s)
    requires forall x :: x in decoded <==> Recovers(env, s, kind, x)
    requires forall r :: IsRecordOf(s, r) ==> Survives(env, r)
    ensures AlikeRecords(decoded, Collection(s, kind))
  {
    hide Collection, Survives, Reread, SameRecord, WellTyped, AllEncodable, HasBodyOfKind, EncodeRecord, PathOf;
    forall r <- Collection(s, kind) ensures Reread(env, r).Some? && SameRecord(Reread(env, r).value, r) {
      RecordFits(env, s, kind, r);
      RecordSurvivesExactly(env, r);
    }
    forall r <- Collection(s, kind) ensures exists x <- decoded :: SameRecord(x, r) {
      assert Recovers(env, s, kind, Reread(env, r).value);
    }
  }

  lemma RecoveredSurvives(env: Environment, s: Snapshot, kind: Kind, r: Record, x: Record)
    requires Sorting.TotalOrder(env.leq) && WellTyped(s) && AllEncodable(env, s) && UniqueIds(s)
    requires r in Collection(s, kind) && Recovers(env, s, kind, x) && SameRecord(x, r)
    ensures Survives(env, r)
  {
    hide Collection, Survives, Reread, UniqueIds, WellTyped, AllEncodable, HasBodyOfKind, EncodeRecord, RecordPath, SameValue;
    var q :| q in Collection(s, kind) && Reread(env, q) == Some(x);
    RecordFits(env, s, kind, q);
    RecordFits(env, s, kind, r);
    RereadKeepsPath(env, q, x);
    SamePathSameRecord(env, s, kind, q, r);
    RecordSurvivesExactly(env, r);
  }

  lemma SamePathSameRecord(env: Environment, s: Snapshot, kind: Kind, q: Record, r: Record)
    requires WellTyped(s) && AllEncodable(env, s) && UniqueIds(s)
    requires q in Collection(s, kind) && r in Collection(s, kind) && PathOf(q) == PathOf(r)
    ensures q == r
  {
    hide Collection, RecordPath, PathOf;
    UniqueIdsExactly(env, s);
    var i :| 0 <= i < |Collection(s, kind)| && Collection(s, kind)[i] == q;
    var j :| 0 <= j < |Collection(s, kind)| && Collection(s, kind)[j] == r;
    assert DistinctRecords(Collection(s, kind));
  }

  // ---------- Re-encoding ----------

  /**
    A record that is written as it was before: the keys its metadata or digest payload was written with come back from
    camel case, and the gate snapshot of its digest has its lists.
   */
  predicate IsStable(env: Environment, r: Record) {
    match r.body
    case EventBody(_, metadata) => HasStableKeys(EncodePayload(env.leq, metadata))
    case OperationBody(_, digest) => ApprovalCodec.DigestIsStable(EncodePayload(env.leq, digest.payload))
    case ApprovalBody(artifact) => ApprovalCodec.DigestIsStable(EncodePayload(env.leq, artifact.core.digest.payload))
    case _ => true
  }

  /** A record that was read back is written as it was before if and only if it is stable, whether or not it survived. */
  lemma RecordReencodesExactly(env: Environment, r: Record, x: Record)
    requires Sorting.TotalOrder(env.leq) && HasBodyOfKind(r) && EncodeRecord(env, r).Some? && Reread(env, r) == Some(x)
    ensures EncodeRecord(env, x) == EncodeRecord(env, r) <==> IsStable(env, r)
  {
    hide EncodePayload, DecodePayload, IsJsonValue, SortJson, HasStableKeys, DecodeDigestPayload, IsComplete, IsWrittenForm,
         ApprovalCodec.Encode, ApprovalCodec.Decode;
    match r.body
    case EventBody(_, metadata) => PayloadReencodesExactly(env.leq, metadata);
    case OperationBody(_, digest) =>
      EncodedIsWritten(env.leq, digest.payload);
      DigestReencodesExactly(env.leq, EncodePayload(env.leq, digest.payload));
    case ReceiptBody(_, result) => SortTwiceIsOnce(env.leq, result);
    case ApprovalBody(artifact) => ApprovalCodec.ApprovalRoundTripExactly(env.leq, artifact);
    case PlainBody(_) =>
  }

  /** What a record of an encoding becomes when the encoding is decoded and encoded again. */
  lemma RereadRecord(env: Environment, s: Snapshot, documents: seq<Document>, t: Snapshot, r: Record) returns (x: Record)
    requires Sorting.TotalOrder(env.leq) && WellTyped(s) && AllEncodable(env, s) && IsEncoding(env, s, documents)
    requires IsDecoding(env, documents, t) && IsRecordOf(s, r)
    ensures Reread(env, r) == Some(x) && IsRecordOf(t, x) && HasBodyOfKind(r) && Encodable(env, r) && Encodable(env, x)
    ensures DocumentOf(env, x).path == DocumentOf(env, r).path
    ensures DocumentOf(env, x) == DocumentOf(env, r) <==> IsStable(env, r)
  {
    hide RecordsIn, IsEncoding, Collection, RecordPath, Reread, HasBodyOfKind, DecodeRecord, IsStable, WellTyped, AllEncodable,
         IsDecodable;
    var kind := HasKind(s, r);
    RecordFits(env, s, kind, r);
    EncodingHolds(env, s, documents, DocumentOf(env, r));
    DocumentDecodesAs(env, r, kind);
    x := Reread(env, r).value;
    CollectionsComeBack(env, s, documents, kind, x);
    assert x in Collection(t, kind);
    RereadKeepsPath(env, r, x);
    RecordReencodesExactly(env, r, x);
  }

  /** Every record that was decoded from an encoding is what a record of it was read back as. */
  lemma DecodedFromRecord(env: Environment, s: Snapshot, documents: seq<Document>, t: Snapshot, x: Record) returns (r: Record)
    requires Sorting.TotalOrder(env.leq) && WellTyped(s) && AllEncodable(env, s) && IsEncoding(env, s, documents)
    requires IsDecoding(env, documents, t) && IsRecordOf(t, x)
    ensures IsRecordOf(s, r) && Reread(env, r) == Some(x) && r.kind == x.kind && x in Collection(t, r.kind)
    ensures HasBodyOfKind(x) && Encodable(env, x)
  {
    hide RecordsIn, IsEncoding, Collection, RecordPath, Reread, HasBodyOfKind, EncodeRecord, DecodeRecord, IsDecodable, WellTyped,
         AllEncodable;
    var kind := HasKind(t, x);
    CollectionsComeBack(env, s, documents, kind, x);
    r :| r in Collection(s, kind) && Reread(env, r) == Some(x);
    RecordFits(env, s, kind, r);
    RereadKeepsPath(env, r, x);
  }

  lemma DecodedSnapshotIsEncodable(env: Environment, s: Snapshot, documents: seq<Document>, t: Snapshot)
    requires Sorting.TotalOrder(env.leq) && WellTyped(s) && AllEncodable(env, s) && IsEncoding(env, s, documents)
    requires IsDecoding(env, documents, t)
    ensures WellTyped(t) && AllEncodable(env, t)
  {
    hide RecordsIn, IsEncoding, Collection, Encodable, HasBodyOfKind, IsDecodable, AllEncodable, IsRecordOf, Reread;
    forall kind, x | x in Collection(t, kind) ensures x.kind == kind && HasBodyOfKind(x) && Encodable(env, x) {
      CollectionsComeBack(env, s, documents, kind, x);
      DecodedFits(env, s, kind, x);
    }
    AllEncodableFrom(env, t);
  }

  lemma DecodedFits(env: Environment, s: Snapshot, kind: Kind, x: Record)
    requires Sorting.TotalOrder(env.leq) && WellTyped(s) && AllEncodable(env, s) && Recovers(env, s, kind, x)
    ensures x.kind == kind && HasBodyOfKind(x) && Encodable(env, x)
  {
    hide Collection, Encodable, HasBodyOfKind, WellTyped, AllEncodable, Reread;
    var r :| r in Collection(s, kind) && Reread(env, r) == Some(x);
    RecordFits(env, s, kind, r);
    RereadKeepsPath(env, r, x);
  }

  lemma AllEncodableFrom(env: Environment, t: Snapshot)
    requires forall kind, x | x in Collection(t, kind) :: Encodable(env, x)
    ensures AllEncodable(env, t)
  {
    hide Encodable, Collection;
  }

  lemma {:induction false} DecodedRecordsAreDistinct(env: Environment, documents: seq<Document>, kind: Kind)
    requires DistinctPaths(documents)
    requires forall d <- documents :: DecodedAs(env, d, kind).Some? ==> PathOf(DecodedAs(env, d, kind).value) == Some(d.path)
    ensures DistinctRecords(RecordsIn(env, documents, kind))
    decreases |documents|
  {
    hide DecodedAs, PathOf;
    if documents != [] {
      var rest := documents[..|documents| - 1];
      DecodedRecordsAreDistinct(env, rest, kind);
      var records := RecordsIn(env, rest, kind);
      forall i | 0 <= i < |records| ensures PathOf(records[i]) != Some(documents[|documents| - 1].path) {
        assert records[i] in records;
        var d :| d in rest && DecodedAs(env, d, kind) == Some(records[i]);
        assert d in documents;
      }
      assert documents[|documents| - 1] in documents;
    }
  }

  lemma DecodedKeepsDocumentPath(env: Environment, s: Snapshot, documents: seq<Document>, d: Document, kind: Kind)
    requires Sorting.TotalOrder(env.leq) && WellTyped(s) && AllEncodable(env, s) && IsEncoding(env, s, documents)
    requires d in documents && DecodedAs(env, d, kind).Some?
    ensures PathOf(DecodedAs(env, d, kind).value) == Some(d.path)
  {
    hide IsEncoding, Collection, RecordPath, Reread, HasBodyOfKind, WellTyped, AllEncodable, DecodedAs, EncodeRecord;
    if d in FixedDocuments(env, s.project) { FixedIsNoRecord(env, s.project, d, kind); }
    EncodingHolds(env, s, documents, d);
    var r :| IsRecordOf(s, r) && d == DocumentOf(env, r);
    var k := HasKind(s, r);
    RecordFits(env, s, k, r);
    DocumentDecodesAs(env, r, kind);
    RereadKeepsPath(env, r, Reread(env, r).value);
  }

  lemma DecodedSnapshotHasUniqueIds(env: Environment, s: Snapshot, documents: seq<Document>, t: Snapshot)
    requires Sorting.TotalOrder(env.leq)
    requires WellTyped(s) && AllEncodable(env, s) && UniqueIds(s) && IsEncoding(env, s, documents)
    requires IsDecoding(env, documents, t)
    ensures WellTyped(t) && AllEncodable(env, t) && UniqueIds(t)
  {
    hide RecordsIn, DecodedAs, PathOf, IsEncoding, AllEncodable, UniqueIds, Encodable, WellTyped, DistinctPaths, DistinctRecords;
    DecodedSnapshotIsEncodable(env, s, documents, t);
    PathsAreDistinctExactly(env, s, documents);
    forall kind ensures DistinctRecords(Collection(t, kind)) {
      forall d <- documents | DecodedAs(env, d, kind).Some? ensures PathOf(DecodedAs(env, d, kind).value) == Some(d.path) {
        DecodedKeepsDocumentPath(env, s, documents, d, kind);
      }
      DecodedRecordsAreDistinct(env, documents, kind);
    }
    UniqueIdsExactly(env, t);
  }

  /** Two encodings of one another's records: `t` was decoded from `documents`, and `again` is its encoding. */
  ghost predicate IsReencoding(env: Environment, s: Snapshot, documents: seq<Document>, t: Snapshot, again: seq<Document>) {
    && WellTyped(s) && AllEncodable(env, s) && UniqueIds(s) && IsEncoding(env, s, documents)
    && IsDecoding(env, documents, t) && t.project == s.project
    && WellTyped(t) && AllEncodable(env, t) && IsEncoding(env, t, again)
  }

  /** A record's document is the same in both encodings if and only if the record is stable; the path always is. */
  lemma RecordInBoth(env: Environment, s: Snapshot, documents: seq<Document>, t: Snapshot, again: seq<Document>, r: Record)
    requires Sorting.TotalOrder(env.leq) && IsReencoding(env, s, documents, t, again) && IsRecordOf(s, r)
    ensures DocumentOf(env, r) in documents
    ensures exists e <- again :: e.path == DocumentOf(env, r).path && (e == DocumentOf(env, r) <==> IsStable(env, r))
  {
    hide IsEncoding, WellTyped, AllEncodable, UniqueIds, DocumentOf, IsStable, IsDecoding, IsRecordOf, Reread, HasBodyOfKind, Encodable;
    var x := RereadRecord(env, s, documents, t, r);
    EncodingHolds(env, s, documents, DocumentOf(env, r));
    EncodingHolds(env, t, again, DocumentOf(env, x));
    assert DocumentOf(env, x) in again;
  }

  /** A document of the second encoding is a fixed one, or the document of a record that came back. */
  lemma AgainComesFrom(env: Environment, s: Snapshot, documents: seq<Document>, t: Snapshot, again: seq<Document>, e: Document)
    requires Sorting.TotalOrder(env.leq) && IsReencoding(env, s, documents, t, again) && e in again
    ensures e in FixedDocuments(env, s.project) || exists r :: IsRecordOf(s, r) && DocumentOf(env, r).path == e.path
  {
    hide IsEncoding, WellTyped, AllEncodable, UniqueIds, DocumentOf, IsDecoding, IsRecordOf, Reread, HasBodyOfKind, Encodable,
         FixedDocuments, IsStable, Collection;
    EncodingHolds(env, t, again, e);
    if x :| IsRecordOf(t, x) && e == DocumentOf(env, x) {
      var r := DecodedFromRecord(env, s, documents, t, x);
      var y := RereadRecord(env, s, documents, t, r);
    }
  }

  /** Encoding what was decoded from an encoding gives the same documents again if and only if every record is stable. */
  lemma ReencodingIsFixpointExactly(env: Environment, s: Snapshot, documents: seq<Document>, t: Snapshot, again: seq<Document>)
    requires Sorting.TotalOrder(env.leq) && IsReencoding(env, s, documents, t, again)
    ensures again == documents <==> forall r :: IsRecordOf(s, r) ==> IsStable(env, r)
    ensures DistinctPaths(again) && DistinctPaths(documents)
  {
    hide RecordsIn, PathOf, AllEncodable, Encodable, WellTyped, IsDecoding, AllRecords, FixedDocuments, UniqueIds, DocumentOf,
         IsStable, IsRecordOf;
    DecodedSnapshotHasUniqueIds(env, s, documents, t);
    PathsAreDistinctExactly(env, s, documents);
    PathsAreDistinctExactly(env, t, again);
    if again == documents {
      forall r | IsRecordOf(s, r) ensures IsStable(env, r) {
        RecordInBoth(env, s, documents, t, again, r);
        var e :| e in again && e.path == DocumentOf(env, r).path && (e == DocumentOf(env, r) <==> IsStable(env, r));
        SamePathSameDocument(documents, e, DocumentOf(env, r));
      }
    }
    if forall r :: IsRecordOf(s, r) ==> IsStable(env, r) {
      forall d ensures d in again <==> d in documents {
        StableIsInBoth(env, s, documents, t, again, d);
      }
      Sorting.SortedIsUnique((d: Document) => d.path, env.leq, again, documents);
    }
  }

  lemma StableIsInBoth(env: Environment, s: Snapshot, documents: seq<Document>, t: Snapshot, again: seq<Document>, d: Document)
    requires Sorting.TotalOrder(env.leq) && IsReencoding(env, s, documents, t, again) && DistinctPaths(again)
    requires forall r :: IsRecordOf(s, r) ==> IsStable(env, r)
    ensures d in again <==> d in documents
  {
    hide IsEncoding, WellTyped, AllEncodable, UniqueIds, DocumentOf, IsDecoding, IsRecordOf, FixedDocuments, IsStable, Collection,
         DistinctPaths, Encodable;
    EncodingHolds(env, s, documents, d);
    if d in documents && d !in FixedDocuments(env, s.project) {
      var r :| IsRecordOf(s, r) && d == DocumentOf(env, r);
      RecordInBoth(env, s, documents, t, again, r);
    }
    if d in FixedDocuments(env, s.project) { EncodingHolds(env, t, again, d); }
    if d in again && d !in FixedDocuments(env, s.project) {
      AgainComesFrom(env, s, documents, t, again, d);
      var r :| IsRecordOf(s, r) && DocumentOf(env, r).path == d.path;
      RecordInBoth(env, s, documents, t, again, r);
      var e :| e in again && e.path == DocumentOf(env, r).path && (e == DocumentOf(env, r) <==> IsStable(env, r));
      SamePathSameDocument(again, d, e);
    }
  }

  lemma SamePathSameDocument(documents: seq<Document>, d: Document, e: Document)
    requires DistinctPaths(documents) && d in documents && e in documents && d.path == e.path
    ensures d == e
  {
  }
}
