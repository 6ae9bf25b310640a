/** The merge check (packages/json/src/merge-check.ts): decode the documents, encode again, compare. */
module MergeCheck {
  import opened Wrappers
  import opened DocumentPaths
  import opened AggregateCodec
  import opened AggregateRoundTrip
  import Sorting

  function PathsOf(documents: seq<Document>): (paths: set<string>)
    ensures forall p :: p in paths <==> exists d <- documents :: d.path == p
  {
    set d <- documents :: d.path
  }

  /** The right side has this very document; of two with one path the later counts. */
  predicate IsMatched(right: map<string, Document>, d: Document) {
    d.path in right && right[d.path] == d
  }

  /** A document of this path is missing or different on one side. */
  ghost predicate IsMismatch(left: seq<Document>, right: seq<Document>, path: string) {
    || (exists d <- left :: d.path == path && !IsMatched(ByPath(right), d))
    || (path in PathsOf(right) && path !in PathsOf(left))
  }

  lemma {:induction false} ByPathHasPaths(documents: seq<Document>)
    ensures ByPath(documents).Keys == PathsOf(documents)
    decreases |documents|
  {
    if documents != [] {
      var rest, last := documents[..|documents| - 1], documents[|documents| - 1];
      ByPathHasPaths(rest);
      assert documents == rest + [last];
    }
  }

  method FindDocumentContentMismatches(left: seq<Document>, right: seq<Document>) returns (mismatches: set<string>)
    ensures forall path :: path in mismatches <==> IsMismatch(left, right, path)
  {
    hide ByPath;
    ByPathFinds(right);
    ByPathHasPaths(right);
    var rightByPath := ByPath(right);
    var leftPaths, rightPaths := PathsOf(left), PathsOf(right);
    mismatches := {};
    for i := 0 to |left|
      invariant forall path :: path in mismatches <==> exists d <- left[..i] :: d.path == path && !IsMatched(rightByPath, d)
    {
      var d := left[i];
      assert left[..i + 1] == left[..i] + [d];
      if d.path !in rightByPath || rightByPath[d.path].content != d.content {
        mismatches := mismatches + {d.path};
      }
    }
    assert left[..|left|] == left;
    for i := 0 to |right|
      invariant forall path :: path in mismatches <==>
                  || (exists d <- left :: d.path == path && !IsMatched(rightByPath, d))
                  || (path in PathsOf(right[..i]) && path !in leftPaths)
    {
      assert right[..i + 1] == right[..i] + [right[i]];
      if right[i].path !in leftPaths { mismatches := mismatches + {right[i].path}; }
    }
    assert right[..|right|] == right;
    for i := 0 to |left|
      invariant forall path :: path in mismatches <==> IsMismatch(left, right, path)
    {
      if left[i].path !in rightPaths {
        assert left[i] in left && !IsMatched(rightByPath, left[i]);
        mismatches := mismatches + {left[i].path};
      }
    }
  }

  /** Nothing is reported exactly when both sides hold the same documents. */
  lemma NoMismatchExactly(left: seq<Document>, right: seq<Document>)
    requires DistinctPaths(left) && DistinctPaths(right)
    ensures (forall path :: !IsMismatch(left, right, path)) <==> forall d :: d in left <==> d in right
  {
    hide ByPath;
    ByPathFinds(right);
    ByPathHasPaths(right);
    if forall path :: !IsMismatch(left, right, path) {
      forall d ensures d in left <==> d in right {
        assert !IsMismatch(left, right, d.path);
        if d in left { assert IsMatched(ByPath(right), d); }
        if d in right {
          var e :| e in left && e.path == d.path;
          assert IsMatched(ByPath(right), e);
        }
      }
    }
  }

  datatype MergeIssue = DecodeFailed(error: CodecError) | CanonicalMismatch(path: string)

  /** The project's own codec gives it back. */
  ghost predicate Lawful(env: Environment) {
    && Sorting.TotalOrder(env.leq)
    && forall project :: env.decodeProject(env.encodeProject(project)) == Some(project)
  }

  /** `documents` encode an aggregate that decoding accepts. */
  ghost predicate IsWritten(env: Environment, s: Snapshot, documents: seq<Document>) {
    && WellTyped(s) && AllEncodable(env, s) && UniqueIds(s) && IsEncoding(env, s, documents)
    && (forall d <- documents :: IsDecodable(env, d))
    && env.lifecycleOk(RecordSet(env, documents))
  }

  /** Decoding accepts a written document set and finds its project. */
  lemma WrittenDecodes(env: Environment, s: Snapshot, documents: seq<Document>)
    requires Lawful(env) && IsWritten(env, s, documents)
    ensures DistinctPaths(documents)
    ensures Document(PROJECT_PATH, ProjectContent(env.encodeProject(s.project))) in documents
    ensures Document(CURRENT_REF_PATH, CurrentRefContent(s.project.id, s.project.currentVersionId)) in documents
    ensures forall d <- documents :: d.path == PROJECT_PATH ==> d.content == ProjectContent(env.encodeProject(s.project))
  {
    hide AllRecords, WellTyped, UniqueIds, IsDecodable, RecordSet;
    PathsAreDistinctExactly(env, s, documents);
    var d := Document(PROJECT_PATH, ProjectContent(env.encodeProject(s.project)));
    var ref := Document(CURRENT_REF_PATH, CurrentRefContent(s.project.id, s.project.currentVersionId));
    assert d == FixedDocuments(env, s.project)[1] && ref == FixedDocuments(env, s.project)[2];
    EncodingHolds(env, s, documents, d);
    EncodingHolds(env, s, documents, ref);
  }

  /** `documents` decode to `t`. */
  ghost predicate DecodesTo(env: Environment, documents: seq<Document>, t: Snapshot) {
    exists ordered :: IsOrdered(env, documents, ordered) && IsAggregateOf(env, ordered, t)
  }

  /** The issues found by comparing `documents` with what their aggregate `t` encodes to. */
  ghost predicate ReportsMismatches(env: Environment, documents: seq<Document>, t: Snapshot, issues: set<MergeIssue>) {
    exists again :: IsEncoding(env, t, again)
                    && forall issue :: issue in issues <==> issue.CanonicalMismatch? && IsMismatch(documents, again, issue.path)
  }

  /**
    `runRouteLedgerJsonMergeCheck` on a validated document set; an encoder that throws is the Failure.  It reports the
    decoding error of a set that is no aggregate, and otherwise exactly the paths where the set is not what its
    aggregate encodes to.  Of a set that the codec wrote, from whatever aggregate `origin`, it reports exactly the records
    that are not stable: events and digests with keys that the trip through camel case forgets, and digests whose gate
    snapshot gains lists.
   */
  method RunMergeCheck(env: Environment, documents: seq<Document>, ghost origin: Snapshot)
    returns (r: Result<set<MergeIssue>, CodecError>)
    requires Sorting.TotalOrder(env.leq)
    ensures Lawful(env) && IsWritten(env, origin, documents) ==>
              r.Success? && forall issue :: issue in r.value <==> issue.CanonicalMismatch? && IsUnstableAt(env, origin, issue.path)
    ensures r.Failure? ==> exists t :: DecodesTo(env, documents, t) && !AllEncodable(env, t)
    ensures r.Success? ==>
              || ((forall t :: !DecodesTo(env, documents, t)) && exists error :: r.value == {DecodeFailed(error)})
              || exists t :: DecodesTo(env, documents, t) && AllEncodable(env, t) && ReportsMismatches(env, documents, t, r.value)
  {
    hide Lawful, IsWritten, WellTyped, AllEncodable, UniqueIds, IsEncoding, IsMismatch, IsOrdered, IsAggregateOf, IsUnstableAt,
         IsReencoding;
    var decoded := Decode(env, documents);
    if Lawful(env) && IsWritten(env, origin, documents) { WrittenIsAccepted(env, origin, documents, decoded); }
    if decoded.Failure? { return Success({DecodeFailed(decoded.error)}); }
    var encoded := Encode(env, decoded.value);
    if encoded.Failure? { return Failure(encoded.error); }
    var mismatched := FindDocumentContentMismatches(documents, encoded.value);
    if Lawful(env) && IsWritten(env, origin, documents) {
      WrittenIsReencoded(env, origin, documents, decoded.value, encoded.value);
      assert Sorting.TotalOrder(env.leq);
      forall path ensures IsMismatch(documents, encoded.value, path) <==> IsUnstableAt(env, origin, path) {
        MismatchExactly(env, origin, documents, decoded.value, encoded.value, path);
      }
    }
    r := Success(set path <- mismatched :: CanonicalMismatch(path));
    assert ReportsMismatches(env, documents, decoded.value, r.value);
  }

  lemma WrittenIsAccepted(env: Environment, s: Snapshot, documents: seq<Document>, r: Result<Snapshot, CodecError>)
    requires Lawful(env) && IsWritten(env, s, documents)
    requires r.Success? ==> exists ordered :: IsOrdered(env, documents, ordered) && IsAggregateOf(env, ordered, r.value)
    requires r.Failure? ==> forall ordered, t :: IsOrdered(env, documents, ordered) ==> !IsAggregateOf(env, ordered, t)
    ensures r.Success? && r.value.project == s.project && IsDecoding(env, documents, r.value)
    ensures WellTyped(r.value) && AllEncodable(env, r.value)
  {
    hide RecordSet, IsDecodable, RecordsIn, WellTyped, AllEncodable, UniqueIds, Collection,
         IsOrdered, IsAggregateOf;
    WrittenDecodes(env, s, documents);
    WrittenIsOrdered(env, s, documents);
    if r.Success? {
      var ordered :| IsOrdered(env, documents, ordered) && IsAggregateOf(env, ordered, r.value);
      OrderIsUnique(env, documents, documents, ordered);
      AggregateHasProject(env, s, documents, r.value);
    } else {
      WrittenIsAggregate(env, s, documents);
      assert false;
    }
    DecodedSnapshotIsEncodable(env, s, documents, r.value);
  }

  lemma WrittenIsOrdered(env: Environment, s: Snapshot, documents: seq<Document>)
    requires Lawful(env) && IsWritten(env, s, documents) && DistinctPaths(documents)
    ensures IsOrdered(env, documents, documents)
  {
    hide RecordSet, IsDecodable, WellTyped, AllEncodable, UniqueIds, ByPath;
    ByPathFinds(documents);
  }

  lemma AggregateHasProject(env: Environment, s: Snapshot, documents: seq<Document>, t: Snapshot)
    requires Lawful(env) && IsWritten(env, s, documents) && IsAggregateOf(env, documents, t)
    ensures t.project == s.project && IsDecoding(env, documents, t)
  {
    hide RecordSet, IsDecodable, RecordsIn, Collection, IsWritten, DistinctPaths;
    WrittenDecodes(env, s, documents);
  }

  /** The aggregate that the documents of a written set make up. */
  lemma WrittenIsAggregate(env: Environment, s: Snapshot, documents: seq<Document>)
    requires Lawful(env) && IsWritten(env, s, documents)
    ensures exists t :: IsAggregateOf(env, documents, t)
  {
    hide RecordSet, IsDecodable, RecordsIn, WellTyped, AllEncodable, UniqueIds, DistinctPaths;
    WrittenDecodes(env, s, documents);
    var t := Snapshot(s.project, map kind | kind in KINDS :: RecordsIn(env, documents, kind));
    forall kind ensures Collection(t, kind) == RecordsIn(env, documents, kind) { KindsAreAll(kind); }
    assert IsAggregateOf(env, documents, t);
  }

  lemma WrittenIsReencoded(env: Environment, s: Snapshot, documents: seq<Document>, t: Snapshot, again: seq<Document>)
    requires Lawful(env) && IsWritten(env, s, documents)
    requires IsDecoding(env, documents, t) && t.project == s.project && WellTyped(t) && AllEncodable(env, t)
    requires IsEncoding(env, t, again)
    ensures IsReencoding(env, s, documents, t, again)
  {
    hide RecordSet, IsDecodable, RecordsIn, WellTyped, AllEncodable, UniqueIds, IsEncoding;
  }

  /** The path of a record that is written differently once it has been read back. */
  ghost predicate IsUnstableAt(env: Environment, s: Snapshot, path: string) {
    exists r :: IsRecordOf(s, r) && !IsStable(env, r) && DocumentOf(env, r).path == path
  }

  /** A set and its re-encoding differ exactly at the unstable records. */
  lemma MismatchExactly(env: Environment, s: Snapshot, documents: seq<Document>, t: Snapshot, again: seq<Document>, path: string)
    requires Sorting.TotalOrder(env.leq) && IsReencoding(env, s, documents, t, again)
    ensures IsMismatch(documents, again, path) <==> IsUnstableAt(env, s, path)
  {
    hide IsEncoding, WellTyped, AllEncodable, UniqueIds, DocumentOf, IsDecoding, IsRecordOf, IsStable, ByPath, DistinctPaths,
         FixedDocuments;
    ReencodingIsFixpointExactly(env, s, documents, t, again);
    ByPathFinds(again);
    forall d ensures IsMatched(ByPath(again), d) <==> d in again { MatchedExactly(again, d); }
    if r :| IsRecordOf(s, r) && !IsStable(env, r) && DocumentOf(env, r).path == path {
      RecordInBoth(env, s, documents, t, again, r);
      var e :| e in again && e.path == DocumentOf(env, r).path && (e == DocumentOf(env, r) <==> IsStable(env, r));
      if DocumentOf(env, r) in again { SamePathSameDocument(again, e, DocumentOf(env, r)); }
      assert DocumentOf(env, r) in documents && !IsMatched(ByPath(again), DocumentOf(env, r));
    }
    if d :| d in documents && d.path == path && d !in again {
      EncodingHolds(env, s, documents, d);
      EncodingHolds(env, t, again, d);
      var r :| IsRecordOf(s, r) && d == DocumentOf(env, r);
      RecordInBoth(env, s, documents, t, again, r);
    }
    if path in PathsOf(again) && path !in PathsOf(documents) {
      var e :| e in again && e.path == path;
      AgainComesFrom(env, s, documents, t, again, e);
      PathIsThere(env, s, documents, t, again, e);
      assert false;
    }
  }

  /** Both encodings have the same paths. */
  lemma PathIsThere(env: Environment, s: Snapshot, documents: seq<Document>, t: Snapshot, again: seq<Document>, e: Document)
    requires Sorting.TotalOrder(env.leq) && IsReencoding(env, s, documents, t, again) && e in again
    ensures e.path in PathsOf(documents)
  {
    hide IsEncoding, WellTyped, AllEncodable, UniqueIds, DocumentOf, IsDecoding, IsRecordOf, IsStable, FixedDocuments;
    AgainComesFrom(env, s, documents, t, again, e);
    EncodingHolds(env, s, documents, e);
    if r :| IsRecordOf(s, r) && DocumentOf(env, r).path == e.path { RecordInBoth(env, s, documents, t, again, r); }
  }

  lemma MatchedExactly(documents: seq<Document>, d: Document)
    requires DistinctPaths(documents)
    ensures IsMatched(ByPath(documents), d) <==> d in documents
  {
    hide ByPath, DistinctPaths;
    ByPathFinds(documents);
  }
}
