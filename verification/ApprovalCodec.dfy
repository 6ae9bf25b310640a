/** The approval artifact's authorization record (packages/json/src/codec.ts): present, legacy or exact. */
module ApprovalCodec {
  import opened Wrappers
  import opened JsonValues
  import opened JsonKeys
  import opened JsonOrder
  import opened JsonReencoding
  import opened DigestPayloads
  import Sorting

  /** The optional fields an artifact may carry about who authorized it; the inner Option is an explicit null. */
  datatype Provenance = Provenance(
    approvalSource: Option<string>,
    policyId: Option<Option<string>>,
    policyDigest: Option<Option<string>>,
    profileId: Option<string>,
    modeEpoch: Option<int>,
    profileDigest: Option<string>,
    hostKind: Option<string>,
    clientId: Option<Option<string>>)

  const NO_PROVENANCE := Provenance(None, None, None, None, None, None, None, None)

  /** The digest of an operation and the payload it was computed from. */
  datatype Digest = Digest(value: string, payload: Json)

  function EncodeDigest(leq: (string, string) -> bool, digest: Digest): Digest {
    digest.(payload := EncodePayload(leq, digest.payload))
  }

  function DecodeDigest(digest: Digest): Digest {
    digest.(payload := DecodeDigestPayload(digest.payload))
  }

  /** The fields that are copied one to one, and the digest, whose payload is in camel case in memory. */
  datatype Core = Core(
    id: string,
    projectId: string,
    pendingOperationId: string,
    actionType: string,
    targetId: string,
    digest: Digest,
    status: string,
    approver: string,
    decisionRef: string,
    createdAt: string,
    expiresAt: string,
    consumedAt: Option<string>)

  datatype ApprovalArtifact = ApprovalArtifact(
    core: Core,
    authorizationId: Option<string>,
    routeledgerRootDigest: Option<string>,
    provenance: Provenance)

  datatype Binding = Binding(
    proposalId: string,
    projectId: string,
    routeledgerRootDigest: string,
    actionType: string,
    targetId: string,
    operationDigest: Digest)

  datatype AuthorizationRecord =
    | LegacyAudit(authorizationGrantId: string, provenance: Provenance)
    | ExactV2(authorizationId: string, binding: Binding, provenance: Provenance)

  /** A document: artifacts from before authorization records carry the provenance at the top level. */
  datatype JsonApprovalArtifact = JsonApprovalArtifact(
    core: Core,
    record: Option<AuthorizationRecord>,
    topGrantId: Option<string>,
    topProvenance: Provenance)

  datatype CodecError = PartialProfile | BindingMismatch

  function ProfileCount(p: Provenance): nat {
    (if p.profileId.Some? then 1 else 0) + (if p.modeEpoch.Some? then 1 else 0) + (if p.profileDigest.Some? then 1 else 0)
  }

  function BindingOf(core: Core, rootDigest: string): Binding {
    Binding(core.pendingOperationId, core.projectId, rootDigest, core.actionType, core.targetId, core.digest)
  }

  function Encode(leq: (string, string) -> bool, a: ApprovalArtifact): Result<JsonApprovalArtifact, CodecError> {
    if ProfileCount(a.provenance) != 0 && ProfileCount(a.provenance) != 3 then Failure(PartialProfile)
    else
      var core := a.core.(digest := EncodeDigest(leq, a.core.digest));
      var record :=
        if a.authorizationId.None? then None
        else if a.routeledgerRootDigest.None? then Some(LegacyAudit(a.authorizationId.value, a.provenance))
        else Some(ExactV2(a.authorizationId.value, BindingOf(core, a.routeledgerRootDigest.value), a.provenance));
      Success(JsonApprovalArtifact(core, record, None, NO_PROVENANCE))
  }

  function Decode(j: JsonApprovalArtifact): Result<ApprovalArtifact, CodecError> {
    var core := j.core.(digest := DecodeDigest(j.core.digest));
    match j.record
    case None => Success(ApprovalArtifact(core, j.topGrantId, None, j.topProvenance))
    case Some(LegacyAudit(id, provenance)) => Success(ApprovalArtifact(core, Some(id), None, provenance))
    case Some(ExactV2(id, binding, provenance)) =>
      if binding != BindingOf(j.core, binding.routeledgerRootDigest) then Failure(BindingMismatch)
      else if ProfileCount(provenance) != 0 && ProfileCount(provenance) != 3 then Failure(PartialProfile)
      else Success(ApprovalArtifact(core, Some(id), Some(binding.routeledgerRootDigest), provenance))
  }

  /** Provenance without an authorization id has nowhere to go. */
  predicate HasPlaceForProvenance(a: ApprovalArtifact) {
    a.authorizationId.None? ==> a.routeledgerRootDigest.None? && a.provenance == NO_PROVENANCE
  }

  /** A digest payload that comes back: camel-case keys at every depth, and the lists of its gate snapshot. */
  predicate DigestSurvives(payload: Json) {
    HasCamelKeys(payload) && IsComplete(payload)
  }

  /** A stored digest payload that is written as it was: stable keys at every depth, and the lists of its gate snapshot. */
  predicate DigestIsStable(written: Json) {
    HasStableKeys(written) && IsComplete(DecodePayload(written))
  }

  /** The same artifact, up to the order of fields inside the digest payload. */
  predicate SameArtifact(a: ApprovalArtifact, b: ApprovalArtifact) {
    && a == b.(core := b.core.(digest := b.core.digest.(payload := a.core.digest.payload)))
    && SameValue(a.core.digest.payload, b.core.digest.payload)
  }

  /**
    What encoding writes always decodes.  It gives the artifact back exactly when its provenance had a place and its
    digest payload survives, and it encodes to the same document again exactly when the written payload is stable.
   */
  lemma ApprovalRoundTripExactly(leq: (string, string) -> bool, a: ApprovalArtifact)
    requires Sorting.TotalOrder(leq) && IsJsonValue(a.core.digest.payload) && Encode(leq, a).Success?
    ensures Decode(Encode(leq, a).value).Success?
    ensures SameArtifact(Decode(Encode(leq, a).value).value, a)
       <==> HasPlaceForProvenance(a) && DigestSurvives(a.core.digest.payload)
    ensures Encode(leq, Decode(Encode(leq, a).value).value).Success?
    ensures Encode(leq, Decode(Encode(leq, a).value).value) == Encode(leq, a)
       <==> DigestIsStable(EncodePayload(leq, a.core.digest.payload))
  {
    hide EncodePayload, DecodeDigestPayload, SameValue, HasCamelKeys, IsComplete, HasStableKeys, IsJsonValue, IsWrittenForm;
    DigestRoundTripExactly(leq, a.core.digest.payload);
    EncodedIsWritten(leq, a.core.digest.payload);
    DigestReencodesExactly(leq, EncodePayload(leq, a.core.digest.payload));
  }

  /**
    An accepted exact record that is moved to another artifact is accepted there if and only if that is the artifact of
    the same operation; what else the artifact says does not matter, and the record then authorizes what it did before.
   */
  lemma MovedRecordIsBound(j: JsonApprovalArtifact, other: JsonApprovalArtifact)
    requires j.record.Some? && j.record.value.ExactV2? && Decode(j).Success? && other.record == j.record
    ensures Decode(other).Success? <==> IsSameOperation(j.core, other.core)
    ensures Decode(other).Success? ==>
              && Decode(other).value.authorizationId == Decode(j).value.authorizationId
              && Decode(other).value.provenance == Decode(j).value.provenance
              && Decode(other).value.routeledgerRootDigest == Decode(j).value.routeledgerRootDigest
  {
  }

  /** Two artifacts of one operation of one proposal. */
  predicate IsSameOperation(a: Core, b: Core) {
    && a.pendingOperationId == b.pendingOperationId && a.projectId == b.projectId
    && a.actionType == b.actionType && a.targetId == b.targetId && a.digest == b.digest
  }

  /**
    Documents that decode and encode to themselves: all but old top-level grants, half-filled legacy profiles, and digest
    payloads that are out of order, unstable, or lack the lists of their gate snapshot.
   */
  lemma CanonicalDocumentsExactly(leq: (string, string) -> bool, j: JsonApprovalArtifact)
    requires Sorting.TotalOrder(leq) && Decode(j).Success?
    ensures Encode(leq, Decode(j).value) == Success(j)
       <==> && j.topGrantId.None? && j.topProvenance == NO_PROVENANCE
            && (j.record.Some? ==> ProfileCount(j.record.value.provenance) in {0, 3})
            && IsWrittenForm(leq, j.core.digest.payload) && DigestIsStable(j.core.digest.payload)
  {
    hide EncodePayload, DecodeDigestPayload, IsComplete, HasStableKeys, IsWrittenForm;
    DigestReencodesExactly(leq, j.core.digest.payload);
  }
}
