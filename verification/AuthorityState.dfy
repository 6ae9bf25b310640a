/**
  The data of the local authority state file and the mutators that transactions apply to it:
  the delegated-decision budget and policy activation (packages/mcp/src/local-l3-authorization.ts) on top of the
  exact-authorization store (packages/core/src/application/exact-authorization-store.ts).
 */
module AuthorityState {
  import opened Wrappers
  import opened StateFileTransactions

  type Time = nat

  datatype Provenance = Provenance(
    issuer: string, policyId: Option<string>, policyDigest: Option<string>,
    profileId: Option<string>, modeEpoch: Option<int>, profileDigest: Option<string>)

  datatype Binding = Binding(
    proposalId: string, projectId: string, rootDigest: string, actionType: string, targetId: string, operationDigest: string)

  datatype Candidate = Candidate(
    authorizationId: string, binding: Binding, provenance: Provenance, audience: string, subjectId: string,
    source: string, decisionRef: string, hostKind: string, clientId: Option<string>, createdAt: Time, expiresAt: Time)

  datatype AuthorizationStatus = Active | Consumed | Revoked

  datatype Stored = Stored(
    candidate: Candidate, status: AuthorizationStatus, artifactId: Option<string>, revokedAt: Option<Time>)

  datatype ReceiptStatus = Authorized | CommitClaimed | Committed | ReceiptRevoked

  /** `authorization` carries the fields a receipt copies from the authorization it was recorded for. */
  datatype Receipt = Receipt(
    artifactId: string, authorization: Candidate, status: ReceiptStatus,
    claimId: Option<string>, claimedAt: Option<Time>, committedAt: Option<Time>, revokedAt: Option<Time>)

  datatype Usage = Usage(digest: string, ruleId: string, decisions: nat, decisionBudget: nat, updatedAt: Time)

  datatype GrantStatus = GrantActive | GrantRevoked | GrantExhausted

  datatype Grant = Grant(
    issuer: string, delegated: bool, profileId: Option<string>, policyDigest: Option<string>,
    profileDigest: Option<string>, status: GrantStatus, revokedAt: Option<Time>)

  datatype ActivePolicy = ActivePolicy(digest: string, updatedAt: Time)

  datatype Authority = Authority(
    activePolicies: map<string, ActivePolicy>,
    usages: map<string, Usage>,
    reservedGrants: map<string, Grant>,
    grants: map<string, Grant>,
    authorizations: map<string, Stored>,
    receipts: map<string, Receipt>)

  const EMPTY: Authority := Authority(map[], map[], map[], map[], map[], map[])

  // ---------- Keys ----------

  /** Length of a SHA-256 digest in hexadecimal. */
  const DIGEST_LENGTH: nat := 64

  type Digest = d: string | |d| == DIGEST_LENGTH witness seq(DIGEST_LENGTH, _ => '0')

  function UsageKey(digest: Digest, ruleId: string): string {
    digest + ":" + ruleId
  }

  function DelegatedPrefix(digest: Digest): string {
    "authorization-" + digest + "-"
  }

  /** `rest` is the proposal id, preceded by the policy digest when a profile issues the authorization. */
  function DelegatedId(digest: Digest, rest: string): string {
    DelegatedPrefix(digest) + rest
  }

  ghost predicate IsDelegatedId(id: string) {
    exists digest: Digest :: DelegatedPrefix(digest) <= id
  }

  // ---------- Exact authorization store ----------

  predicate IsBlank(s: string) {
    forall c <- s :: c in " \t\r\n"
  }

  function ProfileFields(p: Provenance): nat {
    (if p.profileId.Some? then 1 else 0) + (if p.modeEpoch.Some? then 1 else 0) + (if p.profileDigest.Some? then 1 else 0)
  }

  predicate ValidCandidate(c: Candidate) {
    && !IsBlank(c.authorizationId) && !IsBlank(c.binding.proposalId) && !IsBlank(c.binding.projectId)
    && !IsBlank(c.binding.rootDigest) && !IsBlank(c.binding.targetId) && !IsBlank(c.binding.operationDigest)
    && !IsBlank(c.provenance.issuer) && !IsBlank(c.audience) && !IsBlank(c.subjectId)
    && !IsBlank(c.decisionRef) && !IsBlank(c.hostKind)
    && c.createdAt < c.expiresAt
    && (ProfileFields(c.provenance) == 0 || ProfileFields(c.provenance) == 3)
  }

  datatype Reply =
    | Allow(authorization: Candidate)
    | Deny
    | Done
    | Recorded(receipt: Receipt, replayed: bool)
    | Rejected(code: string)
    | Answered(yes: bool)
    | Counted(count: nat)

  type Effect = Mutation<Authority, Reply>

  function Issue(d: Authority, c: Candidate): Effect {
    if !ValidCandidate(c) then Thrown
    else if c.authorizationId in d.authorizations then
      if d.authorizations[c.authorizationId].candidate == c then Mutated(d, Done) else Thrown
    else
      Mutated(d.(authorizations := d.authorizations[c.authorizationId := Stored(c, Active, None, None)]), Done)
  }

  function Consume(d: Authority, id: string, artifactId: string, binding: Binding, now: Time): Effect {
    if id !in d.authorizations then Mutated(d, Rejected("AUTHORIZATION_NOT_FOUND"))
    else
      var stored := d.authorizations[id];
      if stored.candidate.binding != binding then Mutated(d, Rejected("AUTHORIZATION_BINDING_MISMATCH"))
      else if stored.status.Revoked? then Mutated(d, Rejected("AUTHORIZATION_INACTIVE"))
      else if stored.status.Consumed? then
        if stored.artifactId != Some(artifactId) then Mutated(d, Rejected("AUTHORIZATION_ARTIFACT_MISMATCH"))
        else if artifactId !in d.receipts then Mutated(d, Rejected("RECEIPT_NOT_FOUND"))
        else Mutated(d, Recorded(d.receipts[artifactId], true))
      else if stored.candidate.expiresAt <= now then Mutated(d, Rejected("AUTHORIZATION_EXPIRED"))
      else
        var receipt := Receipt(artifactId, stored.candidate, Authorized, None, None, None, None);
        Mutated(
          d.(authorizations := d.authorizations[id := stored.(status := Consumed, artifactId := Some(artifactId))],
             receipts := d.receipts[artifactId := receipt]),
          Recorded(receipt, false))
  }

  function Claim(d: Authority, artifactId: string, authorization: Candidate, claimId: string, now: Time): Effect {
    if artifactId !in d.receipts then Mutated(d, Rejected("RECEIPT_NOT_FOUND"))
    else
      var r := d.receipts[artifactId];
      if r.authorization != authorization then Mutated(d, Rejected("RECEIPT_BINDING_MISMATCH"))
      else if r.status.ReceiptRevoked? then Mutated(d, Rejected("RECEIPT_REVOKED"))
      else if r.status.CommitClaimed? || r.status.Committed? then
        if r.claimId != Some(claimId) then Mutated(d, Rejected("RECEIPT_CLAIMED_BY_OTHER"))
        else Mutated(d, Recorded(r, true))
      else
        var claimed := r.(status := CommitClaimed, claimId := Some(claimId), claimedAt := Some(now));
        Mutated(d.(receipts := d.receipts[artifactId := claimed]), Recorded(claimed, false))
  }

  function Finalize(d: Authority, artifactId: string, authorization: Candidate, claimId: string, now: Time): Effect {
    if artifactId !in d.receipts then Mutated(d, Rejected("RECEIPT_NOT_FOUND"))
    else
      var r := d.receipts[artifactId];
      if r.authorization != authorization then Mutated(d, Rejected("RECEIPT_BINDING_MISMATCH"))
      else if r.status.ReceiptRevoked? then Mutated(d, Rejected("RECEIPT_REVOKED"))
      else if r.claimId != Some(claimId) || r.status.Authorized? then Mutated(d, Rejected("RECEIPT_CLAIMED_BY_OTHER"))
      else if r.status.Committed? then Mutated(d, Recorded(r, true))
      else
        var committed := r.(status := Committed, committedAt := Some(now));
        Mutated(d.(receipts := d.receipts[artifactId := committed]), Recorded(committed, false))
  }

  function Revoke(d: Authority, id: string, now: Time): Effect {
    if id !in d.authorizations then Mutated(d, Answered(false))
    else
      var stored := d.authorizations[id];
      if stored.status.Active? then
        Mutated(d.(authorizations := d.authorizations[id := stored.(status := Revoked, revokedAt := Some(now))]), Answered(true))
      else if stored.status.Consumed? && stored.artifactId.Some? && stored.artifactId.value in d.receipts
              && d.receipts[stored.artifactId.value].status.Authorized? then
        var a := stored.artifactId.value;
        Mutated(d.(receipts := d.receipts[a := d.receipts[a].(status := ReceiptRevoked, revokedAt := Some(now))]), Answered(true))
      else Mutated(d, Answered(false))
  }

  predicate ProfileReceiptIsOld(r: Receipt, profileId: string, beforeModeEpoch: int) {
    && r.authorization.provenance.profileId == Some(profileId)
    && r.authorization.provenance.modeEpoch.Some?
    && r.authorization.provenance.modeEpoch.value < beforeModeEpoch
    && r.status.Authorized?
  }

  function RevokeProfileReceipts(d: Authority, profileId: string, beforeModeEpoch: int, now: Time): Effect {
    var hit := set a | a in d.receipts && ProfileReceiptIsOld(d.receipts[a], profileId, beforeModeEpoch);
    Mutated(
      d.(receipts := map a | a in d.receipts ::
           if a in hit then d.receipts[a].(status := ReceiptRevoked, revokedAt := Some(now)) else d.receipts[a]),
      Counted(|hit|))
  }

  // ---------- The delegated-decision budget ----------

  /** One request for an exact decision, after policy evaluation has matched a rule with a budget. */
  datatype DecisionRequest = DecisionRequest(
    digest: Digest, ruleId: string, decisionBudget: nat, authorization: Candidate, now: Time)

  type Request = r: DecisionRequest | exists rest :: r.authorization.authorizationId == DelegatedId(r.digest, rest)
    ghost witness DecisionRequest(
      seq(DIGEST_LENGTH, _ => '0'), "", 0,
      Candidate(DelegatedId(seq(DIGEST_LENGTH, _ => '0'), ""), Binding("", "", "", "", "", ""),
                Provenance("", None, None, None, None, None), "", "", "", "", "", None, 0, 0), 0)

  function CurrentUsage(d: Authority, r: DecisionRequest): Usage {
    var key := UsageKey(r.digest, r.ruleId);
    if key in d.usages then d.usages[key] else Usage(r.digest, r.ruleId, 0, r.decisionBudget, r.now)
  }

  function RequestDecision(d: Authority, r: DecisionRequest): Effect {
    var id := r.authorization.authorizationId;
    if id in d.authorizations then Mutated(d, Allow(d.authorizations[id].candidate))
    else
      var usage := CurrentUsage(d, r);
      if usage.decisionBudget != r.decisionBudget || usage.decisions >= usage.decisionBudget then Mutated(d, Deny)
      else if !ValidCandidate(r.authorization) then Thrown
      else
        Mutated(
          d.(usages := d.usages[UsageKey(r.digest, r.ruleId) := usage.(decisions := usage.decisions + 1, updatedAt := r.now)],
             authorizations := d.authorizations[id := Stored(r.authorization, Active, None, None)]),
          Allow(r.authorization))
  }

  /** One decision more under `key` and one authorization more, called `id`; everything else is as before. */
  ghost predicate NewDecision(d: Authority, e: Authority, key: string, id: string) {
    && e.usages.Keys == d.usages.Keys + {key} && e.authorizations.Keys == d.authorizations.Keys + {id}
    && id !in d.authorizations
    && (forall k <- d.usages :: k != key ==> e.usages[k] == d.usages[k])
    && e.usages[key].decisions == (if key in d.usages then d.usages[key].decisions else 0) + 1
    && (forall other <- d.authorizations :: e.authorizations[other] == d.authorizations[other])
    && e == d.(usages := e.usages, authorizations := e.authorizations)
  }

  // ---------- Policy activation ----------

  datatype PolicyIdentity = PolicyIdentity(
    issuerId: string, policyId: string, policyDigest: string, profileId: Option<string>, modeEpoch: Option<int>,
    profileDigest: Option<string>)

  predicate IsStale(identity: PolicyIdentity, p: Provenance) {
    && p.issuer == identity.issuerId
    && (|| p.policyId != Some(identity.policyId)
        || p.policyDigest != Some(identity.policyDigest)
        || p.profileId != identity.profileId
        || p.modeEpoch != identity.modeEpoch
        || p.profileDigest != identity.profileDigest)
  }

  predicate IsBlocked(d: Authority, identity: PolicyIdentity) {
    exists a <- d.receipts :: IsStale(identity, d.receipts[a].authorization.provenance) && d.receipts[a].status.CommitClaimed?
  }

  function GrantDigest(g: Grant): Option<string> {
    if g.profileId.None? then g.policyDigest else g.profileDigest
  }

  function ActivatedAuthorization(s: Stored, identity: PolicyIdentity, now: Time): Stored {
    if s.status.Active? && IsStale(identity, s.candidate.provenance)
    then s.(status := Revoked, revokedAt := Some(now)) else s
  }

  function ActivatedReceipt(r: Receipt, identity: PolicyIdentity, now: Time): Receipt {
    if r.status.Authorized? && IsStale(identity, r.authorization.provenance)
    then r.(status := ReceiptRevoked, revokedAt := Some(now)) else r
  }

  predicate DropsReservedGrant(g: Grant, authorityId: string, digest: string) {
    g.issuer == authorityId && GrantDigest(g) != Some(digest)
  }

  function ActivatedGrant(g: Grant, authorityId: string, digest: string, now: Time): Grant {
    if g.issuer == authorityId && (g.profileId.Some? || g.delegated) && GrantDigest(g) != Some(digest) && g.status.GrantActive?
    then g.(status := GrantRevoked, revokedAt := Some(now)) else g
  }

  function ActivatedPolicies(m: map<string, ActivePolicy>, authorityId: string, digest: string, now: Time)
    : map<string, ActivePolicy>
  {
    if authorityId in m && m[authorityId].digest == digest then m else m[authorityId := ActivePolicy(digest, now)]
  }

  function Activate(d: Authority, authorityId: string, digest: string, identity: PolicyIdentity, now: Time): Effect {
    if IsBlocked(d, identity) then Thrown
    else
      Mutated(
        Authority(
          ActivatedPolicies(d.activePolicies, authorityId, digest, now),
          d.usages,
          map id | id in d.reservedGrants && !DropsReservedGrant(d.reservedGrants[id], authorityId, digest)
            :: d.reservedGrants[id],
          map id | id in d.grants :: ActivatedGrant(d.grants[id], authorityId, digest, now),
          map id | id in d.authorizations :: ActivatedAuthorization(d.authorizations[id], identity, now),
          map a | a in d.receipts :: ActivatedReceipt(d.receipts[a], identity, now)),
        Done)
  }

  /** After a successful activation nothing of that issuer that is still usable carries stale provenance; what was
      committed, and what belongs to other issuers, is as before. */
  lemma ActivationRevokesExactlyStale(d: Authority, authorityId: string, digest: string, identity: PolicyIdentity, now: Time)
    ensures Activate(d, authorityId, digest, identity, now).Thrown? <==> IsBlocked(d, identity)
    ensures !IsBlocked(d, identity) ==>
              var e := Activate(d, authorityId, digest, identity, now).data;
              && e.authorizations.Keys == d.authorizations.Keys && e.receipts.Keys == d.receipts.Keys
              && e.grants.Keys == d.grants.Keys && e.usages == d.usages
              && (forall id <- e.authorizations ::
                    IsStale(identity, e.authorizations[id].candidate.provenance) ==> !e.authorizations[id].status.Active?)
              && (forall a <- e.receipts ::
                    IsStale(identity, e.receipts[a].authorization.provenance) ==>
                      e.receipts[a].status.Committed? || e.receipts[a].status.ReceiptRevoked?)
              && (forall id <- d.authorizations ::
                    e.authorizations[id] != d.authorizations[id] ==>
                      && d.authorizations[id].status.Active?
                      && IsStale(identity, d.authorizations[id].candidate.provenance)
                      && e.authorizations[id] == d.authorizations[id].(status := Revoked, revokedAt := Some(now)))
              && (forall a <- d.receipts ::
                    e.receipts[a] != d.receipts[a] ==>
                      && d.receipts[a].status.Authorized?
                      && IsStale(identity, d.receipts[a].authorization.provenance)
                      && e.receipts[a] == d.receipts[a].(status := ReceiptRevoked, revokedAt := Some(now)))
              && (forall id <- e.reservedGrants ::
                    id in d.reservedGrants && (e.reservedGrants[id].issuer == authorityId ==>
                                                 GrantDigest(e.reservedGrants[id]) == Some(digest)))
              && authorityId in e.activePolicies && e.activePolicies[authorityId].digest == digest
  {
  }

  /** The provenance of what is issued under this identity. */
  function ProvenanceOf(identity: PolicyIdentity): Provenance {
    Provenance(identity.issuerId, Some(identity.policyId), Some(identity.policyDigest), identity.profileId, identity.modeEpoch,
               identity.profileDigest)
  }

  /** An activation is refused exactly for a receipt of the issuer that is claimed for commit and differs from the identity
      in one of the provenance fields. */
  ghost predicate RefusesExactly(d: Authority, identity: PolicyIdentity, refused: bool) {
    refused <==> exists a <- d.receipts ::
      && d.receipts[a].status == CommitClaimed && d.receipts[a].authorization.provenance.issuer == identity.issuerId
      && d.receipts[a].authorization.provenance != ProvenanceOf(identity)
  }

  /** What becomes of the exact store: active authorizations and unclaimed receipts of the issuer under any other identity
      are revoked, and everything else, other issuers' in particular, stays as it was. */
  ghost predicate RevokesOutdated(d: Authority, e: Authority, identity: PolicyIdentity, now: Time) {
    && e.authorizations.Keys == d.authorizations.Keys && e.receipts.Keys == d.receipts.Keys
    && (forall id <- d.authorizations ::
          var before, p := d.authorizations[id], d.authorizations[id].candidate.provenance;
          && (p.issuer != identity.issuerId ==> e.authorizations[id] == before)
          && (p == ProvenanceOf(identity) ==> e.authorizations[id] == before)
          && (before.status != Active ==> e.authorizations[id] == before)
          && (before.status == Active && p.issuer == identity.issuerId && p != ProvenanceOf(identity) ==>
                e.authorizations[id] == Stored(before.candidate, Revoked, before.artifactId, Some(now))))
    && (forall a <- d.receipts ::
          var before, p := d.receipts[a], d.receipts[a].authorization.provenance;
          && (p.issuer != identity.issuerId ==> e.receipts[a] == before)
          && (p == ProvenanceOf(identity) ==> e.receipts[a] == before)
          && (before.status != Authorized ==> e.receipts[a] == before)
          && (before.status == Authorized && p.issuer == identity.issuerId && p != ProvenanceOf(identity) ==>
                e.receipts[a] == before.(status := ReceiptRevoked, revokedAt := Some(now))))
  }

  /** What becomes of the grants: reserved ones of the authority stay only under the activated digest, and its delegated and
      profile grants under any other digest are revoked.  A profile grant is compared by its profile digest. */
  ghost predicate RetiresGrants(d: Authority, e: Authority, authorityId: string, digest: string, now: Time) {
    && e.grants.Keys == d.grants.Keys
    && (forall id <- d.grants ::
          var g := d.grants[id];
          && (g.issuer != authorityId || g.status != GrantActive || (g.profileId == None && !g.delegated) ==> e.grants[id] == g)
          && (g.profileId == None && g.policyDigest == Some(digest) ==> e.grants[id] == g)
          && (g.profileId != None && g.profileDigest == Some(digest) ==> e.grants[id] == g)
          && (g.issuer == authorityId && g.status == GrantActive && g.profileId == None && g.delegated && g.policyDigest != Some(digest) ==>
                e.grants[id] == g.(status := GrantRevoked, revokedAt := Some(now)))
          && (g.issuer == authorityId && g.status == GrantActive && g.profileId != None && g.profileDigest != Some(digest) ==>
                e.grants[id] == g.(status := GrantRevoked, revokedAt := Some(now))))
    && (forall id <- e.reservedGrants :: id in d.reservedGrants && e.reservedGrants[id] == d.reservedGrants[id])
    && (forall id <- d.reservedGrants ::
          var g := d.reservedGrants[id];
          && (g.issuer != authorityId ==> id in e.reservedGrants)
          && (g.issuer == authorityId && g.profileId == None ==> (id in e.reservedGrants <==> g.policyDigest == Some(digest)))
          && (g.issuer == authorityId && g.profileId != None ==> (id in e.reservedGrants <==> g.profileDigest == Some(digest))))
  }

  /** The activated digest is in force, stamped when it came in; no other authority is affected, and no decision is counted. */
  ghost predicate PutsInForce(d: Authority, e: Authority, authorityId: string, digest: string, now: Time) {
    && e.usages == d.usages
    && e.activePolicies.Keys == d.activePolicies.Keys + {authorityId}
    && (forall other <- d.activePolicies :: other != authorityId ==> e.activePolicies[other] == d.activePolicies[other])
    && e.activePolicies[authorityId].digest == digest
    && (if authorityId in d.activePolicies && d.activePolicies[authorityId].digest == digest
        then e.activePolicies[authorityId].updatedAt == d.activePolicies[authorityId].updatedAt
        else e.activePolicies[authorityId].updatedAt == now)
  }

  /** Activation, field by field. */
  lemma ActivationByFields(d: Authority, authorityId: string, digest: string, identity: PolicyIdentity, now: Time)
    ensures RefusesExactly(d, identity, Activate(d, authorityId, digest, identity, now).Thrown?)
    ensures Activate(d, authorityId, digest, identity, now).Mutated? ==>
              var e := Activate(d, authorityId, digest, identity, now).data;
              && RevokesOutdated(d, e, identity, now) && RetiresGrants(d, e, authorityId, digest, now)
              && PutsInForce(d, e, authorityId, digest, now)
  {
  }

  /** Activating the same identity again, at any later time, changes nothing. */
  lemma ActivationIsIdempotent(d: Authority, authorityId: string, digest: string, identity: PolicyIdentity, now: Time, later: Time)
    requires !IsBlocked(d, identity)
    ensures var e := Activate(d, authorityId, digest, identity, now).data;
            Activate(e, authorityId, digest, identity, later) == Mutated(e, Done)
  {
    var e := Activate(d, authorityId, digest, identity, now).data;
    ActivationRevokesExactlyStale(d, authorityId, digest, identity, now);
    assert !IsBlocked(e, identity);
    var f := Activate(e, authorityId, digest, identity, later).data;
    assert f.authorizations == e.authorizations;
    assert f.receipts == e.receipts;
    assert f.grants == e.grants;
    assert f.reservedGrants == e.reservedGrants;
    assert f.activePolicies == e.activePolicies;
  }

  // ---------- The mutators in place ----------

  /** The state object a transaction reads from the file and edits before it is written back. */
  class AuthorityDraft {
    var activePolicies: map<string, ActivePolicy>
    var usages: map<string, Usage>
    var reservedGrants: map<string, Grant>
    var grants: map<string, Grant>
    var authorizations: map<string, Stored>
    var receipts: map<string, Receipt>

    constructor (d: Authority)
      ensures Data() == d
    {
      activePolicies, usages := d.activePolicies, d.usages;
      reservedGrants, grants := d.reservedGrants, d.grants;
      authorizations, receipts := d.authorizations, d.receipts;
    }

    function Data(): Authority
      reads this
    {
      Authority(activePolicies, usages, reservedGrants, grants, authorizations, receipts)
    }

    method RequestExactDecision(r: Request) returns (reply: Option<Reply>)
      modifies this`usages, this`authorizations
      ensures RequestDecision(old(Data()), r) == if reply.None? then Thrown else Mutated(Data(), reply.value)
      ensures reply.None? ==> Data() == old(Data())
      ensures r.authorization.authorizationId in old(authorizations) ==>
                && Data() == old(Data())
                && reply == Some(Allow(old(authorizations)[r.authorization.authorizationId].candidate))
      ensures reply == Some(Deny) ==> Data() == old(Data())
      ensures Data() != old(Data()) ==>
                && NewDecision(old(Data()), Data(), UsageKey(r.digest, r.ruleId), r.authorization.authorizationId)
                && usages[UsageKey(r.digest, r.ruleId)].decisions <= r.decisionBudget
                && reply == Some(Allow(r.authorization))
    {
      var id := r.authorization.authorizationId;
      if id in authorizations {
        return Some(Allow(authorizations[id].candidate));
      }
      var key := UsageKey(r.digest, r.ruleId);
      var usage := Usage(r.digest, r.ruleId, 0, r.decisionBudget, r.now);
      if key in usages {
        usage := usages[key];
      }
      if usage.decisionBudget != r.decisionBudget || usage.decisions >= usage.decisionBudget {
        return Some(Deny);
      }
      if !ValidCandidate(r.authorization) {
        return None;
      }
      usages := usages[key := usage.(decisions := usage.decisions + 1, updatedAt := r.now)];
      authorizations := authorizations[id := Stored(r.authorization, Active, None, None)];
      return Some(Allow(r.authorization));
    }

    /** True when a stale receipt is claimed for commit. */
    method HasClaimedStaleReceipt(identity: PolicyIdentity) returns (found: bool)
      ensures found == IsBlocked(Data(), identity)
    {
      var todo := receipts.Keys;
      while todo != {}
        invariant todo <= receipts.Keys
        invariant forall a <- receipts.Keys - todo ::
                    !(IsStale(identity, receipts[a].authorization.provenance) && receipts[a].status.CommitClaimed?)
        decreases todo
      {
        var a :| a in todo;
        if IsStale(identity, receipts[a].authorization.provenance) && receipts[a].status.CommitClaimed? {
          return true;
        }
        todo := todo - {a};
      }
      return false;
    }

    method RevokeStaleAuthorizations(identity: PolicyIdentity, now: Time)
      modifies this`authorizations
      ensures authorizations == map id | id in old(authorizations) :: ActivatedAuthorization(old(authorizations[id]), identity, now)
    {
      var todo := authorizations.Keys;
      while todo != {}
        invariant todo <= old(authorizations).Keys && authorizations.Keys == old(authorizations).Keys
        invariant forall id <- authorizations ::
                    authorizations[id] == if id in todo then old(authorizations[id])
                                          else ActivatedAuthorization(old(authorizations[id]), identity, now)
        decreases todo
      {
        var id :| id in todo;
        todo := todo - {id};
        var stored := authorizations[id];
        if stored.status.Active? && IsStale(identity, stored.candidate.provenance) {
          authorizations := authorizations[id := stored.(status := Revoked, revokedAt := Some(now))];
        }
      }
    }

    method RevokeStaleReceipts(identity: PolicyIdentity, now: Time)
      modifies this`receipts
      ensures receipts == map a | a in old(receipts) :: ActivatedReceipt(old(receipts[a]), identity, now)
    {
      var todo := receipts.Keys;
      while todo != {}
        invariant todo <= old(receipts).Keys && receipts.Keys == old(receipts).Keys
        invariant forall a <- receipts ::
                    receipts[a] == if a in todo then old(receipts[a]) else ActivatedReceipt(old(receipts[a]), identity, now)
        decreases todo
      {
        var a :| a in todo;
        todo := todo - {a};
        var receipt := receipts[a];
        if receipt.status.Authorized? && IsStale(identity, receipt.authorization.provenance) {
          receipts := receipts[a := receipt.(status := ReceiptRevoked, revokedAt := Some(now))];
        }
      }
    }

    method DropReservedGrants(authorityId: string, digest: string)
      modifies this`reservedGrants
      ensures reservedGrants == map id | id in old(reservedGrants)
                                         && !DropsReservedGrant(old(reservedGrants[id]), authorityId, digest)
                                :: old(reservedGrants[id])
    {
      var todo := reservedGrants.Keys;
      while todo != {}
        invariant todo <= reservedGrants.Keys
        invariant reservedGrants.Keys <= old(reservedGrants).Keys
        invariant forall id <- reservedGrants :: reservedGrants[id] == old(reservedGrants[id])
        invariant forall id <- old(reservedGrants) ::
                    id in reservedGrants <==> id in todo || !DropsReservedGrant(old(reservedGrants[id]), authorityId, digest)
        decreases todo
      {
        var id :| id in todo;
        todo := todo - {id};
        if DropsReservedGrant(reservedGrants[id], authorityId, digest) {
          reservedGrants := reservedGrants - {id};
        }
      }
    }

    method RevokeGrants(authorityId: string, digest: string, now: Time)
      modifies this`grants
      ensures grants == map id | id in old(grants) :: ActivatedGrant(old(grants[id]), authorityId, digest, now)
    {
      var todo := grants.Keys;
      while todo != {}
        invariant todo <= old(grants).Keys && grants.Keys == old(grants).Keys
        invariant forall id <- grants ::
                    grants[id] == if id in todo then old(grants[id]) else ActivatedGrant(old(grants[id]), authorityId, digest, now)
        decreases todo
      {
        var id :| id in todo;
        todo := todo - {id};
        var grant := grants[id];
        if grant.issuer == authorityId && (grant.profileId.Some? || grant.delegated)
           && GrantDigest(grant) != Some(digest) && grant.status.GrantActive? {
          grants := grants[id := grant.(status := GrantRevoked, revokedAt := Some(now))];
        }
      }
    }

    method ActivatePolicy(authorityId: string, digest: string, identity: PolicyIdentity, now: Time) returns (thrown: bool)
      modifies this
      ensures thrown <==> IsBlocked(old(Data()), identity)
      ensures thrown ==> Data() == old(Data())
      ensures !thrown ==> Activate(old(Data()), authorityId, digest, identity, now) == Mutated(Data(), Done)
      ensures RefusesExactly(old(Data()), identity, thrown)
      ensures !thrown ==>
                && RevokesOutdated(old(Data()), Data(), identity, now) && RetiresGrants(old(Data()), Data(), authorityId, digest, now)
                && PutsInForce(old(Data()), Data(), authorityId, digest, now)
    {
      ActivationByFields(Data(), authorityId, digest, identity, now);
      hide RevokesOutdated, RetiresGrants, PutsInForce, RefusesExactly;
      thrown := HasClaimedStaleReceipt(identity);
      if thrown {
        return;
      }
      RevokeStaleAuthorizations(identity, now);
      RevokeStaleReceipts(identity, now);
      DropReservedGrants(authorityId, digest);
      RevokeGrants(authorityId, digest, now);
      if authorityId !in activePolicies || activePolicies[authorityId].digest != digest {
        activePolicies := activePolicies[authorityId := ActivePolicy(digest, now)];
      }
    }
  }
}
