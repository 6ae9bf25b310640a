/**
  The life of an exact authorization (packages/core/src/application/exact-authorization-store.ts): issued, consumed for one
  artifact before it expires, claimed, committed by the claimant, or revoked on the way.  First call by call, then over
  every run of the transaction protocol.
 */
module AuthorizationLifecycle {
  import opened Wrappers
  import opened StateFileTransactions
  import opened AuthorityState
  import opened AuthorityRuns

  // ---------- Call by call ----------

  /** An authorization is issued once; the same one again changes nothing, and another one under its id is refused. */
  lemma IssueExactly(d: Authority, c: Candidate)
    ensures Issue(d, c).Mutated? <==>
              ValidCandidate(c) && (c.authorizationId in d.authorizations ==> d.authorizations[c.authorizationId].candidate == c)
    ensures Issue(d, c).Mutated? ==>
              var e := Issue(d, c).data;
              && e.authorizations.Keys == d.authorizations.Keys + {c.authorizationId}
              && e == d.(authorizations := e.authorizations)
              && (forall id <- d.authorizations :: e.authorizations[id] == d.authorizations[id])
              && e.authorizations[c.authorizationId].candidate == c
              && (c.authorizationId !in d.authorizations ==>
                    e.authorizations[c.authorizationId] == Stored(c, AuthorizationStatus.Active, None, None))
  {
  }

  /** What is issued names its proposal, project, root, target, operation and parties, can be consumed at its creation, and
      has the profile fields all or none. */
  lemma ValidCandidateExactly(c: Candidate)
    ensures ValidCandidate(c) <==>
              && (forall text <- [c.authorizationId, c.binding.proposalId, c.binding.projectId, c.binding.rootDigest,
                                  c.binding.targetId, c.binding.operationDigest, c.provenance.issuer, c.audience, c.subjectId,
                                  c.decisionRef, c.hostKind] :: exists i :: 0 <= i < |text| && text[i] !in " \t\r\n")
              && c.createdAt < c.expiresAt
              && (c.provenance.profileId == None <==> c.provenance.modeEpoch == None)
              && (c.provenance.profileId == None <==> c.provenance.profileDigest == None)
  {
    var texts := [c.authorizationId, c.binding.proposalId, c.binding.projectId, c.binding.rootDigest, c.binding.targetId,
                  c.binding.operationDigest, c.provenance.issuer, c.audience, c.subjectId, c.decisionRef, c.hostKind];
    forall text <- texts ensures IsBlank(text) <==> !exists i :: 0 <= i < |text| && text[i] !in " \t\r\n" {
      if !IsBlank(text) {
        var x :| x in text && x !in " \t\r\n";
        var i :| 0 <= i < |text| && text[i] == x;
      }
    }
    assert texts[0] == c.authorizationId && texts[1] == c.binding.proposalId && texts[2] == c.binding.projectId
        && texts[3] == c.binding.rootDigest && texts[4] == c.binding.targetId && texts[5] == c.binding.operationDigest
        && texts[6] == c.provenance.issuer && texts[7] == c.audience && texts[8] == c.subjectId && texts[9] == c.decisionRef
        && texts[10] == c.hostKind;
  }

  /** A decision is granted exactly while the rule's budget lasts and has not changed; the first answer is kept for good. */
  lemma DecisionExactly(d: Authority, r: Request)
    ensures var m, id, key := RequestDecision(d, r), r.authorization.authorizationId, UsageKey(r.digest, r.ruleId);
            var spent := if key in d.usages then d.usages[key].decisions else 0;
            var isOpen := (key in d.usages ==> d.usages[key].decisionBudget == r.decisionBudget) && spent < r.decisionBudget;
            && (id in d.authorizations ==> m == Mutated(d, Allow(d.authorizations[id].candidate)))
            && (m == Mutated(d, Deny) <==> id !in d.authorizations && !isOpen)
            && (m == Thrown <==> id !in d.authorizations && isOpen && !ValidCandidate(r.authorization))
            && (id !in d.authorizations && isOpen && ValidCandidate(r.authorization) ==>
                  && m.Mutated? && m.result == Allow(r.authorization) && NewDecision(d, m.data, key, id)
                  && m.data.authorizations[id] == Stored(r.authorization, AuthorizationStatus.Active, None, None)
                  && m.data.usages[key].decisionBudget == r.decisionBudget && m.data.usages[key].updatedAt == r.now)
  {
  }

  /**
    An authorization is consumed exactly when it is active, bound to what is asked for and not expired; it is then recorded
    for that artifact.  The same request again is answered from the record, and every refusal changes nothing.
   */
  lemma ConsumptionExactly(d: Authority, id: string, artifactId: string, binding: Binding, now: Time)
    ensures var m := Consume(d, id, artifactId, binding, now);
            var isBound := id in d.authorizations && d.authorizations[id].candidate.binding == binding;
            && m.Mutated?
            && (m.result.Recorded? && !m.result.replayed <==>
                isBound && d.authorizations[id].status == AuthorizationStatus.Active && now < d.authorizations[id].candidate.expiresAt)
            && (m.result.Recorded? && m.result.replayed <==>
                isBound && d.authorizations[id].status == Consumed && d.authorizations[id].artifactId == Some(artifactId)
                && artifactId in d.receipts)
            && (m.result.Recorded? && m.result.replayed ==> m.data == d && m.result.receipt == d.receipts[artifactId])
            && (m.result.Recorded? && !m.result.replayed ==>
                  && m.result.receipt == Receipt(artifactId, d.authorizations[id].candidate, Authorized, None, None, None, None)
                  && m.data.receipts == d.receipts[artifactId := m.result.receipt]
                  && m.data.authorizations.Keys == d.authorizations.Keys
                  && (forall other <- d.authorizations :: other != id ==> m.data.authorizations[other] == d.authorizations[other])
                  && m.data.authorizations[id] == d.authorizations[id].(status := Consumed, artifactId := Some(artifactId))
                  && m.data == d.(authorizations := m.data.authorizations, receipts := m.data.receipts))
            && (!m.result.Recorded? ==> m.data == d && m.result.Rejected?)
            && (m.result == Rejected("AUTHORIZATION_NOT_FOUND") <==> id !in d.authorizations)
            && (m.result == Rejected("AUTHORIZATION_BINDING_MISMATCH") <==> id in d.authorizations && !isBound)
            && (m.result == Rejected("AUTHORIZATION_INACTIVE") <==> isBound && d.authorizations[id].status == Revoked)
            && (m.result == Rejected("AUTHORIZATION_EXPIRED") <==>
                isBound && d.authorizations[id].status == AuthorizationStatus.Active && d.authorizations[id].candidate.expiresAt <= now)
            && (m.result == Rejected("AUTHORIZATION_ARTIFACT_MISMATCH") <==>
                isBound && d.authorizations[id].status == Consumed && d.authorizations[id].artifactId != Some(artifactId))
            && (m.result == Rejected("RECEIPT_NOT_FOUND") <==>
                isBound && d.authorizations[id].status == Consumed && d.authorizations[id].artifactId == Some(artifactId)
                && artifactId !in d.receipts)
  {
  }

  /** One claimant: a receipt is claimed exactly when nobody has, and whoever has gets the same answer again. */
  lemma ClaimExactly(d: Authority, artifactId: string, authorization: Candidate, claimId: string, now: Time)
    ensures var m := Claim(d, artifactId, authorization, claimId, now);
            var isBound := artifactId in d.receipts && d.receipts[artifactId].authorization == authorization;
            && m.Mutated?
            && (m.result.Recorded? && !m.result.replayed <==> isBound && d.receipts[artifactId].status == Authorized)
            && (m.result.Recorded? && m.result.replayed <==>
                isBound && d.receipts[artifactId].status in {CommitClaimed, Committed} && d.receipts[artifactId].claimId == Some(claimId))
            && (m.result.Recorded? && !m.result.replayed ==>
                  && m.result.receipt
                     == d.receipts[artifactId].(status := CommitClaimed, claimId := Some(claimId), claimedAt := Some(now))
                  && m.data == d.(receipts := d.receipts[artifactId := m.result.receipt]))
            && (m.result.Recorded? && m.result.replayed ==> m.result.receipt == d.receipts[artifactId])
            && (!m.result.Recorded? || m.result.replayed ==> m.data == d)
            && (m.result == Rejected("RECEIPT_REVOKED") <==> isBound && d.receipts[artifactId].status == ReceiptRevoked)
            && (m.result == Rejected("RECEIPT_NOT_FOUND") <==> artifactId !in d.receipts)
            && (m.result == Rejected("RECEIPT_BINDING_MISMATCH") <==> artifactId in d.receipts && !isBound)
            && (m.result == Rejected("RECEIPT_CLAIMED_BY_OTHER") <==>
                isBound && d.receipts[artifactId].status in {CommitClaimed, Committed} && d.receipts[artifactId].claimId != Some(claimId))
  {
  }

  /** Only the claimant commits, once; the same commit again is answered from the record. */
  lemma FinalizeExactly(d: Authority, artifactId: string, authorization: Candidate, claimId: string, now: Time)
    ensures var m := Finalize(d, artifactId, authorization, claimId, now);
            var isClaimant := artifactId in d.receipts && d.receipts[artifactId].authorization == authorization
                              && d.receipts[artifactId].claimId == Some(claimId);
            && m.Mutated?
            && (m.result.Recorded? && !m.result.replayed <==> isClaimant && d.receipts[artifactId].status == CommitClaimed)
            && (m.result.Recorded? && m.result.replayed <==> isClaimant && d.receipts[artifactId].status == Committed)
            && (m.result.Recorded? && !m.result.replayed ==>
                  && m.result.receipt == d.receipts[artifactId].(status := Committed, committedAt := Some(now))
                  && m.data == d.(receipts := d.receipts[artifactId := m.result.receipt]))
            && (m.result.Recorded? && m.result.replayed ==> m.result.receipt == d.receipts[artifactId])
            && (!m.result.Recorded? || m.result.replayed ==> m.data == d)
            && (m.result == Rejected("RECEIPT_NOT_FOUND") <==> artifactId !in d.receipts)
            && (m.result == Rejected("RECEIPT_BINDING_MISMATCH") <==>
                artifactId in d.receipts && d.receipts[artifactId].authorization != authorization)
            && (m.result == Rejected("RECEIPT_REVOKED") <==>
                artifactId in d.receipts && d.receipts[artifactId].authorization == authorization
                && d.receipts[artifactId].status == ReceiptRevoked)
            && (m.result == Rejected("RECEIPT_CLAIMED_BY_OTHER") <==>
                artifactId in d.receipts && d.receipts[artifactId].authorization == authorization
                && d.receipts[artifactId].status != ReceiptRevoked && (!isClaimant || d.receipts[artifactId].status == Authorized))
  {
  }

  /** An authorization can be revoked while it is active, and its receipt while nobody has claimed it. */
  lemma RevocationExactly(d: Authority, id: string, now: Time)
    ensures var m := Revoke(d, id, now);
            var isActive := id in d.authorizations && d.authorizations[id].status == AuthorizationStatus.Active;
            var isUnclaimed := id in d.authorizations && d.authorizations[id].status == Consumed
                               && d.authorizations[id].artifactId.Some? && d.authorizations[id].artifactId.value in d.receipts
                               && d.receipts[d.authorizations[id].artifactId.value].status == Authorized;
            && m.Mutated? && m.result == Answered(isActive || isUnclaimed)
            && (isActive ==> m.data == d.(authorizations := d.authorizations[id :=
                                            d.authorizations[id].(status := Revoked, revokedAt := Some(now))]))
            && (isUnclaimed ==>
                  var a := d.authorizations[id].artifactId.value;
                  m.data == d.(receipts := d.receipts[a := d.receipts[a].(status := ReceiptRevoked, revokedAt := Some(now))]))
            && (!isActive && !isUnclaimed ==> m.data == d)
  {
  }

  /** Unclaimed receipts of earlier epochs of one profile are revoked and counted; all others stay. */
  lemma ProfileRevocationExactly(d: Authority, profileId: string, beforeModeEpoch: int, now: Time)
    ensures var m := RevokeProfileReceipts(d, profileId, beforeModeEpoch, now);
            && m.Mutated? && m.data == d.(receipts := m.data.receipts) && m.data.receipts.Keys == d.receipts.Keys
            && (forall a <- d.receipts ::
                  var r := d.receipts[a]; var epoch := r.authorization.provenance.modeEpoch;
                  m.data.receipts[a] == if r.status == Authorized && r.authorization.provenance.profileId == Some(profileId)
                                           && epoch.Some? && epoch.value < beforeModeEpoch
                                        then r.(status := ReceiptRevoked, revokedAt := Some(now)) else r)
            && m.result == Counted(|set a | a in d.receipts && m.data.receipts[a] != d.receipts[a]|)
  {
    var m := RevokeProfileReceipts(d, profileId, beforeModeEpoch, now);
    assert (set a | a in d.receipts && m.data.receipts[a] != d.receipts[a])
        == set a | a in d.receipts && ProfileReceiptIsOld(d.receipts[a], profileId, beforeModeEpoch);
  }

  // ---------- Over every run ----------

  /** Nothing about an authorization is undone: its terms stay, a consumed one stays with its artifact, a revoked one stays. */
  ghost predicate KeepsTerms(d: Authority, e: Authority) {
    forall id <- d.authorizations ::
      && id in e.authorizations && e.authorizations[id].candidate == d.authorizations[id].candidate
      && (d.authorizations[id].status == Consumed ==>
            e.authorizations[id].status == Consumed && e.authorizations[id].artifactId == d.authorizations[id].artifactId)
      && (d.authorizations[id].status == Revoked ==> e.authorizations[id].status == Revoked)
  }

  lemma CommandKeepsTerms(c: Command, d: Authority)
    requires Exec(c, d).Mutated?
    ensures KeepsTerms(d, Exec(c, d).data)
  {
    hide ValidCandidate, IsStale, ProfileReceiptIsOld, IsBlocked, Consume, Claim, Finalize, Revoke, RevokeProfileReceipts, Issue;
    match c
    case RequestExactDecision(_) =>
    case ActivatePolicy(_, _, _, _) =>
    case IssueFromHost(candidate) => IssueExactly(d, candidate);
    case ConsumeAndRecordReceipt(id, artifactId, binding, now) => ConsumptionExactly(d, id, artifactId, binding, now);
    case ClaimCommit(artifactId, authorization, claimId, now) => ClaimExactly(d, artifactId, authorization, claimId, now);
    case FinalizeCommit(artifactId, authorization, claimId, now) => FinalizeExactly(d, artifactId, authorization, claimId, now);
    case RevokeAuthorization(id, now) => RevocationExactly(d, id, now);
    case RevokeReceiptsOfProfile(profileId, epoch, now) => ProfileRevocationExactly(d, profileId, epoch, now);
  }

  lemma {:induction false} ChainKeepsTerms(t: ProtocolState, i: nat, j: nat)
    requires FileOk(Exec, t) && i <= j <= |t.log|
    ensures KeepsTerms(t.past[i], t.past[j])
    decreases j
  {
    hide Exec;
    if i < j {
      ChainKeepsTerms(t, i, j - 1);
      assert Exec(t.log[j - 1], t.past[j - 1]).Mutated? && Exec(t.log[j - 1], t.past[j - 1]).data == t.past[j - 1 + 1];
      CommandKeepsTerms(t.log[j - 1], t.past[j - 1]);
    }
  }

  /** In every interleaving an authorization is consumed once at most, whoever asks and for whatever artifact. */
  lemma ConsumedOnce(s: ProtocolState, steps: seq<Step<Command>>, i: nat, j: nat)
    requires Initial(s) && Execute(Exec, s, steps).Some? && i < j < |Execute(Exec, s, steps).value.log|
    ensures var log := Execute(Exec, s, steps).value.log;
            log[i].ConsumeAndRecordReceipt? && log[j].ConsumeAndRecordReceipt? ==> log[i].id != log[j].id
  {
    RunsHaveChains(Exec, s, steps);
    var t := Execute(Exec, s, steps).value;
    var c, e := t.log[i], t.log[j];
    if c.ConsumeAndRecordReceipt? && e.ConsumeAndRecordReceipt? && c.id == e.id {
      assert t.past[i + 1] != t.past[i] && t.past[j + 1] != t.past[j];
      assert Exec(c, t.past[i]).data == t.past[i + 1] && Exec(e, t.past[j]).data == t.past[j + 1];
      ConsumptionExactly(t.past[i], c.id, c.artifactId, c.binding, c.now);
      ConsumptionExactly(t.past[j], e.id, e.artifactId, e.binding, e.now);
      ChainKeepsTerms(t, i + 1, j);
    }
  }

  /** Commit `i` consumes, for this artifact and in time, an active authorization with the terms of the receipt. */
  ghost predicate IsConsumption(t: ProtocolState, i: nat, artifactId: string, authorization: Candidate) {
    && i < |t.log| && i < |t.past| && t.log[i].ConsumeAndRecordReceipt?
    && var c := t.log[i];
       && c.artifactId == artifactId && c.id in t.past[i].authorizations
       && t.past[i].authorizations[c.id].candidate == authorization && c.binding == authorization.binding
       && t.past[i].authorizations[c.id].status == AuthorizationStatus.Active && c.now < authorization.expiresAt
  }

  ghost predicate IsClaim(t: ProtocolState, j: nat, artifactId: string, authorization: Candidate, claimId: Option<string>) {
    && j < |t.log| && t.log[j].ClaimCommit? && t.log[j].artifactId == artifactId && t.log[j].authorization == authorization
    && claimId == Some(t.log[j].claimId)
  }

  ghost predicate IsFinalization(t: ProtocolState, k: nat, artifactId: string, authorization: Candidate, claimId: Option<string>) {
    && k < |t.log| && t.log[k].FinalizeCommit? && t.log[k].artifactId == artifactId && t.log[k].authorization == authorization
    && claimId == Some(t.log[k].claimId)
  }

  /** The commits by which a receipt came to be what it is. */
  datatype Story = Story(consumed: nat, claimed: nat, finalized: nat)

  /** Consumed, then claimed, then committed by the claimant, all within the first `n` commits. */
  ghost predicate IsStory(t: ProtocolState, n: nat, artifactId: string, r: Receipt, story: Story) {
    && story.consumed < n && IsConsumption(t, story.consumed, artifactId, r.authorization)
    && (r.status == CommitClaimed || r.status == Committed ==>
          story.consumed < story.claimed < n && IsClaim(t, story.claimed, artifactId, r.authorization, r.claimId))
    && (r.status == Committed ==>
          story.claimed < story.finalized < n && IsFinalization(t, story.finalized, artifactId, r.authorization, r.claimId))
  }

  ghost predicate HasStory(t: ProtocolState, n: nat, artifactId: string, r: Receipt) {
    exists story :: IsStory(t, n, artifactId, r, story)
  }

  /** One more commit: the receipt stays, or a step of its story is taken. */
  lemma StoryGoesOn(t: ProtocolState, n: nat, artifactId: string)
    requires FileOk(Exec, t) && n < |t.log| && artifactId in t.past[n + 1].receipts
    requires artifactId in t.past[n].receipts ==> HasStory(t, n, artifactId, t.past[n].receipts[artifactId])
    ensures HasStory(t, n + 1, artifactId, t.past[n + 1].receipts[artifactId])
  {
    hide Exec;
    var c, d, e := t.log[n], t.past[n], t.past[n + 1];
    assert Exec(c, d).Mutated? && Exec(c, d).data == e && e != d;
    if c.ConsumeAndRecordReceipt? && c.artifactId == artifactId {
      StoryBegins(t, n, artifactId);
    } else {
      ReceiptMovesOn(c, d, artifactId);
      var before, r := d.receipts[artifactId], e.receipts[artifactId];
      var story :| IsStory(t, n, artifactId, before, story);
      var next := if r == before || r.status == ReceiptRevoked then story
                  else if c.ClaimCommit? then story.(claimed := n) else story.(finalized := n);
      assert IsStory(t, n + 1, artifactId, r, next);
    }
  }

  lemma StoryBegins(t: ProtocolState, n: nat, artifactId: string)
    requires FileOk(Exec, t) && n < |t.log| && t.log[n].ConsumeAndRecordReceipt? && t.log[n].artifactId == artifactId
    requires artifactId in t.past[n + 1].receipts
    ensures HasStory(t, n + 1, artifactId, t.past[n + 1].receipts[artifactId])
  {
    var c, d := t.log[n], t.past[n];
    assert Exec(c, d).Mutated? && Exec(c, d).data == t.past[n + 1] && t.past[n + 1] != d;
    ConsumptionExactly(d, c.id, c.artifactId, c.binding, c.now);
    assert IsStory(t, n + 1, artifactId, t.past[n + 1].receipts[artifactId], Story(n, 0, 0));
  }

  /** What commands do to a receipt, apart from the consumption that records it. */
  lemma ReceiptMovesOn(c: Command, d: Authority, artifactId: string)
    requires Exec(c, d).Mutated? && !(c.ConsumeAndRecordReceipt? && c.artifactId == artifactId)
    requires artifactId in Exec(c, d).data.receipts
    ensures artifactId in d.receipts
    ensures var before, after := d.receipts[artifactId], Exec(c, d).data.receipts[artifactId];
            && after.authorization == before.authorization
            && (|| after == before
                || (after.status == ReceiptRevoked && before.status == Authorized)
                || (&& c.ClaimCommit? && c.artifactId == artifactId && c.authorization == before.authorization
                    && before.status == Authorized && after.status == CommitClaimed && after.claimId == Some(c.claimId))
                || (&& c.FinalizeCommit? && c.artifactId == artifactId && c.authorization == before.authorization
                    && before.status == CommitClaimed && after.status == Committed
                    && before.claimId == after.claimId == Some(c.claimId)))
  {
    hide ValidCandidate, IsStale, ProfileReceiptIsOld, IsBlocked;
    match c
    case RequestExactDecision(_) =>
    case ActivatePolicy(_, _, _, _) =>
    case IssueFromHost(_) =>
    case ConsumeAndRecordReceipt(id, other, binding, now) => ConsumptionExactly(d, id, other, binding, now);
    case ClaimCommit(other, authorization, claimId, now) => ClaimExactly(d, other, authorization, claimId, now);
    case FinalizeCommit(other, authorization, claimId, now) => FinalizeExactly(d, other, authorization, claimId, now);
    case RevokeAuthorization(id, now) => RevocationExactly(d, id, now);
    case RevokeReceiptsOfProfile(profileId, epoch, now) => ProfileRevocationExactly(d, profileId, epoch, now);
  }

  /**
    In every interleaving that starts without receipts, whatever is committed was consumed in time from an active
    authorization with these very terms, then claimed, and committed by the claimant.
   */
  lemma {:induction false} CommittedWasClaimed(s: ProtocolState, steps: seq<Step<Command>>, n: nat, artifactId: string)
    requires Initial(s) && s.file.data.receipts == map[] && Execute(Exec, s, steps).Some?
    requires n <= |Execute(Exec, s, steps).value.log| < |Execute(Exec, s, steps).value.past|
    requires artifactId in Execute(Exec, s, steps).value.past[n].receipts
    ensures HasStory(Execute(Exec, s, steps).value, n, artifactId, Execute(Exec, s, steps).value.past[n].receipts[artifactId])
    decreases n
  {
    hide HasStory;
    RunsHaveChains(Exec, s, steps);
    var t := Execute(Exec, s, steps).value;
    if n > 0 {
      if artifactId in t.past[n - 1].receipts { CommittedWasClaimed(s, steps, n - 1, artifactId); }
      StoryGoesOn(t, n - 1, artifactId);
    }
  }

  /** A committed receipt stays as it is unless another authorization is consumed for its artifact, which replaces it. */
  lemma CommittedStaysExactly(c: Command, d: Authority, artifactId: string)
    requires Exec(c, d).Mutated? && artifactId in d.receipts && d.receipts[artifactId].status == Committed
    ensures artifactId in Exec(c, d).data.receipts
    ensures Exec(c, d).data.receipts[artifactId] == d.receipts[artifactId]
       <==> !(c.ConsumeAndRecordReceipt? && c.artifactId == artifactId && Exec(c, d).data != d)
  {
    hide ValidCandidate, IsStale, ProfileReceiptIsOld, IsBlocked;
    if c.ConsumeAndRecordReceipt? {
      ConsumptionExactly(d, c.id, c.artifactId, c.binding, c.now);
    } else if c.RevokeReceiptsOfProfile? {
      ProfileRevocationExactly(d, c.profileId, c.beforeModeEpoch, c.now);
    }
  }
}
