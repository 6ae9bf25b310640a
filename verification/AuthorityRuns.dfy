/**
  The mutators of the authority state under the transaction protocol: what holds in every interleaving of any number
  of flows, with locks taken away at arbitrary times.
 */
module AuthorityRuns {
  import opened Wrappers
  import opened StateFileTransactions
  import opened AuthorityState

  /** Authorizations issued outside the delegated authority get ids of another form. */
  type HostCandidate = c: Candidate | !IsDelegatedId(c.authorizationId)
    ghost witness Candidate("", Binding("", "", "", "", "", ""), Provenance("", None, None, None, None, None),
                            "", "", "", "", "", None, 0, 0)

  datatype Command =
    | RequestExactDecision(request: Request)
    | ActivatePolicy(authorityId: string, digest: string, identity: PolicyIdentity, now: Time)
    | IssueFromHost(candidate: HostCandidate)
    | ConsumeAndRecordReceipt(id: string, artifactId: string, binding: Binding, now: Time)
    | ClaimCommit(artifactId: string, authorization: Candidate, claimId: string, now: Time)
    | FinalizeCommit(artifactId: string, authorization: Candidate, claimId: string, now: Time)
    | RevokeAuthorization(id: string, now: Time)
    | RevokeReceiptsOfProfile(profileId: string, beforeModeEpoch: int, now: Time)

  function Exec(c: Command, d: Authority): Effect {
    match c
    case RequestExactDecision(r) => RequestDecision(d, r)
    case ActivatePolicy(authorityId, digest, identity, now) => Activate(d, authorityId, digest, identity, now)
    case IssueFromHost(candidate) => Issue(d, candidate)
    case ConsumeAndRecordReceipt(id, artifactId, binding, now) => Consume(d, id, artifactId, binding, now)
    case ClaimCommit(artifactId, authorization, claimId, now) => Claim(d, artifactId, authorization, claimId, now)
    case FinalizeCommit(artifactId, authorization, claimId, now) => Finalize(d, artifactId, authorization, claimId, now)
    case RevokeAuthorization(id, now) => Revoke(d, id, now)
    case RevokeReceiptsOfProfile(profileId, epoch, now) => RevokeProfileReceipts(d, profileId, epoch, now)
  }

  // ---------- Budget conservation ----------

  ghost function Sum(m: map<string, Usage>, keys: set<string>): nat
    requires keys <= m.Keys
  {
    if keys == {} then 0
    else
      var k :| k in keys;
      m[k].decisions + Sum(m, keys - {k})
  }

  lemma {:induction false} SumTakesOut(m: map<string, Usage>, keys: set<string>, k: string)
    requires keys <= m.Keys && k in keys
    ensures Sum(m, keys) == m[k].decisions + Sum(m, keys - {k})
    decreases keys
  {
    var first :| first in keys && Sum(m, keys) == m[first].decisions + Sum(m, keys - {first});
    if first != k {
      SumTakesOut(m, keys - {first}, k);
      SumTakesOut(m, keys - {k}, first);
      assert keys - {first} - {k} == keys - {k} - {first};
    }
  }

  lemma {:induction false} SumDependsOnDecisions(m: map<string, Usage>, n: map<string, Usage>, keys: set<string>)
    requires keys <= m.Keys && keys <= n.Keys
    requires forall k <- keys :: m[k].decisions == n[k].decisions
    ensures Sum(m, keys) == Sum(n, keys)
    decreases keys
  {
    if keys != {} {
      var k :| k in keys;
      SumTakesOut(m, keys, k);
      SumTakesOut(n, keys, k);
      SumDependsOnDecisions(m, n, keys - {k});
    }
  }

  predicate IsUsageOf(key: string, digest: Digest) {
    digest + ":" <= key
  }

  predicate IsIssuedUnder(id: string, digest: Digest) {
    DelegatedPrefix(digest) <= id
  }

  /** The usage records of the rules of one digest. */
  function UsageKeys(d: Authority, digest: Digest): set<string> {
    set k | k in d.usages && IsUsageOf(k, digest)
  }

  /** The authorizations the delegated authority issued under one digest. */
  function IssuedIds(d: Authority, digest: Digest): set<string> {
    set id | id in d.authorizations && IsIssuedUnder(id, digest)
  }

  ghost predicate WithinBudget(d: Authority) {
    forall k <- d.usages :: d.usages[k].decisions <= d.usages[k].decisionBudget
  }

  ghost predicate Conserved(d: Authority, digest: Digest) {
    Sum(d.usages, UsageKeys(d, digest)) == |IssuedIds(d, digest)|
  }

  ghost predicate BudgetOk(d: Authority) {
    WithinBudget(d) && forall digest: Digest :: Conserved(d, digest)
  }

  lemma UsageKeyBelongsToOneDigest(digest: Digest, other: Digest, ruleId: string)
    ensures IsUsageOf(UsageKey(digest, ruleId), other) <==> other == digest
  {
    assert UsageKey(digest, ruleId)[..DIGEST_LENGTH] == digest;
    assert (other + ":")[..DIGEST_LENGTH] == other;
    if other + ":" <= UsageKey(digest, ruleId) {
      assert UsageKey(digest, ruleId)[..DIGEST_LENGTH] == (other + ":")[..DIGEST_LENGTH];
    }
  }

  lemma DelegatedIdBelongsToOneDigest(digest: Digest, other: Digest, rest: string)
    ensures IsIssuedUnder(DelegatedId(digest, rest), other) <==> other == digest
  {
    var n := |"authorization-"|;
    assert DelegatedId(digest, rest)[n..n + DIGEST_LENGTH] == digest;
    assert DelegatedPrefix(other)[n..n + DIGEST_LENGTH] == other;
    if DelegatedPrefix(other) <= DelegatedId(digest, rest) {
      assert DelegatedId(digest, rest)[n..n + DIGEST_LENGTH] == DelegatedPrefix(other)[n..n + DIGEST_LENGTH];
    }
  }

  lemma SameKeysConserve(d: Authority, e: Authority, digest: Digest)
    requires Conserved(d, digest) && e.usages == d.usages
    requires IssuedIds(e, digest) == IssuedIds(d, digest)
    ensures Conserved(e, digest)
  {
    assert UsageKeys(e, digest) == UsageKeys(d, digest);
  }

  /** Raising one usage record by one raises the sum over any set of records that contains it by one. */
  lemma OneMoreDecision(m: map<string, Usage>, n: map<string, Usage>, keys: set<string>, key: string)
    requires keys <= m.Keys && n.Keys == m.Keys + {key}
    requires forall k <- keys :: k != key ==> n[k].decisions == m[k].decisions
    requires n[key].decisions == (if key in m then m[key].decisions else 0) + 1
    requires key in m ==> key in keys
    ensures Sum(n, keys + {key}) == Sum(m, keys) + 1
  {
    SumTakesOut(n, keys + {key}, key);
    assert keys + {key} - {key} == keys - {key};
    SumDependsOnDecisions(m, n, keys - {key});
    if key in m {
      SumTakesOut(m, keys, key);
    } else {
      assert keys - {key} == keys;
    }
  }

  lemma RequestConserves(d: Authority, r: Request, digest: Digest)
    requires Conserved(d, digest) && RequestDecision(d, r).Mutated?
    ensures Conserved(RequestDecision(d, r).data, digest)
  {
    var e := RequestDecision(d, r).data;
    if e != d {
      var key := UsageKey(r.digest, r.ruleId);
      var id := r.authorization.authorizationId;
      var rest :| id == DelegatedId(r.digest, rest);
      UsageKeyBelongsToOneDigest(r.digest, digest, r.ruleId);
      DelegatedIdBelongsToOneDigest(r.digest, digest, rest);
      if digest == r.digest {
        OwnDecisionConserves(d, e, digest, key, id);
      } else {
        ForeignDecisionConserves(d, e, digest, key, id);
      }
    }
  }

  lemma OwnDecisionConserves(d: Authority, e: Authority, digest: Digest, key: string, id: string)
    requires Conserved(d, digest) && NewDecision(d, e, key, id)
    requires IsUsageOf(key, digest) && IsIssuedUnder(id, digest)
    ensures Conserved(e, digest)
  {
    NewKeyAndId(d, e, digest, key, id);
    var keys := UsageKeys(d, digest);
    assert key in d.usages ==> key in keys;
    OneMoreDecision(d.usages, e.usages, keys, key);
  }

  lemma NewKeyAndId(d: Authority, e: Authority, digest: Digest, key: string, id: string)
    requires NewDecision(d, e, key, id) && IsUsageOf(key, digest) && IsIssuedUnder(id, digest)
    ensures UsageKeys(e, digest) == UsageKeys(d, digest) + {key}
    ensures |IssuedIds(e, digest)| == |IssuedIds(d, digest)| + 1
  {
    hide IsUsageOf, IsIssuedUnder;
    NewId(d, e, digest, id);
  }

  lemma NewId(d: Authority, e: Authority, digest: Digest, id: string)
    requires e.authorizations.Keys == d.authorizations.Keys + {id} && id !in d.authorizations && IsIssuedUnder(id, digest)
    ensures |IssuedIds(e, digest)| == |IssuedIds(d, digest)| + 1
  {
    hide IsIssuedUnder;
    assert IssuedIds(e, digest) == IssuedIds(d, digest) + {id};
    assert id !in IssuedIds(d, digest);
  }

  lemma ForeignDecisionConserves(d: Authority, e: Authority, digest: Digest, key: string, id: string)
    requires Conserved(d, digest) && NewDecision(d, e, key, id)
    requires !IsUsageOf(key, digest) && !IsIssuedUnder(id, digest)
    ensures Conserved(e, digest)
  {
    assert IssuedIds(e, digest) == IssuedIds(d, digest);
    assert UsageKeys(e, digest) == UsageKeys(d, digest);
    SumDependsOnDecisions(e.usages, d.usages, UsageKeys(d, digest));
  }

  lemma OtherCommandsConserve(d: Authority, c: Command, digest: Digest)
    requires Conserved(d, digest) && !c.RequestExactDecision? && Exec(c, d).Mutated?
    ensures Exec(c, d).data.usages == d.usages
    ensures Conserved(Exec(c, d).data, digest)
  {
    hide Sum, IsUsageOf, Conserved, ValidCandidate, IsStale, ProfileReceiptIsOld;
    var e := Exec(c, d).data;
    if c.IssueFromHost? {
      assert !IsIssuedUnder(c.candidate.authorizationId, digest);
    }
    assert IssuedIds(e, digest) == IssuedIds(d, digest);
    SameKeysConserve(d, e, digest);
  }

  lemma CommandKeepsBudget(c: Command, d: Authority)
    requires BudgetOk(d) && Exec(c, d).Mutated?
    ensures BudgetOk(Exec(c, d).data)
  {
    var e := Exec(c, d).data;
    forall digest: Digest ensures Conserved(e, digest) {
      assert Conserved(d, digest);
      if c.RequestExactDecision? {
        RequestConserves(d, c.request, digest);
      } else {
        OtherCommandsConserve(d, c, digest);
      }
    }
    if !c.RequestExactDecision? {
      OtherCommandsConserve(d, c, seq(DIGEST_LENGTH, _ => '0'));
    }
  }

  type ProtocolState = State<Command, Authority, Reply>

  /** In every interleaving, decisions stay within each rule's budget, and the decisions counted for one digest are
      exactly the authorizations issued under it. */
  lemma BudgetIsConservedInEveryRun(s: ProtocolState, steps: seq<Step<Command>>)
    requires Initial(s) && BudgetOk(s.file.data) && Execute(Exec, s, steps).Some?
    ensures BudgetOk(Execute(Exec, s, steps).value.file.data)
  {
    forall c, d | BudgetOk(d) && Exec(c, d).Mutated? ensures BudgetOk(Exec(c, d).data) {
      CommandKeepsBudget(c, d);
    }
    RunsKeep(Exec, d => BudgetOk(d), s, steps);
  }

  // ---------- One decision per proposal ----------

  lemma CommandKeepsIds(c: Command, d: Authority)
    requires Exec(c, d).Mutated?
    ensures d.authorizations.Keys <= Exec(c, d).data.authorizations.Keys
  {
  }

  lemma ChainKeepsIds(s: ProtocolState, i: nat, j: nat)
    requires FileOk(Exec, s) && i <= j <= |s.log|
    ensures s.past[i].authorizations.Keys <= s.past[j].authorizations.Keys
  {
    var ids := s.past[i].authorizations.Keys;
    var keeps := (d: Authority) => ids <= d.authorizations.Keys;
    forall c, d | keeps(d) && Exec(c, d).Mutated? ensures keeps(Exec(c, d).data) {
      CommandKeepsIds(c, d);
    }
    ChainKeeps(Exec, keeps, s, i, j);
  }

  /** Of all requests for one authorization id, in every interleaving, at most one is ever committed; each later one is
      answered from the stored authorization without consuming a decision. */
  lemma OneDecisionPerProposal(s: ProtocolState, steps: seq<Step<Command>>, i: nat, j: nat)
    requires Initial(s) && Execute(Exec, s, steps).Some?
    requires i < j < |Execute(Exec, s, steps).value.log|
    ensures var log := Execute(Exec, s, steps).value.log;
            log[i].RequestExactDecision? && log[j].RequestExactDecision? ==>
              log[i].request.authorization.authorizationId != log[j].request.authorization.authorizationId
  {
    RunsHaveChains(Exec, s, steps);
    var t := Execute(Exec, s, steps).value;
    ChainKeepsIds(t, i + 1, j);
    assert t.past[i + 1] != t.past[i] && t.past[j + 1] != t.past[j];
    assert Exec(t.log[i], t.past[i]).data == t.past[i + 1] && Exec(t.log[j], t.past[j]).data == t.past[j + 1];
  }

  predicate SameActivation(a: Command, b: Command) {
    && a.ActivatePolicy? && b.ActivatePolicy?
    && a.authorityId == b.authorityId && a.digest == b.digest && a.identity == b.identity
  }

  /** Activating the same identity twice in a row commits, and so raises the revision, once at most. */
  lemma RepeatedActivationNeverCommits(s: ProtocolState, steps: seq<Step<Command>>, i: nat)
    requires Initial(s) && Execute(Exec, s, steps).Some?
    requires i + 1 < |Execute(Exec, s, steps).value.log|
    ensures !SameActivation(Execute(Exec, s, steps).value.log[i], Execute(Exec, s, steps).value.log[i + 1])
  {
    RunsHaveChains(Exec, s, steps);
    var t := Execute(Exec, s, steps).value;
    var a, b := t.log[i], t.log[i + 1];
    assert Exec(a, t.past[i]).data == t.past[i + 1] && Exec(a, t.past[i]).Mutated?;
    assert Exec(b, t.past[i + 1]).data == t.past[i + 2] && t.past[i + 2] != t.past[i + 1];
    if SameActivation(a, b) {
      ActivationRevokesExactlyStale(t.past[i], a.authorityId, a.digest, a.identity, a.now);
      ActivationIsIdempotent(t.past[i], a.authorityId, a.digest, a.identity, a.now, b.now);
    }
  }

  // ---------- How long an activation lasts ----------

  /** Nothing of the issuer that can still be used carries stale provenance. */
  ghost predicate IsFresh(d: Authority, identity: PolicyIdentity) {
    && (forall id <- d.authorizations ::
          d.authorizations[id].status.Active? ==> !IsStale(identity, d.authorizations[id].candidate.provenance))
    && (forall a <- d.receipts ::
          IsUsable(d.receipts[a].status) ==> !IsStale(identity, d.receipts[a].authorization.provenance))
  }

  predicate IsUsable(status: ReceiptStatus) {
    status.Authorized? || status.CommitClaimed?
  }

  /** A runtime that was loaded before the rotation still asks under the old digest; nothing compares it with the policy. */
  predicate IssuesStale(c: Command, identity: PolicyIdentity) {
    match c
    case RequestExactDecision(r) => IsStale(identity, r.authorization.provenance)
    case IssueFromHost(candidate) => IsStale(identity, candidate.provenance)
    case _ => false
  }

  lemma CommitStaysFreshExactly(c: Command, d: Authority, identity: PolicyIdentity)
    requires IsFresh(d, identity) && Exec(c, d).Mutated? && Exec(c, d).data != d
    ensures IsFresh(Exec(c, d).data, identity) <==> !IssuesStale(c, identity)
  {
    hide IsStale, ValidCandidate, ProfileReceiptIsOld, IsFresh, Consume, Claim, Finalize, Revoke, RevokeProfileReceipts, Activate;
    match c
    case RequestExactDecision(r) => NewIsFreshExactly(d, Exec(c, d).data, r.authorization, identity);
    case IssueFromHost(candidate) => NewIsFreshExactly(d, Exec(c, d).data, candidate, identity);
    case _ => OtherCommitsStayFresh(c, d, identity);
  }

  lemma NewIsFreshExactly(d: Authority, e: Authority, c: Candidate, identity: PolicyIdentity)
    requires IsFresh(d, identity) && e.receipts == d.receipts
    requires e.authorizations == d.authorizations[c.authorizationId := Stored(c, Active, None, None)]
    ensures IsFresh(e, identity) <==> !IsStale(identity, c.provenance)
  {
    hide IsStale;
    assert e.authorizations[c.authorizationId] == Stored(c, Active, None, None);
  }

  lemma OtherCommitsStayFresh(c: Command, d: Authority, identity: PolicyIdentity)
    requires IsFresh(d, identity) && Exec(c, d).Mutated? && !c.RequestExactDecision? && !c.IssueFromHost?
    ensures IsFresh(Exec(c, d).data, identity)
  {
    hide IsStale, ProfileReceiptIsOld, RequestDecision, Issue;
  }

  /**
    In every interleaving, from a fresh state on the state stays fresh at every commit if and only if no decision or host
    authorization with stale provenance is committed.
   */
  lemma {:induction false} RunStaysFreshExactly(s: ProtocolState, steps: seq<Step<Command>>, identity: PolicyIdentity, i: nat,
                                                j: nat)
    requires Initial(s) && Execute(Exec, s, steps).Some?
    requires i <= j <= |Execute(Exec, s, steps).value.log| < |Execute(Exec, s, steps).value.past|
    requires IsFresh(Execute(Exec, s, steps).value.past[i], identity)
    ensures var t := Execute(Exec, s, steps).value;
            (forall k :: i <= k <= j ==> IsFresh(t.past[k], identity)) <==> forall k :: i <= k < j ==> !IssuesStale(t.log[k], identity)
    decreases j
  {
    hide IsFresh, IssuesStale, Exec;
    RunsHaveChains(Exec, s, steps);
    var t := Execute(Exec, s, steps).value;
    if i < j {
      RunStaysFreshExactly(s, steps, identity, i, j - 1);
      assert Exec(t.log[j - 1], t.past[j - 1]).data == t.past[j - 1 + 1] && t.past[j - 1 + 1] != t.past[j - 1];
      if IsFresh(t.past[j - 1], identity) { CommitStaysFreshExactly(t.log[j - 1], t.past[j - 1], identity); }
    }
  }

  /** A committed activation leaves a fresh state. */
  lemma ActivationMakesFresh(s: ProtocolState, steps: seq<Step<Command>>, i: nat)
    requires Initial(s) && Execute(Exec, s, steps).Some?
    requires i < |Execute(Exec, s, steps).value.log| && Execute(Exec, s, steps).value.log[i].ActivatePolicy?
    ensures |Execute(Exec, s, steps).value.past| == |Execute(Exec, s, steps).value.log| + 1
    ensures IsFresh(Execute(Exec, s, steps).value.past[i + 1], Execute(Exec, s, steps).value.log[i].identity)
  {
    RunsHaveChains(Exec, s, steps);
    var t := Execute(Exec, s, steps).value;
    var c := t.log[i];
    assert Exec(c, t.past[i]).data == t.past[i + 1] && Exec(c, t.past[i]).Mutated?;
    ActivationRevokesExactlyStale(t.past[i], c.authorityId, c.digest, c.identity, c.now);
  }
}
