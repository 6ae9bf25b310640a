/**
  The lease-and-marker write lock on the canonical JSON root (packages/json/src/filesystem.ts).

  A state machine: each action is one file-system operation of one control flow (a lock holder or a reaper of a
  stale lock), and actions of different flows interleave freely.  Time is a logical clock.  Acquisition (mkdir,
  marker and metadata) and the recursive removal of the lock directory are one action each.  A holder is fail-stop:
  it takes no further action once its own lease has expired.
 */
module WriterLock {
  import opened Wrappers

  type LockId = nat
  type OwnerId = nat
  type Flow = nat

  const DEFAULT_STALE_AFTER_MS: nat := 30_000

  datatype Metadata = Metadata(lockId: LockId, ownerId: OwnerId, updatedAt: nat, staleAfter: nat)

  /** The lock directory: its metadata file (None when missing or unparsable), owner markers and reaper claims. */
  datatype LockDir = LockDir(metadata: Option<Metadata>, markers: set<LockId>, claims: set<Flow>, mtime: nat)

  datatype Phase =
    | Idle
    | Holding(own: Metadata)
    | Renewing(own: Metadata, checkedAt: nat)
    | Releasing(own: Metadata)
    | Observed(seen: Metadata)
    | Matched(seen: Metadata)
    | Claimed(seen: Metadata)
    | Verified(seen: Metadata)
    | ObservedCorrupt
    | ClaimedCorrupt
    | VerifiedCorrupt

  /** `used` and `reaped` are history: the lock ids handed out and the lock ids removed by reapers, in order. */
  datatype State = State(now: nat, lock: Option<LockDir>, flows: map<Flow, Phase>, used: set<LockId>, reaped: seq<LockId>)
  {
    function At(f: Flow): Phase {
      if f in flows then flows[f] else Idle
    }

    function Move(f: Flow, phase: Phase): State {
      this.(flows := flows[f := phase])
    }

    predicate Holds(f: Flow) {
      At(f).Holding? || At(f).Renewing? || At(f).Releasing?
    }

    predicate Reaps(f: Flow) {
      At(f).Observed? || At(f).Matched? || At(f).Claimed? || At(f).Verified?
    }

    predicate ReapsCorrupt(f: Flow) {
      At(f).ObservedCorrupt? || At(f).ClaimedCorrupt? || At(f).VerifiedCorrupt?
    }

    predicate HoldsUnexpired(f: Flow) {
      Holds(f) && !Expired(At(f).own, now)
    }
  }

  datatype Action =
    | Tick(elapsed: nat)
    | Acquire(lockId: LockId, ownerId: OwnerId, staleAfter: nat)
    | RenewCheck
    | RenewWrite(stamp: nat)
    | ReleaseCheck
    | ReleaseRemove
    | ReapObserve
    | ReapMatch
    | ReapClaim
    | ReapVerify
    | ReapRemove
    | CorruptObserve
    | CorruptClaim
    | CorruptVerify
    | CorruptRemove

  predicate Expired(m: Metadata, now: nat) {
    now >= m.updatedAt + m.staleAfter
  }

  function MetadataOf(lock: Option<LockDir>): Option<Metadata> {
    if lock.Some? then lock.value.metadata else None
  }

  /** The lock on disk belongs to another owner; missing metadata does not count. */
  predicate OwnedByOther(lock: Option<LockDir>, ownerId: OwnerId) {
    MetadataOf(lock).Some? && MetadataOf(lock).value.ownerId != ownerId
  }

  predicate Enabled(s: State, f: Flow, a: Action) {
    match a
    case Tick(_) => true
    case Acquire(lockId, _, _) => s.At(f).Idle? && s.lock.None? && lockId !in s.used
    case RenewCheck => s.At(f).Holding? && s.HoldsUnexpired(f)
    case RenewWrite(stamp) => s.At(f).Renewing? && s.HoldsUnexpired(f) && s.At(f).checkedAt <= stamp <= s.now
    case ReleaseCheck => s.At(f).Holding? && s.HoldsUnexpired(f)
    case ReleaseRemove => s.At(f).Releasing? && s.HoldsUnexpired(f)
    case ReapObserve => s.At(f).Idle? && MetadataOf(s.lock).Some? && Expired(MetadataOf(s.lock).value, s.now)
    case ReapMatch => s.At(f).Observed?
    case ReapClaim => s.At(f).Matched?
    case ReapVerify => s.At(f).Claimed?
    case ReapRemove => s.At(f).Verified?
    case CorruptObserve =>
      s.At(f).Idle? && s.lock.Some? && s.lock.value.metadata.None? && s.now >= s.lock.value.mtime + DEFAULT_STALE_AFTER_MS
    case CorruptClaim => s.At(f).ObservedCorrupt?
    case CorruptVerify => s.At(f).ClaimedCorrupt?
    case CorruptRemove => s.At(f).VerifiedCorrupt?
  }

  function Do(s: State, f: Flow, a: Action): State
    requires Enabled(s, f, a)
  {
    match a
    case Tick(elapsed) => s.(now := s.now + elapsed)
    case Acquire(lockId, ownerId, staleAfter) =>
      var m := Metadata(lockId, ownerId, s.now, staleAfter);
      s.(lock := Some(LockDir(Some(m), {lockId}, {}, s.now)), used := s.used + {lockId}).Move(f, Holding(m))
    case RenewCheck =>
      if OwnedByOther(s.lock, s.At(f).own.ownerId) then s else s.Move(f, Renewing(s.At(f).own, s.now))
    case RenewWrite(stamp) =>
      var m := s.At(f).own.(updatedAt := stamp);
      var dir := if s.lock.Some? then s.lock.value else LockDir(None, {}, {}, s.now);
      s.(lock := Some(dir.(metadata := Some(m), mtime := s.now))).Move(f, Holding(m))
    case ReleaseCheck =>
      s.Move(f, if OwnedByOther(s.lock, s.At(f).own.ownerId) then Idle else Releasing(s.At(f).own))
    case ReleaseRemove => s.(lock := None).Move(f, Idle)
    case ReapObserve => s.Move(f, Observed(MetadataOf(s.lock).value))
    case ReapMatch =>
      s.Move(f, if MetadataOf(s.lock) == Some(s.At(f).seen) then Matched(s.At(f).seen) else Idle)
    case ReapClaim =>
      var m := s.At(f).seen;
      if s.lock.Some? && m.lockId in s.lock.value.markers then
        var d := s.lock.value;
        s.(lock := Some(d.(markers := d.markers - {m.lockId}, claims := d.claims + {f}, mtime := s.now)))
        .Move(f, Claimed(m))
      else s.Move(f, Idle)
    case ReapVerify =>
      var m := s.At(f).seen;
      if MetadataOf(s.lock) == Some(m) then s.Move(f, Verified(m))
      else if s.lock.Some? && f in s.lock.value.claims then
        var d := s.lock.value;
        s.(lock := Some(d.(markers := d.markers + {m.lockId}, claims := d.claims - {f}, mtime := s.now))).Move(f, Idle)
      else s.Move(f, Idle)
    case ReapRemove =>
      var removed := if MetadataOf(s.lock).Some? then [MetadataOf(s.lock).value.lockId] else [];
      s.(lock := None, reaped := s.reaped + removed).Move(f, Idle)
    case CorruptObserve => s.Move(f, ObservedCorrupt)
    case CorruptClaim =>
      if s.lock.Some? then
        s.(lock := Some(s.lock.value.(claims := s.lock.value.claims + {f}, mtime := s.now))).Move(f, ClaimedCorrupt)
      else s.Move(f, Idle)
    case CorruptVerify =>
      if MetadataOf(s.lock).Some? then
        s.(lock := Some(s.lock.value.(claims := s.lock.value.claims - {f}, mtime := s.now))).Move(f, Idle)
      else s.Move(f, VerifiedCorrupt)
    case CorruptRemove => s.(lock := None).Move(f, Idle)
  }

  datatype Step = Step(flow: Flow, action: Action)

  /** The state after a run, or None when some action is not possible where it stands. */
  function Execute(s: State, steps: seq<Step>): Option<State>
    decreases |steps|
  {
    if steps == [] then Some(s)
    else if !Enabled(s, steps[0].flow, steps[0].action) then None
    else Execute(Do(s, steps[0].flow, steps[0].action), steps[1..])
  }

  /** At most one flow holds an unexpired lease. */
  ghost predicate MutualExclusion(s: State) {
    forall f, g :: s.HoldsUnexpired(f) && s.HoldsUnexpired(g) ==> f == g
  }

  ghost predicate NoDuplicates(ids: seq<LockId>) {
    forall i, j :: 0 <= i < j < |ids| ==> ids[i] != ids[j]
  }

  /** No flow is active.  A lock directory may be left over from a crashed process. */
  ghost predicate Initial(s: State) {
    && s.flows == map[]
    && s.reaped == []
    && (MetadataOf(s.lock).Some? ==>
          var id := MetadataOf(s.lock).value.lockId;
          id in s.used && s.lock.value.markers <= {id})
  }

  /** The left-over directory has no readable metadata. */
  predicate CorruptLock(s: State) {
    s.lock.Some? && s.lock.value.metadata.None?
  }

  // ---------- The invariant ----------

  ghost predicate LockShape(s: State) {
    s.lock.Some? ==>
      && s.lock.value.metadata.Some?
      && s.lock.value.metadata.value.lockId in s.used
      && s.lock.value.markers <= {s.lock.value.metadata.value.lockId}
  }

  ghost predicate HoldersOk(s: State) {
    && (forall f :: s.Holds(f) ==> s.At(f).own.lockId in s.used)
    && (forall f :: s.HoldsUnexpired(f) ==> MetadataOf(s.lock) == Some(s.At(f).own))
    && (forall f, g :: s.Holds(f) && s.Holds(g) && f != g ==> s.At(f).own.lockId != s.At(g).own.lockId)
  }

  /** What a reaper has seen is dead: its holder, if any, has expired, and its metadata no longer changes. */
  ghost predicate ReapersOk(s: State) {
    && (forall f :: s.Reaps(f) ==> s.At(f).seen.lockId in s.used)
    && (forall f, g :: s.Reaps(f) && s.Holds(g) && s.At(g).own.lockId == s.At(f).seen.lockId
                       ==> Expired(s.At(g).own, s.now))
    && (forall f :: s.Reaps(f) && MetadataOf(s.lock).Some? && MetadataOf(s.lock).value.lockId == s.At(f).seen.lockId
                    ==> MetadataOf(s.lock).value == s.At(f).seen)
  }

  predicate OwnsClaim(s: State, f: Flow) {
    s.At(f).Claimed? || s.At(f).Verified?
  }

  /** A claimed marker is gone from the directory, so one flow at most has claimed the present directory. */
  ghost predicate ClaimsOk(s: State) {
    && (forall f :: OwnsClaim(s, f) ==>
          && s.lock.Some?
          && MetadataOf(s.lock) == Some(s.At(f).seen)
          && s.At(f).seen.lockId !in s.lock.value.markers)
    && (forall f, g :: OwnsClaim(s, f) && OwnsClaim(s, g) ==> f == g)
  }

  ghost predicate HistoryOk(s: State) {
    && NoDuplicates(s.reaped)
    && (forall id <- s.reaped :: id in s.used)
    && (MetadataOf(s.lock).Some? ==> MetadataOf(s.lock).value.lockId !in s.reaped)
  }

  ghost predicate Inv(s: State) {
    && LockShape(s)
    && HoldersOk(s)
    && ReapersOk(s)
    && ClaimsOk(s)
    && HistoryOk(s)
    && forall f :: !s.ReapsCorrupt(f)
  }

  lemma HolderActionKeepsInv(s: State, f: Flow, a: Action)
    requires Inv(s) && Enabled(s, f, a)
    requires a.Tick? || a.Acquire? || a.RenewCheck? || a.RenewWrite? || a.ReleaseCheck? || a.ReleaseRemove?
    ensures Inv(Do(s, f, a))
  {
    var t := Do(s, f, a);
    assert forall g :: g != f || a.Tick? ==> t.At(g) == s.At(g);
    forall g ensures !t.ReapsCorrupt(g) && (OwnsClaim(t, g) ==> OwnsClaim(s, g)) {
      assert !s.ReapsCorrupt(g);
    }
  }

  lemma LookKeepsInv(s: State, f: Flow, a: Action)
    requires Inv(s) && Enabled(s, f, a) && (a.ReapObserve? || a.ReapMatch?)
    ensures Inv(Do(s, f, a))
  {
    var t := Do(s, f, a);
    assert forall g :: g != f ==> t.At(g) == s.At(g);
    forall g ensures !t.ReapsCorrupt(g) {
      assert !s.ReapsCorrupt(g);
    }
    forall g, h | OwnsClaim(t, g) && OwnsClaim(t, h) ensures g == h {
      assert g != f ==> OwnsClaim(s, g);
      assert h != f ==> OwnsClaim(s, h);
    }
  }

  lemma ClaimKeepsInv(s: State, f: Flow, a: Action)
    requires Inv(s) && Enabled(s, f, a) && (a.ReapClaim?)
    ensures Inv(Do(s, f, a))
  {
    var t := Do(s, f, a);
    assert forall g :: g != f ==> t.At(g) == s.At(g);
    forall g ensures !t.ReapsCorrupt(g) {
      assert !s.ReapsCorrupt(g);
    }
    forall g, h | OwnsClaim(t, g) && OwnsClaim(t, h) ensures g == h {
      assert g != f ==> OwnsClaim(s, g);
      assert h != f ==> OwnsClaim(s, h);
    }
  }

  lemma VerifyKeepsInv(s: State, f: Flow, a: Action)
    requires Inv(s) && Enabled(s, f, a) && (a.ReapVerify?)
    ensures Inv(Do(s, f, a))
  {
    var t := Do(s, f, a);
    assert forall g :: g != f ==> t.At(g) == s.At(g);
    forall g ensures !t.ReapsCorrupt(g) {
      assert !s.ReapsCorrupt(g);
    }
    assert OwnsClaim(s, f);
    forall g | g != f ensures !OwnsClaim(t, g) {
      assert OwnsClaim(t, g) ==> OwnsClaim(s, g);
    }
  }

  lemma RemoveKeepsInv(s: State, f: Flow, a: Action)
    requires Inv(s) && Enabled(s, f, a) && (a.ReapRemove?)
    ensures Inv(Do(s, f, a))
  {
    var t := Do(s, f, a);
    assert forall g :: g != f ==> t.At(g) == s.At(g);
    forall g ensures !t.ReapsCorrupt(g) {
      assert !s.ReapsCorrupt(g);
    }
    assert OwnsClaim(s, f);
    forall g | g != f ensures !OwnsClaim(t, g) {
      assert OwnsClaim(t, g) ==> OwnsClaim(s, g);
    }
  }

  lemma ActionKeepsInv(s: State, f: Flow, a: Action)
    requires Inv(s) && Enabled(s, f, a)
    ensures Inv(Do(s, f, a))
  {
    assert !s.ReapsCorrupt(f);
    if a.ReapObserve? || a.ReapMatch? {
      LookKeepsInv(s, f, a);
    } else if a.ReapClaim? {
      ClaimKeepsInv(s, f, a);
    } else if a.ReapVerify? {
      VerifyKeepsInv(s, f, a);
    } else if a.ReapRemove? {
      RemoveKeepsInv(s, f, a);
    } else {
      HolderActionKeepsInv(s, f, a);
    }
  }

  lemma {:induction false} RunKeepsInv(s: State, steps: seq<Step>)
    requires Inv(s) && Execute(s, steps).Some?
    ensures Inv(Execute(s, steps).value)
    decreases |steps|
  {
    if steps != [] {
      ActionKeepsInv(s, steps[0].flow, steps[0].action);
      RunKeepsInv(Do(s, steps[0].flow, steps[0].action), steps[1..]);
    }
  }

  // ---------- Mutual exclusion ----------

  /** From a start without a corrupt lock directory, every run has at most one unexpired holder, and no lock id is
      ever removed by two reapers. */
  lemma RunsAreExclusive(s: State, steps: seq<Step>)
    requires Initial(s) && !CorruptLock(s) && Execute(s, steps).Some?
    ensures MutualExclusion(Execute(s, steps).value)
    ensures NoDuplicates(Execute(s, steps).value.reaped)
    ensures forall f :: Execute(s, steps).value.HoldsUnexpired(f) ==>
              MetadataOf(Execute(s, steps).value.lock) == Some(Execute(s, steps).value.At(f).own)
  {
    RunKeepsInv(s, steps);
  }

  ghost function FreshId(used: set<LockId>): (id: LockId)
    ensures forall x <- used :: x < id
  {
    if used == {} then 0
    else
      var x :| x in used;
      var rest := FreshId(used - {x});
      assert forall y <- used :: y == x || y in used - {x};
      if x < rest then rest else x + 1
  }

  lemma {:induction false} Extend(s: State, steps: seq<Step>, f: Flow, a: Action)
    requires Execute(s, steps).Some? && Enabled(Execute(s, steps).value, f, a)
    ensures Execute(s, steps + [Step(f, a)]) == Some(Do(Execute(s, steps).value, f, a))
    decreases |steps|
  {
    if steps != [] {
      Extend(Do(s, steps[0].flow, steps[0].action), steps[1..], f, a);
      assert (steps + [Step(f, a)])[1..] == steps[1..] + [Step(f, a)];
    } else {
      assert (steps + [Step(f, a)])[1..] == [];
    }
  }

  /** Two reapers of one corrupt directory can both pass their last check. */
  lemma BothReapersVerify(s: State) returns (steps: seq<Step>, t: State)
    requires Initial(s) && CorruptLock(s)
    ensures Execute(s, steps) == Some(t)
    ensures t.At(1).VerifiedCorrupt? && t.At(2).VerifiedCorrupt? && t.At(3).Idle? && t.At(4).Idle?
    ensures t.used == s.used
  {
    steps := [];
    t := s;
    var schedule := [Step(0, Tick(s.lock.value.mtime + DEFAULT_STALE_AFTER_MS)),
                     Step(1, CorruptObserve), Step(2, CorruptObserve), Step(1, CorruptClaim),
                     Step(1, CorruptVerify), Step(2, CorruptClaim), Step(2, CorruptVerify)];
    for i := 0 to 7
      invariant Execute(s, steps) == Some(t)
      invariant t.lock.Some? && t.lock.value.metadata.None? && t.used == s.used
      invariant i > 0 ==> t.now >= s.lock.value.mtime + DEFAULT_STALE_AFTER_MS
      invariant i <= 3 ==> t.lock == s.lock
      invariant t.At(1) == if i < 2 then Idle else if i < 4 then ObservedCorrupt else if i < 5 then ClaimedCorrupt else VerifiedCorrupt
      invariant t.At(2) == if i < 3 then Idle else if i < 6 then ObservedCorrupt else if i < 7 then ClaimedCorrupt else VerifiedCorrupt
      invariant t.At(3).Idle? && t.At(4).Idle?
    {
      Extend(s, steps, schedule[i].flow, schedule[i].action);
      steps, t := steps + [schedule[i]], Do(t, schedule[i].flow, schedule[i].action);
    }
  }

  /** The second of them then removes the lock of a holder that came in between. */
  lemma DoubleReapBreaksExclusion(s: State) returns (steps: seq<Step>)
    requires Initial(s) && CorruptLock(s)
    ensures Execute(s, steps).Some? && !MutualExclusion(Execute(s, steps).value)
  {
    var t;
    steps, t := BothReapersVerify(s);
    var id := FreshId(s.used);
    Extend(s, steps, 1, CorruptRemove);
    steps, t := steps + [Step(1, CorruptRemove)], Do(t, 1, CorruptRemove);
    Extend(s, steps, 3, Acquire(id, 3, 1));
    steps, t := steps + [Step(3, Acquire(id, 3, 1))], Do(t, 3, Acquire(id, 3, 1));
    Extend(s, steps, 2, CorruptRemove);
    steps, t := steps + [Step(2, CorruptRemove)], Do(t, 2, CorruptRemove);
    Extend(s, steps, 4, Acquire(id + 1, 4, 1));
    steps, t := steps + [Step(4, Acquire(id + 1, 4, 1))], Do(t, 4, Acquire(id + 1, 4, 1));
    assert t.HoldsUnexpired(3) && t.HoldsUnexpired(4);
  }

  /** The lock is exclusive in every run from an initial state if and only if no corrupt lock directory was left over:
      the corrupt-metadata path of the reaper has no marker that only one reaper could take. */
  lemma ExclusionExactly(s: State)
    requires Initial(s)
    ensures (forall steps :: Execute(s, steps).Some? ==> MutualExclusion(Execute(s, steps).value)) <==> !CorruptLock(s)
  {
    if CorruptLock(s) {
      var steps := DoubleReapBreaksExclusion(s);
    } else {
      forall steps | Execute(s, steps).Some? ensures MutualExclusion(Execute(s, steps).value) {
        RunsAreExclusive(s, steps);
      }
    }
  }

  // ---------- Progress ----------

  /** One flow takes these actions, and nothing happens in between. */
  function Acts(s: State, f: Flow, actions: seq<Action>): Option<State>
    decreases |actions|
  {
    if actions == [] then Some(s)
    else if !Enabled(s, f, actions[0]) then None
    else Acts(Do(s, f, actions[0]), f, actions[1..])
  }

  function By(f: Flow, actions: seq<Action>): seq<Step> {
    seq(|actions|, i requires 0 <= i < |actions| => Step(f, actions[i]))
  }

  lemma {:induction false} ActsIsRun(s: State, f: Flow, actions: seq<Action>)
    ensures Execute(s, By(f, actions)) == Acts(s, f, actions)
    decreases |actions|
  {
    hide Enabled, Do;
    if actions != [] {
      assert By(f, actions)[1..] == By(f, actions[1..]);
      if Enabled(s, f, actions[0]) { ActsIsRun(Do(s, f, actions[0]), f, actions[1..]); }
    }
  }

  /** While time passes the flow holds the lock for that long and no longer. */
  ghost predicate HoldsFor(s: State, f: Flow, lease: nat) {
    forall elapsed: nat :: Do(s, f, Tick(elapsed)).HoldsUnexpired(f) <==> elapsed < lease
  }

  /** On a free lock anyone idle becomes the holder, for as long as the lease says. */
  lemma FreeLockIsAcquired(s: State, f: Flow, lockId: LockId, ownerId: OwnerId, staleAfter: nat)
    requires s.lock.None? && s.At(f).Idle? && lockId !in s.used
    ensures Enabled(s, f, Acquire(lockId, ownerId, staleAfter))
    ensures var t := Do(s, f, Acquire(lockId, ownerId, staleAfter));
            && t.At(f) == Holding(Metadata(lockId, ownerId, s.now, staleAfter)) && MetadataOf(t.lock) == Some(t.At(f).own)
            && lockId in t.lock.value.markers
            && HoldsFor(t, f, staleAfter)
            && (forall g :: g != f ==> t.At(g) == s.At(g))
            && (forall g, id, owner, lease :: !Enabled(t, g, Acquire(id, owner, lease)))
  {
  }

  /** A release that nothing interrupts frees the lock: any idle flow may acquire it then. */
  lemma ReleaseFreesLock(s: State, f: Flow)
    requires Inv(s) && s.At(f).Holding? && s.HoldsUnexpired(f)
    ensures var r := Acts(s, f, [ReleaseCheck, ReleaseRemove]);
            && r == Some(s.(lock := None, flows := s.flows[f := Idle]))
            && forall g, id, owner, lease :: r.value.At(g).Idle? && id !in s.used ==> Enabled(r.value, g, Acquire(id, owner, lease))
  {
    var checked := Do(s, f, ReleaseCheck);
    assert MetadataOf(s.lock) == Some(s.At(f).own);
    assert [ReleaseCheck, ReleaseRemove][1..] == [ReleaseRemove];
    assert checked == s.Move(f, Releasing(s.At(f).own));
    assert Do(checked, f, ReleaseRemove).flows == s.flows[f := Idle];
  }

  /** A release and a renewal that find the metadata of another owner leave the lock as it is. */
  lemma OthersLockIsLeftAlone(s: State, f: Flow)
    requires s.At(f).Holding? && s.HoldsUnexpired(f)
    requires s.lock.Some? && s.lock.value.metadata.Some? && s.lock.value.metadata.value.ownerId != s.At(f).own.ownerId
    ensures Acts(s, f, [ReleaseCheck]) == Some(s.(flows := s.flows[f := Idle]))
    ensures Acts(s, f, [RenewCheck]) == Some(s)
  {
    assert [ReleaseCheck][1..] == [] && [RenewCheck][1..] == [];
  }

  /** A renewal that nothing interrupts keeps lock id and owner and lets the lease run from its stamp on. */
  lemma RenewalExtendsLease(s: State, f: Flow)
    requires Inv(s) && s.At(f).Holding? && s.HoldsUnexpired(f)
    ensures var r := Acts(s, f, [RenewCheck, RenewWrite(s.now)]); var own := s.At(f).own.(updatedAt := s.now);
            && r.Some? && r.value.At(f) == Holding(own) && MetadataOf(r.value.lock) == Some(own)
            && r.value.lock.value.markers == s.lock.value.markers && r.value.used == s.used && r.value.now == s.now
            && HoldsFor(r.value, f, own.staleAfter)
            && forall g :: g != f ==> r.value.At(g) == s.At(g)
  {
    var checked := Do(s, f, RenewCheck);
    assert MetadataOf(s.lock) == Some(s.At(f).own);
    assert [RenewCheck, RenewWrite(s.now)][1..] == [RenewWrite(s.now)];
    assert checked == s.Move(f, Renewing(s.At(f).own, s.now));
    assert Enabled(checked, f, RenewWrite(s.now));
    var t := Do(checked, f, RenewWrite(s.now));
    assert [RenewWrite(s.now)][1..] == [] && Acts(checked, f, [RenewWrite(s.now)]) == Some(t);
  }

  /** A lock whose lease has run out and whose marker is there is removed by an undisturbed reaper. */
  lemma ReaperFreesExpiredLock(s: State, f: Flow)
    requires s.At(f).Idle? && s.lock.Some? && s.lock.value.metadata.Some?
    requires Expired(s.lock.value.metadata.value, s.now) && s.lock.value.metadata.value.lockId in s.lock.value.markers
    ensures Acts(s, f, [ReapObserve, ReapMatch, ReapClaim, ReapVerify, ReapRemove])
         == Some(s.(lock := None, flows := s.flows[f := Idle], reaped := s.reaped + [s.lock.value.metadata.value.lockId]))
  {
    var m := s.lock.value.metadata.value;
    var actions := [ReapObserve, ReapMatch, ReapClaim, ReapVerify, ReapRemove];
    assert actions[1..] == [ReapMatch, ReapClaim, ReapVerify, ReapRemove];
    var t := Do(s, f, ReapObserve);
    assert [ReapMatch, ReapClaim, ReapVerify, ReapRemove][1..] == [ReapClaim, ReapVerify, ReapRemove];
    t := Do(t, f, ReapMatch);
    assert [ReapClaim, ReapVerify, ReapRemove][1..] == [ReapVerify, ReapRemove];
    t := Do(t, f, ReapClaim);
    assert [ReapVerify, ReapRemove][1..] == [ReapRemove];
    t := Do(t, f, ReapVerify);
    assert t.flows == s.flows[f := Verified(m)];
    assert [ReapRemove][1..] == [];
    assert Do(t, f, ReapRemove).flows == s.flows[f := Idle];
  }

  /** Nobody sets out to reap a lease that has not run out, nor a directory without metadata before its time. */
  lemma LiveLockIsNotReaped(s: State, f: Flow)
    requires s.At(f).Idle? && s.lock.Some?
    ensures Enabled(s, f, ReapObserve) <==>
              s.lock.value.metadata.Some? && s.now >= s.lock.value.metadata.value.updatedAt + s.lock.value.metadata.value.staleAfter
    ensures Enabled(s, f, CorruptObserve) <==> s.lock.value.metadata.None? && s.now >= s.lock.value.mtime + 30_000
  {
  }

  /**
    A reaper that finds the metadata changed gives up: before its claim it has touched nothing, and after it the marker
    goes back to its place.
   */
  lemma ReaperGivesUp(s: State, f: Flow)
    requires s.lock.Some? && s.lock.value.metadata != Some(if s.Reaps(f) then s.At(f).seen else Metadata(0, 0, 0, 0))
    ensures s.At(f).Observed? ==> Acts(s, f, [ReapMatch]) == Some(s.(flows := s.flows[f := Idle]))
    ensures s.At(f).Claimed? && f in s.lock.value.claims ==>
              var r := Acts(s, f, [ReapVerify]);
              && r.Some? && r.value.lock.Some? && r.value.At(f).Idle? && r.value.lock.value.metadata == s.lock.value.metadata
              && r.value.lock.value.markers == s.lock.value.markers + {s.At(f).seen.lockId}
              && r.value.lock.value.claims == s.lock.value.claims - {f}
  {
    assert [ReapMatch][1..] == [] && [ReapVerify][1..] == [];
  }

  /** Where the marker is gone, another reaper has taken it: this one leaves the lock alone. */
  lemma TakenMarkerStopsReaper(s: State, f: Flow)
    requires s.At(f).Matched? && (s.lock.None? || s.At(f).seen.lockId !in s.lock.value.markers)
    ensures Acts(s, f, [ReapClaim]) == Some(s.(flows := s.flows[f := Idle]))
  {
    assert [ReapClaim][1..] == [];
  }

  /** A directory without metadata is removed by an undisturbed reaper once it is old enough, unless metadata turns up. */
  lemma CorruptLockIsReaped(s: State, f: Flow)
    requires CorruptLock(s) && s.At(f).Idle? && s.now >= s.lock.value.mtime + DEFAULT_STALE_AFTER_MS
    ensures Acts(s, f, [CorruptObserve, CorruptClaim, CorruptVerify, CorruptRemove]) == Some(s.(lock := None, flows := s.flows[f := Idle]))
  {
    var actions := [CorruptObserve, CorruptClaim, CorruptVerify, CorruptRemove];
    assert actions[1..] == [CorruptClaim, CorruptVerify, CorruptRemove];
    var t := Do(s, f, CorruptObserve);
    assert [CorruptClaim, CorruptVerify, CorruptRemove][1..] == [CorruptVerify, CorruptRemove];
    t := Do(t, f, CorruptClaim);
    assert [CorruptVerify, CorruptRemove][1..] == [CorruptRemove];
    t := Do(t, f, CorruptVerify);
    assert t.flows == s.flows[f := VerifiedCorrupt];
    assert [CorruptRemove][1..] == [];
    assert Do(t, f, CorruptRemove).flows == s.flows[f := Idle];
  }

  lemma MetadataSavesCorruptLock(s: State, f: Flow)
    requires s.At(f).ClaimedCorrupt? && s.lock.Some? && s.lock.value.metadata.Some?
    ensures var r := Acts(s, f, [CorruptVerify]);
            && r.Some? && r.value.At(f).Idle? && r.value.lock.Some? && r.value.lock.value.metadata == s.lock.value.metadata
            && r.value.lock.value.markers == s.lock.value.markers && r.value.lock.value.claims == s.lock.value.claims - {f}
  {
    assert [CorruptVerify][1..] == [];
  }
}
