/**
  The authorization profile of one binding (packages/mcp/src/local-l3-authority-registry.ts): compare-and-swap on the
  revision, a mode epoch that follows the authorization semantics, and migration of old profiles on first sight.
 */
module ProfileRegistry {
  import opened Wrappers
  import opened JsonValues
  import JsonKeys
  import JsonOrder
  import Sorting

  /** `authorization` holds the fields that decide what is allowed; `metadata` the rest. */
  datatype Profile = Profile(schemaVersion: nat, binding: Json, revision: nat, modeEpoch: nat, authorization: Json, metadata: Json)

  /** The order on keys, profile validation, and the rewriting of the limits of a version 2 profile. */
  datatype Environment = Environment(
    leq: (string, string) -> bool,
    valid: Profile -> bool,
    digestOk: Profile -> bool,
    migrateLimits: Json -> Json)

  datatype RegistryError =
    | BindingMismatch | ProfileInvalid | DigestMismatch | ExpectedRevisionRequired | RevisionConflict
    | RevisionMustIncrement | EpochMustIncrement | EpochMustStay | NothingToReplace | MustStartAtOne

  /** The same text once the keys of every object are sorted. */
  predicate SameCanonical(env: Environment, a: Json, b: Json) {
    JsonOrder.SortJson(env.leq, a) == JsonOrder.SortJson(env.leq, b)
  }

  /** What a version 2 profile becomes: new limits, and both counters move, so nothing issued under it stays current. */
  function Migrated(env: Environment, p: Profile): Profile {
    p.(schemaVersion := 3, revision := p.revision + 1, modeEpoch := p.modeEpoch + 1,
       authorization := env.migrateLimits(p.authorization))
  }

  /** A stored profile can be used: a version 2 profile once migrated, and only if its digest is right. */
  predicate IsUsable(env: Environment, p: Profile) {
    if p.schemaVersion == 2 then env.digestOk(p) && env.valid(Migrated(env, p)) else env.valid(p)
  }

  /** The profile that is in force when `stored` is found. */
  function Usable(env: Environment, stored: Option<Profile>): Option<Profile> {
    if stored.Some? && stored.value.schemaVersion == 2 then Some(Migrated(env, stored.value)) else stored
  }

  /** `next` may replace `current` in a swap that expects `expected`. */
  predicate MayReplace(env: Environment, current: Profile, next: Profile, expected: Option<nat>) {
    && expected == Some(current.revision)
    && next.revision == current.revision + 1
    && next.modeEpoch == (if SameCanonical(env, current.authorization, next.authorization) then current.modeEpoch else current.modeEpoch + 1)
  }

  predicate MayStart(next: Profile, expected: Option<nat>) {
    expected.None? && next.revision == 1 && next.modeEpoch == 1
  }

  class ProfileStore {
    const env: Environment
    const identity: Json
    var profile: Option<Profile>

    constructor (env: Environment, identity: Json)
      ensures this.env == env && this.identity == identity && profile == None
    {
      this.env, this.identity, this.profile := env, identity, None;
    }

    /** The profile as a lock holder sees it: a version 2 profile is migrated and written back first. */
    method ReadAndMigrateProfile() returns (r: Result<Option<Profile>, RegistryError>)
      modifies this`profile
      ensures r.Success? <==> (old(profile).Some? ==> IsUsable(env, old(profile).value))
      ensures r.Success? ==> profile == r.value == Usable(env, old(profile))
      ensures r.Failure? ==> profile == old(profile)
      ensures r.Failure? ==>
                r.error == if old(profile).value.schemaVersion == 2 && !env.digestOk(old(profile).value) then DigestMismatch
                           else ProfileInvalid
    {
      if profile.None? { return Success(None); }
      var raw := profile.value;
      if raw.schemaVersion != 2 {
        if !env.valid(raw) { return Failure(ProfileInvalid); }
        return Success(Some(raw));
      }
      if !env.digestOk(raw) { return Failure(DigestMismatch); }
      var migrated := Migrated(env, raw);
      if !env.valid(migrated) { return Failure(ProfileInvalid); }
      profile := Some(migrated);
      return Success(Some(migrated));
    }

    /** Why an installation is refused, one cause for each error. */
    predicate IsCauseOf(error: RegistryError, stored: Option<Profile>, next: Profile, expected: Option<nat>) {
      if !SameCanonical(env, next.binding, identity) then error == BindingMismatch
      else if !env.valid(next) then error == ProfileInvalid
      else if stored.Some? && stored.value.schemaVersion == 2 && !env.digestOk(stored.value) then error == DigestMismatch
      else if stored.Some? && !IsUsable(env, stored.value) then error == ProfileInvalid
      else
        match Usable(env, stored)
        case None => if expected.Some? then error == NothingToReplace else error == MustStartAtOne
        case Some(current) =>
          if expected.None? then error == ExpectedRevisionRequired
          else if expected.value != current.revision then error == RevisionConflict
          else if next.revision != current.revision + 1 then error == RevisionMustIncrement
          else if SameCanonical(env, current.authorization, next.authorization) then
            error == EpochMustStay && next.modeEpoch != current.modeEpoch
          else error == EpochMustIncrement && next.modeEpoch != current.modeEpoch + 1
    }

    /** One installation under the binding lock.  A refusal may leave a migration behind, and nothing else. */
    method Install(next: Profile, expected: Option<nat>) returns (r: Result<(), RegistryError>)
      modifies this`profile
      ensures r.Success? <==>
                && SameCanonical(env, next.binding, identity) && env.valid(next)
                && (old(profile).Some? ==> IsUsable(env, old(profile).value))
                && (var current := Usable(env, old(profile));
                    if current.Some? then MayReplace(env, current.value, next, expected) else MayStart(next, expected))
      ensures r.Success? ==> profile == Some(next)
      ensures r.Failure? ==>
                profile == if SameCanonical(env, next.binding, identity) && env.valid(next)
                              && (old(profile).Some? ==> IsUsable(env, old(profile).value))
                           then Usable(env, old(profile)) else old(profile)
      ensures r.Failure? ==> IsCauseOf(r.error, old(profile), next, expected)
    {
      if !SameCanonical(env, next.binding, identity) { return Failure(BindingMismatch); }
      if !env.valid(next) { return Failure(ProfileInvalid); }
      var read := ReadAndMigrateProfile();
      if read.Failure? { return Failure(read.error); }
      if read.value.Some? {
        var existing := read.value.value;
        if expected.None? { return Failure(ExpectedRevisionRequired); }
        if existing.revision != expected.value { return Failure(RevisionConflict); }
        if next.revision != existing.revision + 1 { return Failure(RevisionMustIncrement); }
        var semanticsChanged := !SameCanonical(env, existing.authorization, next.authorization);
        var expectedModeEpoch := if semanticsChanged then existing.modeEpoch + 1 else existing.modeEpoch;
        if next.modeEpoch != expectedModeEpoch {
          return Failure(if semanticsChanged then EpochMustIncrement else EpochMustStay);
        }
      } else {
        if expected.Some? { return Failure(NothingToReplace); }
        if next.revision != 1 || next.modeEpoch != 1 { return Failure(MustStartAtOne); }
      }
      profile := Some(next);
      return Success(());
    }
  }

  // ---------- Histories ----------

  /** One stored profile after another: a swap or a migration. */
  predicate Follows(env: Environment, current: Profile, next: Profile) {
    MayReplace(env, current, next, Some(current.revision)) || next == Migrated(env, current)
  }

  ghost predicate IsHistory(env: Environment, history: seq<Profile>) {
    forall i :: 0 <= i < |history| - 1 ==> Follows(env, history[i], history[i + 1])
  }

  /** Revisions rise by one with every write, and epochs never fall. */
  lemma {:induction false} CountersRise(env: Environment, history: seq<Profile>, i: nat, j: nat)
    requires IsHistory(env, history) && i <= j < |history|
    ensures history[j].revision == history[i].revision + (j - i)
    ensures history[i].modeEpoch <= history[j].modeEpoch
    decreases j - i
  {
    if i < j {
      CountersRise(env, history, i, j - 1);
      assert Follows(env, history[j - 1], history[j - 1 + 1]);
    }
  }

  /** Profiles of one epoch allow the same things. */
  lemma {:induction false} SameEpochSameSemantics(env: Environment, history: seq<Profile>, i: nat, j: nat)
    requires IsHistory(env, history) && i <= j < |history| && history[i].modeEpoch == history[j].modeEpoch
    ensures SameCanonical(env, history[i].authorization, history[j].authorization)
    decreases j - i
  {
    hide JsonOrder.SortJson;
    if i < j {
      CountersRise(env, history, i, j - 1);
      CountersRise(env, history, j - 1, j);
      SameEpochSameSemantics(env, history, i, j - 1);
      assert Follows(env, history[j - 1], history[j - 1 + 1]);
    }
  }

  // ---------- Concurrent installers ----------

  /** What an installer wants, and how far it has come; `Dead` left its lock directory behind. */
  datatype Phase =
    | Waiting(next: Profile, expected: Option<nat>)
    | Holding(next: Profile, expected: Option<nat>)
    | Migrating(next: Profile, expected: Option<nat>, migrated: Profile)
    | Loaded(next: Profile, expected: Option<nat>, existing: Option<Profile>)
    | Ready(next: Profile, expected: Option<nat>)
    | Finished
    | Dead

  /** `history` lists what the profile file has held; `swaps` which positions in it were written by an installer, and what it expected. */
  datatype State = State(history: seq<Profile>, swaps: map<nat, Option<nat>>, lock: Option<nat>, installers: map<nat, Phase>)

  function Stored(s: State): Option<Profile> {
    if s.history == [] then None else Some(s.history[|s.history| - 1])
  }

  datatype Step =
    | Arrive(pid: nat, next: Profile, expected: Option<nat>)
    | Acquire(pid: nat)
    | Load(pid: nat)
    | WriteMigrated(pid: nat)
    | Check(pid: nat)
    | WriteProfile(pid: nat)
    | Die(pid: nat)

  function Put(s: State, pid: nat, phase: Phase): State {
    s.(installers := s.installers[pid := phase])
  }

  /** Leaving the critical section removes the lock directory. */
  function Leave(s: State, pid: nat): State {
    Put(s, pid, Finished).(lock := None)
  }

  function Next(env: Environment, s: State, step: Step): State {
    match step
    case Arrive(pid, next, expected) =>
      if pid in s.installers && !s.installers[pid].Finished? then s else Put(s, pid, Waiting(next, expected))
    case Acquire(pid) =>
      if pid in s.installers && s.installers[pid].Waiting? && s.lock.None?
      then Put(s, pid, Holding(s.installers[pid].next, s.installers[pid].expected)).(lock := Some(pid)) else s
    case Load(pid) =>
      if pid in s.installers && s.installers[pid].Holding? then
        var phase := s.installers[pid];
        if Stored(s).Some? && Stored(s).value.schemaVersion == 2 then
          var migrated := Migrated(env, Stored(s).value);
          if env.digestOk(Stored(s).value) && env.valid(migrated)
          then Put(s, pid, Migrating(phase.next, phase.expected, migrated)) else Leave(s, pid)
        else if Stored(s).Some? && !env.valid(Stored(s).value) then Leave(s, pid)
        else Put(s, pid, Loaded(phase.next, phase.expected, Stored(s)))
      else s
    case WriteMigrated(pid) =>
      if pid in s.installers && s.installers[pid].Migrating? then
        var phase := s.installers[pid];
        Put(s, pid, Loaded(phase.next, phase.expected, Some(phase.migrated))).(history := s.history + [phase.migrated])
      else s
    case Check(pid) =>
      if pid in s.installers && s.installers[pid].Loaded? then
        var phase := s.installers[pid];
        var allowed := if phase.existing.Some? then MayReplace(env, phase.existing.value, phase.next, phase.expected)
                       else MayStart(phase.next, phase.expected);
        if allowed then Put(s, pid, Ready(phase.next, phase.expected)) else Leave(s, pid)
      else s
    case WriteProfile(pid) =>
      if pid in s.installers && s.installers[pid].Ready? then
        var phase := s.installers[pid];
        Leave(s, pid).(history := s.history + [phase.next], swaps := s.swaps[|s.history| := phase.expected])
      else s
    case Die(pid) => if pid in s.installers then Put(s, pid, Dead) else s
  }

  predicate IsInside(phase: Phase) {
    phase.Holding? || phase.Migrating? || phase.Loaded? || phase.Ready?
  }

  /** What an installer inside the lock knows about the file. */
  predicate Knows(env: Environment, s: State, phase: Phase) {
    match phase
    case Migrating(_, _, migrated) => Stored(s).Some? && migrated == Migrated(env, Stored(s).value)
    case Loaded(_, _, existing) => existing == Stored(s)
    case Ready(next, expected) =>
      if Stored(s).Some? then MayReplace(env, Stored(s).value, next, expected) else MayStart(next, expected)
    case _ => true
  }

  /** The profile at this position was installed: as the first one, or over the revision that was expected, with an epoch
      that moves exactly when what is allowed changes. */
  predicate IsSwap(env: Environment, history: seq<Profile>, at: nat, expected: Option<nat>)
    requires at < |history|
  {
    if at == 0 then expected == None && history[0].revision == 1 && history[0].modeEpoch == 1
    else
      && expected == Some(history[at - 1].revision) && history[at].revision == history[at - 1].revision + 1
      && history[at].modeEpoch == history[at - 1].modeEpoch
           + (if SameCanonical(env, history[at - 1].authorization, history[at].authorization) then 0 else 1)
  }

  ghost predicate Inv(env: Environment, s: State) {
    && IsHistory(env, s.history)
    && (forall pid <- s.installers :: IsInside(s.installers[pid]) ==> s.lock == Some(pid))
    && (forall pid <- s.installers :: Knows(env, s, s.installers[pid]))
    && (forall at <- s.swaps :: at < |s.history| && IsSwap(env, s.history, at, s.swaps[at]))
  }

  lemma StepKeepsInv(env: Environment, s: State, step: Step)
    requires Inv(env, s)
    ensures Inv(env, Next(env, s, step))
    ensures s.history <= Next(env, s, step).history
  {
    hide Inv, Next;
    if step.WriteProfile? {
      WriteKeepsInv(env, s, step.pid);
    } else if step.WriteMigrated? {
      MigrationKeepsInv(env, s, step.pid);
    } else {
      QuietStepKeepsInv(env, s, step);
    }
  }

  lemma QuietStepKeepsInv(env: Environment, s: State, step: Step)
    requires Inv(env, s) && !step.WriteProfile? && !step.WriteMigrated?
    ensures Inv(env, Next(env, s, step)) && s.history <= Next(env, s, step).history
  {
    hide SameCanonical, Migrated, IsSwap, MayReplace, MayStart, IsHistory;
  }

  lemma MigrationKeepsInv(env: Environment, s: State, pid: nat)
    requires Inv(env, s)
    ensures Inv(env, Next(env, s, WriteMigrated(pid))) && s.history <= Next(env, s, WriteMigrated(pid)).history
  {
    hide SameCanonical, Migrated, MayReplace, MayStart;
    var t := Next(env, s, WriteMigrated(pid));
    if pid in s.installers && s.installers[pid].Migrating? {
      assert Knows(env, s, s.installers[pid]);
      forall at | at in s.swaps ensures IsSwap(env, t.history, at, s.swaps[at]) {
        assert IsSwap(env, s.history, at, s.swaps[at]);
      }
    }
  }

  /** An installation follows from what its installer knows, and stays where it was written. */
  lemma WriteKeepsInv(env: Environment, s: State, pid: nat)
    requires Inv(env, s)
    ensures Inv(env, Next(env, s, WriteProfile(pid))) && s.history <= Next(env, s, WriteProfile(pid)).history
  {
    hide SameCanonical, Migrated;
    var t := Next(env, s, WriteProfile(pid));
    if pid in s.installers && s.installers[pid].Ready? {
      assert Knows(env, s, s.installers[pid]);
      assert IsSwap(env, t.history, |s.history|, s.installers[pid].expected);
      forall at | at in s.swaps ensures IsSwap(env, t.history, at, s.swaps[at]) {
        assert IsSwap(env, s.history, at, s.swaps[at]);
      }
    }
  }

  function Run(env: Environment, s: State, steps: seq<Step>): State
    decreases |steps|
  {
    if steps == [] then s else Run(env, Next(env, s, steps[0]), steps[1..])
  }

  lemma {:induction false} RunKeepsInv(env: Environment, s: State, steps: seq<Step>)
    requires Inv(env, s)
    ensures Inv(env, Run(env, s, steps)) && s.history <= Run(env, s, steps).history
    decreases |steps|
  {
    if steps != [] {
      StepKeepsInv(env, s, steps[0]);
      RunKeepsInv(env, Next(env, s, steps[0]), steps[1..]);
    }
  }

  function Start(history: seq<Profile>): State {
    State(history, map[], None, map[])
  }

  /**
    In every run of concurrent installers, some of which may die, over a file that was empty or held one profile: at most
    one of the installers that expect a given revision succeeds, revisions rise by one with every write, epochs never
    fall, and two profiles of one epoch allow the same things.
   */
  lemma RunsKeepHistory(env: Environment, first: Option<Profile>, steps: seq<Step>)
    ensures var t := Run(env, Start(if first.Some? then [first.value] else []), steps);
            && (forall i, j | i in t.swaps && j in t.swaps && i != j :: t.swaps[i] != t.swaps[j])
            && (forall at <- t.swaps :: at < |t.history| && IsSwap(env, t.history, at, t.swaps[at]))
            && (forall i, j :: 0 <= i < j < |t.history| ==>
                  && t.history[j].revision == t.history[i].revision + (j - i)
                  && t.history[i].modeEpoch <= t.history[j].modeEpoch
                  && (t.history[i].modeEpoch == t.history[j].modeEpoch ==>
                        SameCanonical(env, t.history[i].authorization, t.history[j].authorization)))
  {
    hide SameCanonical, Next;
    var start := Start(if first.Some? then [first.value] else []);
    RunKeepsInv(env, start, steps);
    var t := Run(env, start, steps);
    forall i, j | 0 <= i < j < |t.history|
      ensures t.history[j].revision == t.history[i].revision + (j - i)
      ensures t.history[i].modeEpoch <= t.history[j].modeEpoch
      ensures t.history[i].modeEpoch == t.history[j].modeEpoch ==>
                SameCanonical(env, t.history[i].authorization, t.history[j].authorization)
    {
      CountersRise(env, t.history, i, j);
      if t.history[i].modeEpoch == t.history[j].modeEpoch { SameEpochSameSemantics(env, t.history, i, j); }
    }
    forall i, j | i in t.swaps && j in t.swaps && i < j ensures t.swaps[i] != t.swaps[j] {
      if i > 0 { CountersRise(env, t.history, i - 1, j - 1); }
    }
  }

  /** A migration keeps binding and metadata, moves both counters, and is done once. */
  lemma MigrationIsFinal(env: Environment, p: Profile)
    ensures var m := Migrated(env, p);
            && Usable(env, Some(m)) == Some(m) && m.binding == p.binding && m.metadata == p.metadata
            && m.revision == p.revision + 1 && m.modeEpoch == p.modeEpoch + 1
            && m.authorization == env.migrateLimits(p.authorization)
            && (IsUsable(env, m) <==> env.valid(m))
  {
  }

  /** An installer that dies stops where it is and leaves its lock, which nobody takes any more. */
  lemma DeadInstallerKeepsLock(env: Environment, s: State, pid: nat, other: nat)
    requires pid in s.installers && s.lock == Some(pid)
    ensures var t := Next(env, s, Die(pid));
            && t.installers == s.installers[pid := Dead] && t.lock == s.lock && t.history == s.history
            && Next(env, t, Acquire(other)) == t
            && forall step :: step in {Acquire(pid), Load(pid), WriteMigrated(pid), Check(pid), WriteProfile(pid)} ==> Next(env, t, step) == t
  {
  }

  /** The steps of one installer, when nobody else is about. */
  function OwnSteps(pid: nat, next: Profile, expected: Option<nat>): seq<Step> {
    [Arrive(pid, next, expected), Acquire(pid), Load(pid), WriteMigrated(pid), Check(pid), WriteProfile(pid)]
  }

  /** The file after its profile, if it has one of version 2 that can be used, has been migrated. */
  function Upgraded(env: Environment, history: seq<Profile>): seq<Profile> {
    if history != [] && history[|history| - 1].schemaVersion == 2 && IsUsable(env, history[|history| - 1])
    then history + [Migrated(env, history[|history| - 1])] else history
  }

  /** `ProfileStore.Install` would succeed over this file, apart from its checks of the new profile itself. */
  predicate MayInstall(env: Environment, history: seq<Profile>, next: Profile, expected: Option<nat>) {
    if history == [] then MayStart(next, expected)
    else
      var upgraded := Upgraded(env, history);
      IsUsable(env, history[|history| - 1]) && MayReplace(env, upgraded[|upgraded| - 1], next, expected)
  }

  lemma TakesStep(env: Environment, s: State, steps: seq<Step>, i: nat)
    requires i < |steps|
    ensures Run(env, s, steps[i..]) == Run(env, Next(env, s, steps[i]), steps[i + 1..])
  {
    assert steps[i..][0] == steps[i] && steps[i..][1..] == steps[i + 1..];
  }

  lemma UndisturbedAcquire(env: Environment, s: State, pid: nat, next: Profile, expected: Option<nat>)
    requires s.lock.None? && (pid in s.installers ==> s.installers[pid].Finished?)
    ensures Next(env, Next(env, s, Arrive(pid, next, expected)), Acquire(pid))
         == s.(installers := s.installers[pid := Holding(next, expected)], lock := Some(pid))
  {
    var arrived := Next(env, s, Arrive(pid, next, expected));
    assert Next(env, arrived, Acquire(pid)).installers == s.installers[pid := Holding(next, expected)];
  }

  /** Acquiring and loading, with the migration if one is due. */
  lemma UndisturbedLoad(env: Environment, s: State, pid: nat, next: Profile, expected: Option<nat>)
    requires s.lock.None? && (pid in s.installers ==> s.installers[pid].Finished?)
    ensures var t := AfterLoad(env, s, pid, next, expected);
            var upgraded := Upgraded(env, s.history);
            && t.history == upgraded && t.swaps == s.swaps
            && (if s.history != [] && !IsUsable(env, s.history[|s.history| - 1])
                then t.lock == None && t.installers == s.installers[pid := Finished]
                else t.lock == Some(pid)
                     && t.installers == s.installers[pid := Loaded(next, expected, Stored(s.(history := upgraded)))])
  {
    hide Migrated, Next, IsUsable;
    var holding := Holding(next, expected);
    UndisturbedAcquire(env, s, pid, next, expected);
    LoadsUnderLock(env, s.(installers := s.installers[pid := holding], lock := Some(pid)), pid);
    var loaded := Loaded(next, expected, Stored(s.(history := Upgraded(env, s.history))));
    assert s.installers[pid := holding][pid := Finished] == s.installers[pid := Finished];
    assert s.installers[pid := holding][pid := loaded] == s.installers[pid := loaded];
  }

  lemma LoadsUnderLock(env: Environment, s: State, pid: nat)
    requires s.lock == Some(pid) && pid in s.installers && s.installers[pid].Holding?
    ensures var t := Next(env, Next(env, s, Load(pid)), WriteMigrated(pid));
            var upgraded := Upgraded(env, s.history); var phase := s.installers[pid];
            && t.history == upgraded && t.swaps == s.swaps
            && (if s.history != [] && !IsUsable(env, s.history[|s.history| - 1])
                then t.lock == None && t.installers == s.installers[pid := Finished]
                else t.lock == Some(pid)
                     && t.installers == s.installers[pid := Loaded(phase.next, phase.expected, Stored(s.(history := upgraded)))])
  {
    hide Migrated;
    var t := Next(env, Next(env, s, Load(pid)), WriteMigrated(pid));
    assert t.installers == s.installers[pid := t.installers[pid]];
  }

  /** What is left to do once the profile in force is known, or the installer has been turned away. */
  lemma UndisturbedSwap(env: Environment, s: State, pid: nat, next: Profile, expected: Option<nat>)
    requires pid in s.installers
    ensures var t := Next(env, Next(env, s, Check(pid)), WriteProfile(pid));
            && (s.installers[pid].Finished? ==> t == s)
            && (s.installers[pid] == Loaded(next, expected, Stored(s)) ==>
                  && t.lock == None && t.installers == s.installers[pid := Finished]
                  && if (if s.history == [] then MayStart(next, expected) else MayReplace(env, Stored(s).value, next, expected))
                     then t.history == s.history + [next] && t.swaps == s.swaps[|s.history| := expected]
                     else t.history == s.history && t.swaps == s.swaps)
  {
    hide MayReplace, MayStart, Migrated;
    var t := Next(env, Next(env, s, Check(pid)), WriteProfile(pid));
    assert s.installers[pid].Loaded? ==> t.installers == s.installers[pid := Finished];
  }

  /** Where an undisturbed installer stands once it has loaded. */
  function AfterLoad(env: Environment, s: State, pid: nat, next: Profile, expected: Option<nat>): State {
    Next(env, Next(env, Next(env, Next(env, s, Arrive(pid, next, expected)), Acquire(pid)), Load(pid)), WriteMigrated(pid))
  }

  lemma OwnStepsRun(env: Environment, s: State, pid: nat, next: Profile, expected: Option<nat>)
    ensures Run(env, s, OwnSteps(pid, next, expected))
         == Next(env, Next(env, AfterLoad(env, s, pid, next, expected), Check(pid)), WriteProfile(pid))
  {
    hide Next;
    var steps := OwnSteps(pid, next, expected);
    assert steps[0..] == steps && steps[6..] == [];
    TakesStep(env, s, steps, 0);
    var s1 := Next(env, s, steps[0]);
    TakesStep(env, s1, steps, 1);
    var s2 := Next(env, s1, steps[1]);
    TakesStep(env, s2, steps, 2);
    var s3 := Next(env, s2, steps[2]);
    TakesStep(env, s3, steps, 3);
    var s4 := Next(env, s3, steps[3]);
    TakesStep(env, s4, steps, 4);
    TakesStep(env, Next(env, s4, steps[4]), steps, 5);
  }

  /**
    An installer that finds the lock free and is not disturbed writes what one installation writes: the migration if one is
    due, and the new profile exactly if it may be installed.  Either way the lock is free again.
   */
  lemma UndisturbedInstallation(env: Environment, s: State, pid: nat, next: Profile, expected: Option<nat>)
    requires s.lock.None? && (pid in s.installers ==> s.installers[pid].Finished?)
    ensures var t := Run(env, s, OwnSteps(pid, next, expected)); var upgraded := Upgraded(env, s.history);
            && t.lock == None && t.installers == s.installers[pid := Finished]
            && (if MayInstall(env, s.history, next, expected)
                then t.history == upgraded + [next] && t.swaps == s.swaps[|upgraded| := expected]
                else t.history == upgraded && t.swaps == s.swaps)
  {
    hide Next, Run, OwnSteps, MayReplace, MayStart, Migrated, SameCanonical;
    OwnStepsRun(env, s, pid, next, expected);
    UndisturbedLoad(env, s, pid, next, expected);
    var loaded := AfterLoad(env, s, pid, next, expected);
    UndisturbedSwap(env, loaded, pid, next, expected);
    assert loaded.installers[pid := Finished] == s.installers[pid := Finished];
  }

  /** What the epoch stands for: the authorization fields have the same content, in whatever key order. */
  lemma CanonicalMeansContent(env: Environment, a: Json, b: Json)
    requires Sorting.TotalOrder(env.leq) && JsonKeys.IsJsonValue(a) && JsonKeys.IsJsonValue(b)
    ensures SameCanonical(env, a, b) <==> JsonOrder.SameValue(a, b)
  {
    JsonOrder.SortIsNormalForm(env.leq, a, b);
  }
}
