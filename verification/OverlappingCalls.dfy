/**
  Calls on one JSON root that overlap (packages/json/src/filesystem.ts, packages/mcp/src/json-first-storage.ts).

  A state machine: each action is one step of one call, and the steps of different calls interleave freely.  Only some
  callers take the write lock; the others merely check that nobody else holds it, before each recovery.  Every call
  recovers and reads; a writer looks up the packs as well, decides what to write, checks the lock again, recovers again
  and replaces.  A call may stop anywhere, and its lock is then freed.  Looking at the replacement directory and at the
  root before a recovery is one action.  WriterLock is about the lock itself.

  Each call that has passed a check is `timely` until another call changes the disk.
 */
module OverlappingCalls {
  import opened Wrappers
  import opened CanonicalReplacement

  type Client = nat

  /** What a reading returned, and how many replacements had been committed when it ended. */
  datatype Finding<T> = Finding(entries: Entries<T>, at: nat)

  /** What a writer read, the root in which it looked up the packs, and what it makes of them. */
  datatype Plan<T> = Plan(read: Finding<T>, packs: Finding<T>, documents: Entries<T>)

  /** What follows a recovery. */
  datatype Job<T> = ToRead | ToReplace(plan: Plan<T>)

  datatype Phase<T> =
    | Idle
    | Started
    | Checked(job: Job<T>)
    | Removing(job: Job<T>, selected: seq<Name>, done: nat)
    | Copying(job: Job<T>, selected: seq<Name>, done: nat)
    | Clearing(job: Job<T>)
    | Reading(first: Option<Finding<T>>, found: Entries<T>, done: nat)
    | HasRead(read: Finding<T>, packs: Finding<T>)
    | Opening(plan: Plan<T>)
    | Beginning(plan: Plan<T>)
    | Staging(plan: Plan<T>)
    | BackingUp(plan: Plan<T>, done: nat)
    | Applying(plan: Plan<T>, done: nat)
    | Closing(plan: Plan<T>)

  /**
    Who there is, who takes the lock, who replaces and by what, and whether a call that is no longer timely may go on.
    `mayWrite` relates the documents read, the root with the packs, and what is written.
   */
  datatype Protocol<!T> = Protocol(
    rules: Rules<T>,
    clients: set<Client>,
    lockers: set<Client>,
    writers: set<Client>,
    mayWrite: (Entries<T>, Entries<T>, Entries<T>) -> bool,
    lateMayAct: bool)

  /**
    `history` lists the durable sets, the last being the present one, and `commits` the plans that made them; `answers`
    lists what loads have returned.  These and `incoming` are history.
   */
  datatype State<T> = State(
    disk: Disk<T>,
    incoming: Entries<T>,
    lock: Option<Client>,
    calls: map<Client, Phase<T>>,
    timely: set<Client>,
    history: seq<Entries<T>>,
    commits: seq<Plan<T>>,
    answers: seq<Finding<T>>)
  {
    function At(p: Client): Phase<T> {
      if p in calls then calls[p] else Idle
    }

    function Move(p: Client, phase: Phase<T>): State<T> {
      this.(calls := calls[p := phase])
    }

    function Pass(p: Client, job: Job<T>): State<T> {
      this.(calls := calls[p := Checked(job)], timely := timely + {p})
    }

    function End(p: Client): State<T> {
      this.(calls := calls[p := Idle], lock := if lock == Some(p) then None else lock)
    }

    function Write(replacement: Replacement<T>): State<T> {
      this.(disk := disk.(replacement := Some(replacement)))
    }

    function SetRoot(root: Entries<T>): State<T> {
      this.(disk := disk.(root := root))
    }

    /** The replacement directory, which every write creates when it is not there. */
    function Directory(): Replacement<T> {
      if disk.replacement.Some? then disk.replacement.value else Replacement(None, map[], map[])
    }

    function Latest(): nat {
      if |history| == 0 then 0 else |history| - 1
    }

    function Durable(): Entries<T> {
      if history == [] then map[] else history[|history| - 1]
    }

    predicate MayPass(p: Client) {
      lock == None || lock == Some(p)
    }
  }

  datatype Action<T> =
    | Start
    | Check
    | Look
    | RemoveEntry
    | RemovePart(left: T)
    | CopyEntry
    | CopyPart(left: T)
    | Clear(remains: Option<Replacement<T>>)
    | ReadEntry
    | FinishReading
    | Decide(documents: Entries<T>)
    | MakeDirectory
    | MarkStaged
    | Stage(next: Entries<T>)
    | CheckStaged
    | BackUpEntry
    | MarkBackupCreated
    | ApplyEntry
    | MarkApplied
    | Stop

  /** These actions use nothing but the lock and what the call already has. */
  predicate IsBlind<T>(a: Action<T>) {
    a.Start? || a.Check? || a.Decide? || a.Stop?
  }

  ghost predicate Enabled<T>(protocol: Protocol<T>, s: State<T>, p: Client, a: Action<T>) {
    var names := protocol.rules.names;
    var phase := s.At(p);
    && p in protocol.clients
    && (IsBlind(a) || protocol.lateMayAct || p in s.timely)
    && match a
       case Start => phase.Idle? && (p in protocol.lockers ==> s.lock == None)
       case Check => phase.Started? && s.MayPass(p)
       case Look => phase.Checked?
       case RemoveEntry => phase.Removing? && phase.done < |phase.selected|
       case RemovePart(left) =>
         && phase.Removing? && phase.done < |phase.selected| && phase.selected[phase.done] in s.disk.root
         && protocol.rules.part(left, s.disk.root[phase.selected[phase.done]])
       case CopyEntry => phase.Copying? && phase.done < |phase.selected|
       case CopyPart(left) =>
         && phase.Copying? && phase.done < |phase.selected| && phase.selected[phase.done] in s.Directory().backup
         && protocol.rules.part(left, s.Directory().backup[phase.selected[phase.done]])
       case Clear(remains) =>
         && (phase.Clearing? || phase.Opening? || phase.Closing?)
         && (remains.Some? ==> s.disk.replacement.Some?
                               && PartlyCleared(protocol.rules, s.disk.replacement.value, remains.value))
       case ReadEntry => phase.Reading? && phase.done < |names|
       case FinishReading => phase.Reading? && phase.done == |names|
       case Decide(documents) =>
         && phase.HasRead? && s.MayPass(p)
         && protocol.mayWrite(phase.read.entries, phase.packs.entries, documents)
       case MakeDirectory => phase.Beginning?
       case MarkStaged => phase.Beginning?
       case Stage(next) => phase.Staging? && Partial(protocol.rules, next, phase.plan.documents)
       case CheckStaged =>
         phase.Staging? && s.Directory().next == phase.plan.documents && Fits(protocol.rules, phase.plan.documents)
       case BackUpEntry => phase.BackingUp? && phase.done < |names|
       case MarkBackupCreated => phase.BackingUp? && phase.done == |names|
       case ApplyEntry => phase.Applying? && phase.done < |names|
       case MarkApplied => phase.Applying? && phase.done == |names|
       case Stop => !phase.Idle?
  }

  function AfterRecovery<T>(job: Job<T>): Phase<T> {
    match job
    case ToRead => Reading(None, map[], 0)
    case ToReplace(plan) => Opening(plan)
  }

  function AfterCopying<T>(job: Job<T>, selected: seq<Name>, done: nat): Phase<T> {
    if done < |selected| then Copying(job, selected, done) else Clearing(job)
  }

  function AfterRemoving<T>(job: Job<T>, selected: seq<Name>, done: nat): Phase<T> {
    if done < |selected| then Removing(job, selected, done) else AfterCopying(job, selected, 0)
  }

  /** The branches of `recoverRouteLedgerJsonReplacement`. */
  function AfterLook<T>(rules: Rules<T>, s: State<T>, p: Client, job: Job<T>): State<T> {
    match s.disk.replacement
    case None => s.Move(p, AfterRecovery(job))
    case Some(r) =>
      var verdict := rules.inspect(Only(s.disk.root, rules.names));
      var backupNames := NamesIn(r.backup, rules.names);
      if verdict == Unreadable then s.End(p)
      else if r.manifest == Some(BackupCreated) then s.Move(p, AfterRemoving(job, rules.names, 0))
      else if r.manifest != Some(Staged) && verdict == ValidSet then s.Move(p, Clearing(job))
      else if backupNames != [] then s.Move(p, AfterRemoving(job, backupNames, 0))
      else s.Move(p, Clearing(job))
  }

  /** One rename into the backup; a missing source or directory is skipped. */
  function MovedOut<T>(d: Disk<T>, n: Name): Disk<T> {
    match d.replacement
    case Some(r) => if n in d.root then Disk(d.root - {n}, Some(r.(backup := r.backup[n := d.root[n]]))) else d
    case None => d
  }

  /** One rename out of the staged set; a missing source or directory is skipped. */
  function MovedIn<T>(d: Disk<T>, n: Name): Disk<T> {
    match d.replacement
    case Some(r) => if n in r.next then Disk(d.root[n := r.next[n]], Some(r.(next := r.next - {n}))) else d
    case None => d
  }

  ghost function Do<T>(protocol: Protocol<T>, s: State<T>, p: Client, a: Action<T>): State<T>
    requires Enabled(protocol, s, p, a)
  {
    var names := protocol.rules.names;
    var phase, d, r := s.At(p), s.disk, s.Directory();
    match a
    case Start => s.(lock := if p in protocol.lockers then Some(p) else s.lock).Move(p, Started)
    case Check => s.Pass(p, ToRead)
    case Look => AfterLook(protocol.rules, s, p, phase.job)
    case RemoveEntry =>
      s.SetRoot(d.root - {phase.selected[phase.done]}).Move(p, AfterRemoving(phase.job, phase.selected, phase.done + 1))
    case RemovePart(left) => s.SetRoot(d.root[phase.selected[phase.done] := left])
    case CopyEntry =>
      var n := phase.selected[phase.done];
      s.SetRoot(if n in r.backup then d.root[n := r.backup[n]] else d.root)
      .Move(p, AfterCopying(phase.job, phase.selected, phase.done + 1))
    case CopyPart(left) => s.SetRoot(d.root[phase.selected[phase.done] := left])
    case Clear(remains) =>
      var t := s.(disk := d.(replacement := remains));
      if remains.Some? then t
      else if phase.Clearing? then t.Move(p, AfterRecovery(phase.job))
      else if phase.Opening? then t.Move(p, Beginning(phase.plan))
      else t.End(p)
    case ReadEntry =>
      var found := if names[phase.done] in d.root then phase.found[names[phase.done] := d.root[names[phase.done]]] else phase.found;
      s.Move(p, Reading(phase.first, found, phase.done + 1))
    case FinishReading =>
      var finding := Finding(phase.found, s.Latest());
      if p !in protocol.writers then s.(answers := s.answers + [finding]).End(p)
      else if phase.first.None? then s.Move(p, Reading(Some(finding), map[], 0))
      else s.Move(p, HasRead(phase.first.value, finding))
    case Decide(documents) => s.Pass(p, ToReplace(Plan(phase.read, phase.packs, documents)))
    case MakeDirectory => s.Write(r)
    case MarkStaged => s.Write(r.(manifest := Some(Staged))).Move(p, Staging(phase.plan))
    case Stage(next) => s.Write(r.(next := next))
    case CheckStaged => s.Move(p, BackingUp(phase.plan, 0))
    case BackUpEntry =>
      s.(disk := MovedOut(d, names[phase.done])).Move(p, BackingUp(phase.plan, phase.done + 1))
    case MarkBackupCreated =>
      s.(incoming := phase.plan.documents).Write(r.(manifest := Some(BackupCreated))).Move(p, Applying(phase.plan, 0))
    case ApplyEntry =>
      s.(disk := MovedIn(d, names[phase.done])).Move(p, Applying(phase.plan, phase.done + 1))
    case MarkApplied =>
      s.(history := s.history + [phase.plan.documents], commits := s.commits + [phase.plan])
      .Write(r.(manifest := Some(Applied))).Move(p, Closing(phase.plan))
    case Stop => s.End(p)
  }

  /** A change of the disk makes every other call late. */
  ghost function Next<T>(protocol: Protocol<T>, s: State<T>, p: Client, a: Action<T>): State<T>
    requires Enabled(protocol, s, p, a)
  {
    var t := Do(protocol, s, p, a);
    if t.disk == s.disk then t else t.(timely := t.timely * {p})
  }

  datatype Step<T> = Step(client: Client, action: Action<T>)

  /** The state after a run, or None when some action is not possible where it stands. */
  ghost function Execute<T>(protocol: Protocol<T>, s: State<T>, steps: seq<Step<T>>): Option<State<T>>
    decreases |steps|
  {
    if steps == [] then Some(s)
    else if !Enabled(protocol, s, steps[0].client, steps[0].action) then None
    else Execute(protocol, Next(protocol, s, steps[0].client, steps[0].action), steps[1..])
  }

  /** No call is under way.  An earlier process may have died in the middle of a replacement. */
  ghost predicate Initial<T>(protocol: Protocol<T>, s: State<T>) {
    && s.lock == None && s.calls == map[] && s.timely == {}
    && |s.history| == 1 && s.commits == [] && s.answers == []
    && Recoverable(protocol.rules, s.disk, s.Durable(), s.incoming)
  }

  /** What a reading returned was durable when it ended. */
  ghost predicate IsTrue<T>(history: seq<Entries<T>>, f: Finding<T>) {
    f.at < |history| && f.entries == history[f.at]
  }

  /** The plan follows from sets that were durable when they were read. */
  ghost predicate IsWellFounded<T>(protocol: Protocol<T>, history: seq<Entries<T>>, plan: Plan<T>) {
    && IsTrue(history, plan.read) && IsTrue(history, plan.packs) && plan.read.at <= plan.packs.at
    && protocol.mayWrite(plan.read.entries, plan.packs.entries, plan.documents)
  }

  /** Loads have returned durable sets, and every commit follows from earlier ones. */
  ghost predicate IsRecorded<T>(protocol: Protocol<T>, history: seq<Entries<T>>, commits: seq<Plan<T>>, answers: seq<Finding<T>>) {
    && (forall f <- answers :: IsTrue(history, f))
    && |history| == |commits| + 1
    && forall k :: 0 <= k < |commits| ==> IsWellFounded(protocol, history[..k + 1], commits[k]) && history[k + 1] == commits[k].documents
  }

  /** The disk leads back to the durable set, and the record is right. */
  ghost predicate Intact<T>(protocol: Protocol<T>, s: State<T>) {
    && Recoverable(protocol.rules, s.disk, s.Durable(), s.incoming)
    && IsRecorded(protocol, s.history, s.commits, s.answers)
  }

  /** No other commit falls between what a commit has read and its own `applied` manifest. */
  ghost predicate Serial<T>(s: State<T>) {
    forall k :: 0 <= k < |s.commits| ==> s.commits[k].read.at == k && s.commits[k].packs.at == k
  }

  // ---------- The invariant ----------

  /** What has been read so far is there, and the set that will be written follows from it. */
  ghost predicate IsGrounded<T>(protocol: Protocol<T>, history: seq<Entries<T>>, p: Client, phase: Phase<T>) {
    match phase
    case Idle | Started => true
    case Checked(job) => IsGroundedJob(protocol, history, p, job)
    case Removing(job, _, _) => IsGroundedJob(protocol, history, p, job)
    case Copying(job, _, _) => IsGroundedJob(protocol, history, p, job)
    case Clearing(job) => IsGroundedJob(protocol, history, p, job)
    case Reading(first, _, _) => first.Some? ==> p in protocol.writers && IsTrue(history, first.value)
    case HasRead(read, packs) =>
      p in protocol.writers && IsTrue(history, read) && IsTrue(history, packs) && read.at <= packs.at
    case Opening(plan) => p in protocol.writers && IsWellFounded(protocol, history, plan)
    case Beginning(plan) => p in protocol.writers && IsWellFounded(protocol, history, plan)
    case Staging(plan) => p in protocol.writers && IsWellFounded(protocol, history, plan)
    case BackingUp(plan, _) => p in protocol.writers && IsWellFounded(protocol, history, plan)
    case Applying(plan, _) => p in protocol.writers && IsWellFounded(protocol, history, plan)
    case Closing(plan) => p in protocol.writers
  }

  ghost predicate IsGroundedJob<T>(protocol: Protocol<T>, history: seq<Entries<T>>, p: Client, job: Job<T>) {
    job.ToReplace? ==> p in protocol.writers && IsWellFounded(protocol, history, job.plan)
  }

  /** A restore that goes over `selected` copies either all entries or those found in the backup. */
  ghost predicate IsRestoring<T>(rules: Rules<T>, d: Disk<T>, selected: seq<Name>) {
    && d.replacement.Some?
    && var r := d.replacement.value;
       || (r.manifest == Some(BackupCreated) && selected == rules.names)
       || (r.manifest == Some(Staged) && selected == NamesIn(r.backup, rules.names))
  }

  ghost predicate HasRemoved<T>(root: Entries<T>, names: seq<Name>) {
    forall n <- names :: n !in root
  }

  /** The names before `done` have been copied; what is there of the one at `done` may be torn. */
  ghost predicate HasCopied<T>(rules: Rules<T>, root: Entries<T>, backup: Entries<T>, selected: seq<Name>, done: nat) {
    && done <= |selected|
    && (forall n <- selected :: n in root ==> n in backup && rules.part(root[n], backup[n]))
    && (forall n <- selected[..done] :: n in backup && !(done < |selected| && n == selected[done]) ==>
          n in root && root[n] == backup[n])
  }

  /** Where a timely call stands, the disk is as this call has left it. */
  ghost predicate IsInStep<T>(rules: Rules<T>, d: Disk<T>, durable: Entries<T>, incoming: Entries<T>, phase: Phase<T>) {
    var root, names := Only(d.root, rules.names), rules.names;
    match phase
    case Idle | Started | Checked(_) | HasRead(_, _) => true
    case Removing(_, selected, done) =>
      IsRestoring(rules, d, selected) && done <= |selected| && HasRemoved(d.root, selected[..done])
    case Copying(_, selected, done) =>
      IsRestoring(rules, d, selected) && HasCopied(rules, d.root, d.replacement.value.backup, selected, done)
    case Clearing(_) => root == durable
    case Reading(_, found, done) =>
      d.replacement == None && root == durable && done <= |names| && found == Only(durable, names[..done])
    case Opening(_) => d.replacement == None && root == durable
    case Beginning(_) => root == durable && d.replacement in {None, Some(Replacement(None, map[], map[]))}
    case Staging(_) =>
      root == durable && d.replacement.Some? && d.replacement.value.manifest == Some(Staged) && d.replacement.value.backup == map[]
    case BackingUp(plan, done) =>
      && done <= |names| && Fits(rules, plan.documents) && root == Without(durable, names[..done])
      && d.replacement == Some(Replacement(Some(Staged), plan.documents, Only(durable, names[..done])))
    case Applying(plan, done) =>
      && done <= |names| && Fits(rules, plan.documents) && incoming == plan.documents
      && root == Only(plan.documents, names[..done])
      && d.replacement == Some(Replacement(Some(BackupCreated), Without(plan.documents, names[..done]), durable))
    case Closing(_) => root == durable
  }

  ghost predicate Inv<T>(protocol: Protocol<T>, s: State<T>) {
    && Intact(protocol, s)
    && (forall p :: IsGrounded(protocol, s.history, p, s.At(p)))
    && (forall p <- s.timely :: IsInStep(protocol.rules, s.disk, s.Durable(), s.incoming, s.At(p)))
  }

  /** A step of a timely call. */
  ghost predicate IsTimely<T>(s: State<T>, p: Client, a: Action<T>) {
    IsBlind(a) || p in s.timely
  }

  // ---------- Steps of a timely call ----------

  lemma RemovingKeepsRecoverable<T(!new)>(rules: Rules<T>, d: Disk<T>, durable: Entries<T>, incoming: Entries<T>,
                                          selected: seq<Name>, root: Entries<T>)
    requires PartIsPreorder(rules) && Recoverable(rules, d, durable, incoming) && IsRestoring(rules, d, selected)
    requires PartlyRestored(rules, d.root, root, d.replacement.value.backup, selected)
    ensures Recoverable(rules, d.(root := root), durable, incoming)
  {
    hide Recoverable, PartlyRestored, PartIsPreorder;
    if d.replacement.value.manifest == Some(BackupCreated) {
      RestoreAllKeepsRecoverable(rules, d, durable, incoming, root);
    } else {
      RestoreKeepsRecoverable(rules, d, durable, incoming, root);
    }
  }

  /** Once all is copied, the durable entries are back. */
  lemma CopiedIsDurable<T>(rules: Rules<T>, d: Disk<T>, durable: Entries<T>, incoming: Entries<T>, selected: seq<Name>)
    requires Recoverable(rules, d, durable, incoming) && IsRestoring(rules, d, selected)
    requires HasCopied(rules, d.root, d.replacement.value.backup, selected, |selected|)
    ensures Only(d.root, rules.names) == durable
  {
    var backup := d.replacement.value.backup;
    assert selected[..|selected|] == selected;
    NamesInCoversMap(backup, rules.names);
    forall n <- durable ensures n in rules.names { assert n in Only(durable, rules.names); }
    forall n | n in rules.names
      ensures n in d.root <==> n in durable
      ensures n in durable && n in d.root ==> d.root[n] == durable[n]
    {
      if n !in selected && n in d.root { assert n in Only(d.root, rules.names); }
    }
  }

  lemma AfterCopyingInStep<T>(rules: Rules<T>, d: Disk<T>, durable: Entries<T>, incoming: Entries<T>, job: Job<T>,
                              selected: seq<Name>, done: nat)
    requires Recoverable(rules, d, durable, incoming) && IsRestoring(rules, d, selected)
    requires HasCopied(rules, d.root, d.replacement.value.backup, selected, done)
    ensures IsInStep(rules, d, durable, incoming, AfterCopying(job, selected, done))
  {
    hide Recoverable;
    if done == |selected| { CopiedIsDurable(rules, d, durable, incoming, selected); }
  }

  lemma AfterRemovingInStep<T>(rules: Rules<T>, d: Disk<T>, durable: Entries<T>, incoming: Entries<T>, job: Job<T>,
                               selected: seq<Name>, done: nat)
    requires Recoverable(rules, d, durable, incoming) && IsRestoring(rules, d, selected)
    requires done <= |selected| && HasRemoved(d.root, selected[..done])
    ensures IsInStep(rules, d, durable, incoming, AfterRemoving(job, selected, done))
  {
    hide Recoverable, IsRestoring;
    if done == |selected| {
      assert selected[..done] == selected;
      AfterCopyingInStep(rules, d, durable, incoming, job, selected, 0);
    }
  }

  /** The step keeps the disk recoverable and leaves it where the call now stands. */
  ghost predicate KeepsStep<T>(protocol: Protocol<T>, s: State<T>, p: Client, a: Action<T>)
    requires Enabled(protocol, s, p, a)
  {
    var t := Do(protocol, s, p, a);
    && Recoverable(protocol.rules, t.disk, t.Durable(), t.incoming)
    && IsInStep(protocol.rules, t.disk, t.Durable(), t.incoming, t.At(p))
    && (t.disk == s.disk ==> t.Durable() == s.Durable() && t.incoming == s.incoming)
  }

  /** A timely call on a recoverable disk. */
  ghost predicate IsStanding<T(!new)>(protocol: Protocol<T>, s: State<T>, p: Client, a: Action<T>) {
    && PartIsPreorder(protocol.rules) && Enabled(protocol, s, p, a)
    && Recoverable(protocol.rules, s.disk, s.Durable(), s.incoming)
    && IsInStep(protocol.rules, s.disk, s.Durable(), s.incoming, s.At(p))
  }

  lemma LookKeepsStep<T(!new)>(protocol: Protocol<T>, s: State<T>, p: Client)
    requires IsStanding(protocol, s, p, Look)
    ensures KeepsStep(protocol, s, p, Look)
  {
    hide PartIsPreorder;
    var rules, durable, job := protocol.rules, s.Durable(), s.At(p).job;
    if s.disk.replacement.None? {
      assert Only(durable, rules.names[..0]) == map[];
    } else if rules.inspect(Only(s.disk.root, rules.names)) != Unreadable {
      var r := s.disk.replacement.value;
      NamesInCoversMap(r.backup, rules.names);
      if r.manifest == Some(BackupCreated) {
        AfterRemovingInStep(rules, s.disk, durable, s.incoming, job, rules.names, 0);
      } else if NamesIn(r.backup, rules.names) != [] && r.manifest == Some(Staged) {
        AfterRemovingInStep(rules, s.disk, durable, s.incoming, job, NamesIn(r.backup, rules.names), 0);
      } else {
        if r.backup == map[] { NamesInEmpty<T>(rules.names); }
        assert Only(s.disk.root, rules.names) == durable;
      }
    }
  }

  lemma RemovesMore<T(!new)>(rules: Rules<T>, root: Entries<T>, backup: Entries<T>, selected: seq<Name>, done: nat)
    requires PartIsPreorder(rules) && done < |selected| && HasRemoved(root, selected[..done])
    ensures HasRemoved(root - {selected[done]}, selected[..done + 1])
    ensures PartlyRestored(rules, root, root - {selected[done]}, backup, selected)
    ensures forall left :: selected[done] in root && rules.part(left, root[selected[done]]) ==>
              && HasRemoved(root[selected[done] := left], selected[..done])
              && PartlyRestored(rules, root, root[selected[done] := left], backup, selected)
  {
    var n := selected[done];
    assert selected[..done + 1] == selected[..done] + [n];
    assert Without(root - {n}, selected) == Without(root, selected);
    forall left | n in root && rules.part(left, root[n])
      ensures HasRemoved(root[n := left], selected[..done])
      ensures PartlyRestored(rules, root, root[n := left], backup, selected)
    {
      assert Without(root[n := left], selected) == Without(root, selected);
    }
  }

  lemma RemoveKeepsStep<T(!new)>(protocol: Protocol<T>, s: State<T>, p: Client, a: Action<T>)
    requires IsStanding(protocol, s, p, a) && (a.RemoveEntry? || a.RemovePart?)
    ensures KeepsStep(protocol, s, p, a)
  {
    hide PartIsPreorder, Recoverable, PartlyRestored, HasRemoved;
    var rules, durable, phase, d := protocol.rules, s.Durable(), s.At(p), s.disk;
    var e := Do(protocol, s, p, a).disk;
    RemovesMore(rules, d.root, d.replacement.value.backup, phase.selected, phase.done);
    RemovingKeepsRecoverable(rules, d, durable, s.incoming, phase.selected, e.root);
    if a.RemoveEntry? { AfterRemovingInStep(rules, e, durable, s.incoming, phase.job, phase.selected, phase.done + 1); }
  }

  lemma CopiesMore<T(!new)>(rules: Rules<T>, root: Entries<T>, backup: Entries<T>, selected: seq<Name>, done: nat)
    requires PartIsPreorder(rules) && done < |selected| && HasCopied(rules, root, backup, selected, done)
    ensures var after := if selected[done] in backup then root[selected[done] := backup[selected[done]]] else root;
            && HasCopied(rules, after, backup, selected, done + 1)
            && PartlyRestored(rules, root, after, backup, selected)
    ensures forall left :: selected[done] in backup && rules.part(left, backup[selected[done]]) ==>
              && HasCopied(rules, root[selected[done] := left], backup, selected, done)
              && PartlyRestored(rules, root, root[selected[done] := left], backup, selected)
  {
    var n := selected[done];
    assert selected[..done + 1] == selected[..done] + [n];
    var after := if n in backup then root[n := backup[n]] else root;
    assert Without(after, selected) == Without(root, selected);
    forall left | n in backup && rules.part(left, backup[n])
      ensures HasCopied(rules, root[n := left], backup, selected, done)
      ensures PartlyRestored(rules, root, root[n := left], backup, selected)
    {
      assert Without(root[n := left], selected) == Without(root, selected);
    }
  }

  lemma CopyKeepsStep<T(!new)>(protocol: Protocol<T>, s: State<T>, p: Client, a: Action<T>)
    requires IsStanding(protocol, s, p, a) && (a.CopyEntry? || a.CopyPart?)
    ensures KeepsStep(protocol, s, p, a)
  {
    hide PartIsPreorder, Recoverable, PartlyRestored, HasCopied;
    var rules, durable, phase, d := protocol.rules, s.Durable(), s.At(p), s.disk;
    var e := Do(protocol, s, p, a).disk;
    CopiesMore(rules, d.root, d.replacement.value.backup, phase.selected, phase.done);
    RemovingKeepsRecoverable(rules, d, durable, s.incoming, phase.selected, e.root);
    if a.CopyEntry? { AfterCopyingInStep(rules, e, durable, s.incoming, phase.job, phase.selected, phase.done + 1); }
  }

  lemma ReflexivePart<T(!new)>(rules: Rules<T>)
    requires PartIsPreorder(rules)
    ensures forall t :: rules.part(t, t)
  {
  }

  lemma ClearKeepsStep<T(!new)>(protocol: Protocol<T>, s: State<T>, p: Client, a: Action<T>)
    requires IsStanding(protocol, s, p, a) && a.Clear?
    ensures KeepsStep(protocol, s, p, a)
  {
    hide PartIsPreorder;
    var rules, durable := protocol.rules, s.Durable();
    assert Only(durable, rules.names[..0]) == map[];
    if a.remains.Some? {
      ClearKeepsRecoverable(rules, s.disk, s.disk, s.disk.(replacement := a.remains), durable, s.incoming);
    }
  }

  lemma ReadEntryKeepsStep<T(!new)>(protocol: Protocol<T>, s: State<T>, p: Client)
    requires IsStanding(protocol, s, p, ReadEntry)
    ensures KeepsStep(protocol, s, p, ReadEntry)
  {
    hide PartIsPreorder, Recoverable, PartlyCleared, Partial, NamesIn, Fits, MovedIn, MovedOut;
    var names, done := protocol.rules.names, s.At(p).done;
    assert names[..done + 1] == names[..done] + [names[done]];
    assert names[done] in s.disk.root <==> names[done] in Only(s.disk.root, names);
  }

  lemma FinishReadingKeepsStep<T(!new)>(protocol: Protocol<T>, s: State<T>, p: Client)
    requires IsStanding(protocol, s, p, FinishReading)
    ensures KeepsStep(protocol, s, p, FinishReading) && s.At(p).found == s.Durable()
  {
    hide PartIsPreorder;
    var names := protocol.rules.names;
    assert Only(s.Durable(), names[..0]) == map[];
    assert names[..s.At(p).done] == names;
  }

  /** Until the first entry moves, the root holds the durable set. */
  lemma UnmovedIsRecoverable<T(!new)>(rules: Rules<T>, d: Disk<T>, durable: Entries<T>, incoming: Entries<T>)
    requires PartIsPreorder(rules) && Acceptable(rules, durable) && Only(durable, rules.names) == durable
    requires Only(d.root, rules.names) == durable && d.replacement.Some?
    requires d.replacement.value.backup == map[] && d.replacement.value.manifest in {None, Some(Staged)}
    ensures Recoverable(rules, d, durable, incoming)
  {
    forall n <- durable ensures n in d.root { assert n in Only(d.root, rules.names); }
  }

  lemma OpenKeepsStep<T(!new)>(protocol: Protocol<T>, s: State<T>, p: Client, a: Action<T>)
    requires IsStanding(protocol, s, p, a) && (a.MakeDirectory? || a.MarkStaged?)
    ensures KeepsStep(protocol, s, p, a)
  {
    UnmovedIsRecoverable(protocol.rules, Do(protocol, s, p, a).disk, s.Durable(), s.incoming);
  }

  lemma StageKeepsStep<T(!new)>(protocol: Protocol<T>, s: State<T>, p: Client, a: Action<T>)
    requires IsStanding(protocol, s, p, a) && (a.Stage? || a.CheckStaged?)
    ensures KeepsStep(protocol, s, p, a)
  {
    hide PartIsPreorder;
    var durable, names := s.Durable(), protocol.rules.names;
    assert Without(durable, names[..0]) == durable && Only(durable, names[..0]) == map[];
    if a.Stage? { UnmovedIsRecoverable(protocol.rules, Do(protocol, s, p, a).disk, s.Durable(), s.incoming); }
  }

  /** One rename between the root and the replacement directory, seen from the set that moves. */
  lemma MovesOne<T>(names: seq<Name>, whole: Entries<T>, root: Entries<T>, done: nat)
    requires done < |names|
    ensures names[..done + 1] == names[..done] + [names[done]]
    ensures Only(root, names) == Without(whole, names[..done]) ==>
              && (names[done] in root <==> names[done] in Without(whole, names[..done]))
              && (names[done] in root ==> root[names[done]] == whole[names[done]])
              && Only(root - {names[done]}, names) == Without(whole, names[..done + 1])
              && Only(whole, names[..done + 1])
                   == if names[done] in root then Only(whole, names[..done])[names[done] := whole[names[done]]] else Only(whole, names[..done])
    ensures Only(root, names) == Only(whole, names[..done]) ==>
              var next := Without(whole, names[..done]);
              && Only(if names[done] in next then root[names[done] := next[names[done]]] else root, names) == Only(whole, names[..done + 1])
              && Without(whole, names[..done + 1]) == if names[done] in next then next - {names[done]} else next
  {
    TakeOneMore(whole, names[..done], names[done]);
    assert names[done] in root <==> names[done] in Only(root, names);
  }

  lemma MovedOutInStep<T>(rules: Rules<T>, d: Disk<T>, durable: Entries<T>, incoming: Entries<T>, plan: Plan<T>, done: nat)
    requires done < |rules.names| && IsInStep(rules, d, durable, incoming, BackingUp(plan, done))
    ensures IsInStep(rules, MovedOut(d, rules.names[done]), durable, incoming, BackingUp(plan, done + 1))
  {
    hide Fits;
    MovesOne(rules.names, durable, d.root, done);
  }

  lemma BackUpKeepsStep<T(!new)>(protocol: Protocol<T>, s: State<T>, p: Client)
    requires IsStanding(protocol, s, p, BackUpEntry)
    ensures KeepsStep(protocol, s, p, BackUpEntry)
  {
    hide IsInStep, Only, Without, MovedOut;
    assert Acceptable(protocol.rules, s.Durable()) && Only(s.Durable(), protocol.rules.names) == s.Durable();
    var plan, done := s.At(p).plan, s.At(p).done;
    var e := MovedOut(s.disk, protocol.rules.names[done]);
    hide Recoverable, PartIsPreorder, Acceptable;
    MovedOutInStep(protocol.rules, s.disk, s.Durable(), s.incoming, plan, done);
    BackingUpIsRecoverable(protocol.rules, e, s.Durable(), s.incoming, plan, done + 1);
  }

  lemma BackingUpIsRecoverable<T(!new)>(rules: Rules<T>, d: Disk<T>, durable: Entries<T>, incoming: Entries<T>, plan: Plan<T>, done: nat)
    requires PartIsPreorder(rules) && Acceptable(rules, durable) && Only(durable, rules.names) == durable
    requires IsInStep(rules, d, durable, incoming, BackingUp(plan, done))
    ensures Recoverable(rules, d, durable, incoming)
  {
    hide PartIsPreorder, Fits;
    ReflexivePart(rules);
    forall n <- durable ensures n in d.root || n in d.replacement.value.backup {
      assert n in Only(durable, rules.names);
      if n !in rules.names[..done] { assert n in Without(durable, rules.names[..done]) && n in Only(d.root, rules.names); }
    }
  }

  lemma MarkBackupKeepsStep<T(!new)>(protocol: Protocol<T>, s: State<T>, p: Client)
    requires IsStanding(protocol, s, p, MarkBackupCreated)
    ensures KeepsStep(protocol, s, p, MarkBackupCreated)
  {
    hide PartIsPreorder;
    var names, documents := protocol.rules.names, s.At(p).plan.documents;
    assert names[..s.At(p).done] == names;
    assert Only(s.disk.root, names) == map[];
    assert Only(documents, names[..0]) == map[] && Without(documents, names[..0]) == documents;
  }

  lemma MovedInInStep<T>(rules: Rules<T>, d: Disk<T>, durable: Entries<T>, incoming: Entries<T>, plan: Plan<T>, done: nat)
    requires done < |rules.names| && IsInStep(rules, d, durable, incoming, Applying(plan, done))
    ensures IsInStep(rules, MovedIn(d, rules.names[done]), durable, incoming, Applying(plan, done + 1))
  {
    hide Fits;
    MovesOne(rules.names, plan.documents, d.root, done);
  }

  lemma ApplyingIsRecoverable<T(!new)>(rules: Rules<T>, d: Disk<T>, durable: Entries<T>, incoming: Entries<T>, plan: Plan<T>, done: nat)
    requires PartIsPreorder(rules) && Acceptable(rules, durable) && Only(durable, rules.names) == durable
    requires IsInStep(rules, d, durable, incoming, Applying(plan, done))
    ensures Recoverable(rules, d, durable, incoming)
  {
    hide PartIsPreorder, Fits;
    ReflexivePart(rules);
  }

  lemma ApplyKeepsStep<T(!new)>(protocol: Protocol<T>, s: State<T>, p: Client)
    requires IsStanding(protocol, s, p, ApplyEntry)
    ensures KeepsStep(protocol, s, p, ApplyEntry)
  {
    hide IsInStep, Only, Without, MovedIn;
    assert Acceptable(protocol.rules, s.Durable()) && Only(s.Durable(), protocol.rules.names) == s.Durable();
    var plan, done := s.At(p).plan, s.At(p).done;
    var e := MovedIn(s.disk, protocol.rules.names[done]);
    hide Recoverable, PartIsPreorder, Acceptable;
    MovedInInStep(protocol.rules, s.disk, s.Durable(), s.incoming, plan, done);
    ApplyingIsRecoverable(protocol.rules, e, s.Durable(), s.incoming, plan, done + 1);
  }

  lemma MarkAppliedKeepsStep<T(!new)>(protocol: Protocol<T>, s: State<T>, p: Client)
    requires IsStanding(protocol, s, p, MarkApplied)
    ensures KeepsStep(protocol, s, p, MarkApplied)
  {
    hide PartIsPreorder;
    FittingIsCanonical(protocol.rules, s.At(p).plan.documents);
    assert protocol.rules.names[..s.At(p).done] == protocol.rules.names;
  }

  lemma StepKeepsDisk<T(!new)>(protocol: Protocol<T>, s: State<T>, p: Client, a: Action<T>)
    requires PartIsPreorder(protocol.rules) && Inv(protocol, s) && Enabled(protocol, s, p, a) && IsTimely(s, p, a)
    ensures KeepsStep(protocol, s, p, a)
    ensures a.FinishReading? ==> s.At(p).found == s.Durable()
  {
    if IsBlind(a) {
      hide Recoverable;
    } else {
      assert IsStanding(protocol, s, p, a) by { hide Enabled, Recoverable, PartIsPreorder, IsInStep, IsGrounded; }
      hide Inv, KeepsStep, IsStanding, Enabled;
      match a
      case Look => LookKeepsStep(protocol, s, p);
      case RemoveEntry => RemoveKeepsStep(protocol, s, p, a);
      case RemovePart(_) => RemoveKeepsStep(protocol, s, p, a);
      case CopyEntry => CopyKeepsStep(protocol, s, p, a);
      case CopyPart(_) => CopyKeepsStep(protocol, s, p, a);
      case Clear(_) => ClearKeepsStep(protocol, s, p, a);
      case ReadEntry => ReadEntryKeepsStep(protocol, s, p);
      case FinishReading => FinishReadingKeepsStep(protocol, s, p);
      case MakeDirectory => OpenKeepsStep(protocol, s, p, a);
      case MarkStaged => OpenKeepsStep(protocol, s, p, a);
      case Stage(_) => StageKeepsStep(protocol, s, p, a);
      case CheckStaged => StageKeepsStep(protocol, s, p, a);
      case BackUpEntry => BackUpKeepsStep(protocol, s, p);
      case MarkBackupCreated => MarkBackupKeepsStep(protocol, s, p);
      case ApplyEntry => ApplyKeepsStep(protocol, s, p);
      case MarkApplied => MarkAppliedKeepsStep(protocol, s, p);
    }
  }

  /** What is grounded stays so when more is committed. */
  lemma StaysGrounded<T>(protocol: Protocol<T>, history: seq<Entries<T>>, more: seq<Entries<T>>, p: Client, phase: Phase<T>)
    requires IsGrounded(protocol, history, p, phase)
    ensures IsGrounded(protocol, history + more, p, phase)
  {
    assert forall f :: IsTrue(history, f) ==> IsTrue(history + more, f);
  }

  lemma StepKeepsGrounded<T>(protocol: Protocol<T>, s: State<T>, p: Client, a: Action<T>)
    requires Enabled(protocol, s, p, a) && IsGrounded(protocol, s.history, p, s.At(p))
    requires a.FinishReading? ==> s.history != [] && s.At(p).found == s.Durable()
    ensures IsGrounded(protocol, s.history, p, Do(protocol, s, p, a).At(p))
  {
  }

  lemma CommitIsRecorded<T>(protocol: Protocol<T>, history: seq<Entries<T>>, commits: seq<Plan<T>>, answers: seq<Finding<T>>,
                            plan: Plan<T>)
    requires IsRecorded(protocol, history, commits, answers) && IsWellFounded(protocol, history, plan)
    ensures IsRecorded(protocol, history + [plan.documents], commits + [plan], answers)
  {
    var later, more := history + [plan.documents], commits + [plan];
    forall k | 0 <= k < |more| ensures IsWellFounded(protocol, later[..k + 1], more[k]) && later[k + 1] == more[k].documents {
      assert later[..k + 1] == history[..k + 1];
      if k == |commits| { assert history[..k + 1] == history; }
    }
    assert forall f :: IsTrue(history, f) ==> IsTrue(later, f);
  }

  /** Only a finished load adds an answer, and only an `applied` manifest a commit. */
  lemma StepKeepsRecord<T>(protocol: Protocol<T>, s: State<T>, p: Client, a: Action<T>)
    requires IsRecorded(protocol, s.history, s.commits, s.answers)
    requires Enabled(protocol, s, p, a) && IsGrounded(protocol, s.history, p, s.At(p))
    requires a.FinishReading? ==> s.At(p).found == s.Durable()
    ensures IsRecorded(protocol, Do(protocol, s, p, a).history, Do(protocol, s, p, a).commits, Do(protocol, s, p, a).answers)
    ensures Do(protocol, s, p, a).history == s.history || Do(protocol, s, p, a).history == s.history + [Do(protocol, s, p, a).Durable()]
  {
    if a.MarkApplied? {
      assert IsWellFounded(protocol, s.history, s.At(p).plan);
      hide IsRecorded, IsWellFounded, IsGrounded;
      CommitIsRecorded(protocol, s.history, s.commits, s.answers, s.At(p).plan);
    } else if a.FinishReading? {
      hide IsWellFounded;
    } else {
      hide Enabled, Do, IsRecorded, IsGrounded;
      NothingIsRecorded(protocol, s, p, a);
    }
  }

  lemma NothingIsRecorded<T>(protocol: Protocol<T>, s: State<T>, p: Client, a: Action<T>)
    requires Enabled(protocol, s, p, a) && !a.MarkApplied? && !a.FinishReading?
    ensures var t := Do(protocol, s, p, a); t.history == s.history && t.commits == s.commits && t.answers == s.answers
  {
    hide PartlyCleared, Partial, NamesIn, Only, Fits, MovedIn, MovedOut;
  }

  lemma StepKeepsAllGrounded<T>(protocol: Protocol<T>, s: State<T>, p: Client, a: Action<T>)
    requires Enabled(protocol, s, p, a) && forall q :: IsGrounded(protocol, s.history, q, s.At(q))
    requires a.FinishReading? ==> s.history != [] && s.At(p).found == s.Durable()
    requires Do(protocol, s, p, a).history == s.history || Do(protocol, s, p, a).history == s.history + [Do(protocol, s, p, a).Durable()]
    ensures forall q :: IsGrounded(protocol, Next(protocol, s, p, a).history, q, Next(protocol, s, p, a).At(q))
  {
    var t := Next(protocol, s, p, a);
    assert IsGrounded(protocol, s.history, p, s.At(p));
    StepKeepsGrounded(protocol, s, p, a);
    OthersStay(protocol, s, p, a);
    hide Enabled, IsGrounded, Do;
    var more := if t.history == s.history then [] else [t.Durable()];
    assert t.history == s.history + more;
    forall q ensures IsGrounded(protocol, t.history, q, t.At(q)) {
      assert IsGrounded(protocol, s.history, q, t.At(q)) by { assert IsGrounded(protocol, s.history, q, s.At(q)); }
      StaysGrounded(protocol, s.history, more, q, t.At(q));
    }
  }

  lemma StepKeepsTimely<T>(protocol: Protocol<T>, s: State<T>, p: Client, a: Action<T>)
    requires Enabled(protocol, s, p, a) && KeepsStep(protocol, s, p, a)
    requires forall q <- s.timely :: IsInStep(protocol.rules, s.disk, s.Durable(), s.incoming, s.At(q))
    ensures var t := Next(protocol, s, p, a);
            forall q <- t.timely :: IsInStep(protocol.rules, t.disk, t.Durable(), t.incoming, t.At(q))
  {
    hide Enabled, Do, IsInStep, Recoverable;
    OthersStay(protocol, s, p, a);
  }

  lemma TimelyStepKeepsInv<T(!new)>(protocol: Protocol<T>, s: State<T>, p: Client, a: Action<T>)
    requires PartIsPreorder(protocol.rules) && Inv(protocol, s) && Enabled(protocol, s, p, a) && IsTimely(s, p, a)
    ensures Inv(protocol, Next(protocol, s, p, a))
  {
    assert s.history != [] && IsGrounded(protocol, s.history, p, s.At(p));
    StepKeepsDisk(protocol, s, p, a);
    hide Enabled, Recoverable, IsInStep, IsGrounded, Do, IsRecorded;
    StepKeepsRecord(protocol, s, p, a);
    StepKeepsAllGrounded(protocol, s, p, a);
    StepKeepsTimely(protocol, s, p, a);
  }

  lemma DoMovesOne<T>(protocol: Protocol<T>, s: State<T>, p: Client, a: Action<T>)
    requires Enabled(protocol, s, p, a)
    ensures var t := Do(protocol, s, p, a);
            && (t.calls == s.calls || t.calls == s.calls[p := t.At(p)])
            && t.timely - {p} <= s.timely
  {
    hide PartlyCleared, Partial, NamesIn, Only, Fits, MovedIn, MovedOut;
  }

  /** The other calls stay where they are, and those that stay timely were timely. */
  lemma OthersStay<T>(protocol: Protocol<T>, s: State<T>, p: Client, a: Action<T>)
    requires Enabled(protocol, s, p, a)
    ensures var t := Next(protocol, s, p, a);
            && forall q :: q != p ==> t.At(q) == s.At(q) && (q in t.timely ==> q in s.timely && t.disk == s.disk)
  {
    hide Enabled, Do;
    DoMovesOne(protocol, s, p, a);
  }

  // ---------- Protocols under which no late call acts ----------

  ghost predicate IsActive<T>(s: State<T>, p: Client) {
    !s.At(p).Idle?
  }

  /** The call is between its check and its return, or is replacing. */
  ghost predicate IsUsingDisk<T>(s: State<T>, p: Client) {
    var phase := s.At(p);
    !phase.Idle? && !phase.Started? && !phase.HasRead?
  }

  /** Who is active, who holds the lock, and what is current: whatever the protocol. */
  ghost predicate LocksOk<T>(protocol: Protocol<T>, s: State<T>) {
    forall p :: IsActive(s, p) ==> p in protocol.clients && (p in protocol.lockers ==> s.lock == Some(p))
  }

  lemma StepKeepsLocks<T>(protocol: Protocol<T>, s: State<T>, p: Client, a: Action<T>)
    requires LocksOk(protocol, s) && Enabled(protocol, s, p, a)
    ensures LocksOk(protocol, Next(protocol, s, p, a))
  {
    var t := Next(protocol, s, p, a);
    OthersStay(protocol, s, p, a);
    forall q | IsActive(t, q) ensures q in protocol.clients && (q in protocol.lockers ==> t.lock == Some(q)) {
      assert q != p ==> IsActive(s, q);
      assert IsActive(s, p) || a.Start?;
    }
  }

  /** Everyone takes the lock, or there is one client only. */
  ghost predicate IsExclusive<T>(protocol: Protocol<T>) {
    protocol.clients <= protocol.lockers || forall p <- protocol.clients, q <- protocol.clients :: p == q
  }

  /** All writers take the lock, or there is one writer only. */
  ghost predicate IsOneWriter<T>(protocol: Protocol<T>) {
    protocol.writers <= protocol.lockers || forall p <- protocol.writers, q <- protocol.writers :: p == q
  }

  /** No late call acts: it is not allowed to, it cannot be late, or nobody writes. */
  ghost predicate IsOrderly<T>(protocol: Protocol<T>) {
    !protocol.lateMayAct || IsExclusive(protocol) || protocol.writers == {}
  }

  ghost predicate NobodyIsLate<T>(s: State<T>) {
    forall p :: IsUsingDisk(s, p) ==> p in s.timely
  }

  /** Calls that only read what needs no recovery. */
  ghost predicate IsQuiet<T>(s: State<T>) {
    && s.disk.replacement == None
    && forall p :: match s.At(p)
                   case Idle | Started => true
                   case Checked(job) => job.ToRead?
                   case Reading(first, _, _) => first.None?
                   case _ => false
  }

  /** What keeps a protocol orderly. */
  ghost predicate StaysOrderly<T>(protocol: Protocol<T>, s: State<T>) {
    && LocksOk(protocol, s)
    && (protocol.lateMayAct ==> NobodyIsLate(s))
    && (protocol.lateMayAct && !IsExclusive(protocol) ==> IsQuiet(s))
  }

  lemma OnlyOneActs<T>(protocol: Protocol<T>, s: State<T>, p: Client, a: Action<T>)
    requires IsExclusive(protocol) && LocksOk(protocol, s) && Enabled(protocol, s, p, a)
    ensures forall q :: IsActive(Next(protocol, s, p, a), q) ==> q == p
  {
    OthersStay(protocol, s, p, a);
    var t := Next(protocol, s, p, a);
    assert p in protocol.clients && (IsActive(s, p) || a.Start?);
    forall q | IsActive(t, q) ensures q == p {
      assert q == p || IsActive(s, q);
    }
  }

  lemma StepStaysOrderly<T>(protocol: Protocol<T>, s: State<T>, p: Client, a: Action<T>)
    requires IsOrderly(protocol) && StaysOrderly(protocol, s) && Enabled(protocol, s, p, a)
    ensures IsTimely(s, p, a) && StaysOrderly(protocol, Next(protocol, s, p, a))
  {
    var t := Next(protocol, s, p, a);
    StepKeepsLocks(protocol, s, p, a);
    OthersStay(protocol, s, p, a);
    if protocol.lateMayAct {
      assert !IsBlind(a) ==> IsUsingDisk(s, p);
      if IsExclusive(protocol) {
        OnlyOneActs(protocol, s, p, a);
        forall q | IsUsingDisk(t, q) ensures q in t.timely {
          assert IsActive(t, q);
        }
      } else {
        QuietStep(protocol, s, p, a);
      }
    }
  }

  lemma QuietStep<T>(protocol: Protocol<T>, s: State<T>, p: Client, a: Action<T>)
    requires protocol.writers == {} && IsQuiet(s) && NobodyIsLate(s) && Enabled(protocol, s, p, a)
    ensures IsQuiet(Next(protocol, s, p, a)) && NobodyIsLate(Next(protocol, s, p, a))
  {
    var t := Next(protocol, s, p, a);
    OthersStay(protocol, s, p, a);
    assert match s.At(p) case Idle | Started => true case Checked(job) => job.ToRead? case Reading(first, _, _) => first.None? case _ => false;
    assert t.disk == s.disk;
    assert IsUsingDisk(s, p) ==> p in s.timely;
    forall q ensures IsUsingDisk(t, q) ==> q in t.timely {
      if q != p { assert IsUsingDisk(s, q) ==> q in s.timely; }
    }
  }

  lemma {:induction false} OrderlyRunKeepsInv<T(!new)>(protocol: Protocol<T>, s: State<T>, steps: seq<Step<T>>)
    requires PartIsPreorder(protocol.rules) && IsOrderly(protocol)
    requires Inv(protocol, s) && StaysOrderly(protocol, s) && Execute(protocol, s, steps).Some?
    ensures Inv(protocol, Execute(protocol, s, steps).value)
    decreases |steps|
  {
    hide PartIsPreorder, IsOrderly, Inv, StaysOrderly, Enabled, Next, IsTimely;
    if steps != [] {
      var p, a := steps[0].client, steps[0].action;
      StepStaysOrderly(protocol, s, p, a);
      TimelyStepKeepsInv(protocol, s, p, a);
      OrderlyRunKeepsInv(protocol, Next(protocol, s, p, a), steps[1..]);
    }
  }

  // ---------- Serial commits ----------

  /** What a writer has read is still what is durable. */
  ghost predicate IsCurrent<T>(now: nat, phase: Phase<T>) {
    match phase
    case Idle | Started | Closing(_) => true
    case Checked(job) => IsCurrentJob(now, job)
    case Removing(job, _, _) => IsCurrentJob(now, job)
    case Copying(job, _, _) => IsCurrentJob(now, job)
    case Clearing(job) => IsCurrentJob(now, job)
    case Reading(first, _, _) => first.Some? ==> first.value.at == now
    case HasRead(read, packs) => read.at == packs.at == now
    case Opening(plan) => plan.read.at == plan.packs.at == now
    case Beginning(plan) => plan.read.at == plan.packs.at == now
    case Staging(plan) => plan.read.at == plan.packs.at == now
    case BackingUp(plan, _) => plan.read.at == plan.packs.at == now
    case Applying(plan, _) => plan.read.at == plan.packs.at == now
  }

  ghost predicate IsCurrentJob<T>(now: nat, job: Job<T>) {
    job.ToReplace? ==> job.plan.read.at == job.plan.packs.at == now
  }

  /** Only writers hold findings, and those are current. */
  ghost predicate StaysSerial<T>(s: State<T>) {
    Serial(s) && forall p :: IsCurrent(s.Latest(), s.At(p))
  }

  lemma OwnStaysCurrent<T>(protocol: Protocol<T>, s: State<T>, p: Client, a: Action<T>)
    requires Enabled(protocol, s, p, a) && IsCurrent(s.Latest(), s.At(p))
    ensures IsCurrent(Do(protocol, s, p, a).Latest(), Do(protocol, s, p, a).At(p))
  {
    hide PartlyCleared, Partial, NamesIn, Only, Fits, MovedIn, MovedOut;
  }

  /** A commit finds no other writer that has read anything. */
  lemma CommitIsAlone<T>(protocol: Protocol<T>, s: State<T>, p: Client, q: Client)
    requires IsOneWriter(protocol) && LocksOk(protocol, s) && s.At(p).Applying? && q != p
    requires IsGrounded(protocol, s.history, p, s.At(p)) && IsGrounded(protocol, s.history, q, s.At(q))
    ensures IsCurrent(s.Latest() + 1, s.At(q))
  {
    hide IsWellFounded, IsTrue;
    assert IsActive(s, p);
    assert IsActive(s, q) ==> q in protocol.lockers ==> s.lock == Some(q);
  }

  lemma CommitStaysSerial<T>(protocol: Protocol<T>, s: State<T>, p: Client, a: Action<T>)
    requires Serial(s) && IsCurrent(s.Latest(), s.At(p)) && Enabled(protocol, s, p, a) && |s.history| == |s.commits| + 1
    ensures Serial(Do(protocol, s, p, a))
    ensures Do(protocol, s, p, a).Latest() == if a.MarkApplied? then s.Latest() + 1 else s.Latest()
  {
    hide PartlyCleared, Partial;
  }

  lemma StepStaysSerial<T>(protocol: Protocol<T>, s: State<T>, p: Client, a: Action<T>)
    requires IsOneWriter(protocol) && LocksOk(protocol, s) && StaysSerial(s) && Enabled(protocol, s, p, a)
    requires |s.history| == |s.commits| + 1 && forall q :: IsGrounded(protocol, s.history, q, s.At(q))
    ensures StaysSerial(Next(protocol, s, p, a))
  {
    var t := Next(protocol, s, p, a);
    OthersStay(protocol, s, p, a);
    assert IsCurrent(s.Latest(), s.At(p)) && IsGrounded(protocol, s.history, p, s.At(p));
    assert a.MarkApplied? ==> s.At(p).Applying?;
    hide Enabled, Do, IsCurrent, IsGrounded, LocksOk, IsOneWriter;
    OwnStaysCurrent(protocol, s, p, a);
    CommitStaysSerial(protocol, s, p, a);
    forall q ensures IsCurrent(t.Latest(), t.At(q)) {
      if q != p {
        assert IsCurrent(s.Latest(), s.At(q)) && IsGrounded(protocol, s.history, q, s.At(q));
        if a.MarkApplied? { CommitIsAlone(protocol, s, p, q); }
      }
    }
  }

  lemma {:induction false} OrderlyRunIsSerial<T(!new)>(protocol: Protocol<T>, s: State<T>, steps: seq<Step<T>>)
    requires PartIsPreorder(protocol.rules) && IsOrderly(protocol) && IsOneWriter(protocol)
    requires Inv(protocol, s) && StaysOrderly(protocol, s) && StaysSerial(s) && Execute(protocol, s, steps).Some?
    ensures Serial(Execute(protocol, s, steps).value)
    decreases |steps|
  {
    if steps != [] {
      var p, a := steps[0].client, steps[0].action;
      assert LocksOk(protocol, s) && |s.history| == |s.commits| + 1;
      assert forall q :: IsGrounded(protocol, s.history, q, s.At(q));
      hide PartIsPreorder, IsOrderly, IsOneWriter, Inv, StaysOrderly, Enabled, Next, IsTimely, StaysSerial, LocksOk, IsGrounded;
      StepStaysOrderly(protocol, s, p, a);
      TimelyStepKeepsInv(protocol, s, p, a);
      StepStaysSerial(protocol, s, p, a);
      OrderlyRunIsSerial(protocol, Next(protocol, s, p, a), steps[1..]);
    }
  }

  /** The first set of the history stays the first. */
  lemma {:induction false} RunKeepsFirst<T>(protocol: Protocol<T>, s: State<T>, steps: seq<Step<T>>)
    requires s.history != [] && Execute(protocol, s, steps).Some?
    ensures Execute(protocol, s, steps).value.history != [] && Execute(protocol, s, steps).value.history[0] == s.history[0]
    decreases |steps|
  {
    hide Enabled, Do;
    if steps != [] {
      OnlyCommitsAppend(protocol, s, steps[0].client, steps[0].action);
      RunKeepsFirst(protocol, Next(protocol, s, steps[0].client, steps[0].action), steps[1..]);
    }
  }

  lemma OnlyCommitsAppend<T>(protocol: Protocol<T>, s: State<T>, p: Client, a: Action<T>)
    requires Enabled(protocol, s, p, a)
    ensures var t := Do(protocol, s, p, a); t.history == s.history || t.history == s.history + [t.Durable()]
  {
    hide PartlyCleared, Partial, NamesIn, Only, Fits, MovedIn, MovedOut;
  }

  lemma InitialIsFine<T>(protocol: Protocol<T>, s: State<T>)
    requires Initial(protocol, s) && (protocol.lateMayAct && !IsExclusive(protocol) ==> s.disk.replacement == None)
    ensures Inv(protocol, s) && StaysOrderly(protocol, s) && StaysSerial(s)
  {
  }

  /** Whatever an earlier crash has left: in an orderly protocol, calls that overlap in any way leave all intact. */
  lemma OrderlyRunsAreIntact<T(!new)>(protocol: Protocol<T>, s: State<T>, steps: seq<Step<T>>)
    requires PartIsPreorder(protocol.rules) && IsOrderly(protocol) && Initial(protocol, s)
    requires protocol.lateMayAct && !IsExclusive(protocol) ==> s.disk.replacement == None
    requires Execute(protocol, s, steps).Some?
    ensures Intact(protocol, Execute(protocol, s, steps).value)
    ensures IsOneWriter(protocol) ==> Serial(Execute(protocol, s, steps).value)
  {
    InitialIsFine(protocol, s);
    OrderlyRunKeepsInv(protocol, s, steps);
    if IsOneWriter(protocol) { OrderlyRunIsSerial(protocol, s, steps); }
  }
}
