/**
  The transaction protocol of the local authority state file (packages/mcp/src/local-l3-authorization.ts,
  LocalL3AuthorityStateFile).

  A state machine over the steps of `transact`.  Any number of flows run it, and the lock can be taken away from a
  live owner at any moment.  The final ownership check together with the atomic write is one action, and a heartbeat
  (which rewrites the metadata of a lock that is still owned) changes nothing that is modelled here.

  `exec` is the mutator applied to the state it read: it throws, or yields a new state and a result.
 */
module StateFileTransactions {
  import opened Wrappers

  type LockId = nat
  type Flow = nat

  datatype Versioned<T> = Versioned(revision: nat, data: T)

  datatype Mutation<T, R> = Thrown | Mutated(data: T, result: R)

  /** Where a flow stands between acquiring the lock and releasing it. */
  datatype Phase<C, T, R> =
    | Idle
    | Locked(lockId: LockId, command: C)
    | HasRead(lockId: LockId, command: C, seen: Versioned<T>)
    | HasMutated(lockId: LockId, command: C, seen: Versioned<T>, next: T, result: R)
    | HasCheckedOwner(lockId: LockId, command: C, seen: Versioned<T>, next: T, result: R)
    | HasCheckedRevision(lockId: LockId, command: C, seen: Versioned<T>, next: T, result: R)
    | Leaving(lockId: LockId)

  /** An answer given to a caller; `position` counts the commits before the state it was computed from. */
  datatype Answer<C, R> = Answer(command: C, result: R, position: nat, committed: bool)

  /** `first`, `log`, `past` and `answers` are history: the revision at the start, the committed commands, the data
      before the first and after each of them, and the answers given. */
  datatype State<C, T(==), R> = State(
    lock: Option<LockId>, used: set<LockId>, file: Versioned<T>, flows: map<Flow, Phase<C, T, R>>,
    first: nat, log: seq<C>, past: seq<T>, answers: seq<Answer<C, R>>)
  {
    function At(f: Flow): Phase<C, T, R> {
      if f in flows then flows[f] else Idle
    }

    function Move(f: Flow, phase: Phase<C, T, R>): State<C, T, R> {
      this.(flows := flows[f := phase])
    }

    predicate HasSeen(f: Flow) {
      At(f).HasRead? || At(f).HasMutated? || At(f).HasCheckedOwner? || At(f).HasCheckedRevision?
    }

    predicate HasResult(f: Flow) {
      At(f).HasMutated? || At(f).HasCheckedOwner? || At(f).HasCheckedRevision?
    }
  }

  datatype Action<C> =
    | Acquire(lockId: LockId, command: C)
    | TakeAwayLock
    | ReadState
    | Mutate
    | AssertOwned
    | RereadState
    | CheckOwnerAndWrite
    | Fail
    | Release
    | Crash

  predicate Enabled<C, T(==), R>(s: State<C, T, R>, f: Flow, a: Action<C>) {
    match a
    case Acquire(lockId, _) => s.At(f).Idle? && s.lock.None? && lockId !in s.used
    case TakeAwayLock => true
    case ReadState => s.At(f).Locked?
    case Mutate => s.At(f).HasRead?
    case AssertOwned => s.At(f).HasMutated?
    case RereadState => s.At(f).HasCheckedOwner?
    case CheckOwnerAndWrite => s.At(f).HasCheckedRevision?
    case Fail => !s.At(f).Idle?
    case Release => s.At(f).Leaving?
    case Crash => true
  }

  function CommitsBefore<C, T(==), R>(s: State<C, T, R>, revision: nat): nat {
    if revision < s.first then 0 else revision - s.first
  }

  function Do<C, T(==), R>(exec: (C, T) -> Mutation<T, R>, s: State<C, T, R>, f: Flow, a: Action<C>): State<C, T, R>
    requires Enabled(s, f, a)
  {
    var p := s.At(f);
    match a
    case Acquire(lockId, command) =>
      s.(lock := Some(lockId), used := s.used + {lockId}).Move(f, Locked(lockId, command))
    case TakeAwayLock => s.(lock := None)
    case ReadState => s.Move(f, HasRead(p.lockId, p.command, s.file))
    case Mutate =>
      (match exec(p.command, p.seen.data)
       case Thrown => s.Move(f, Leaving(p.lockId))
       case Mutated(data, result) => s.Move(f, HasMutated(p.lockId, p.command, p.seen, data, result)))
    case AssertOwned =>
      if s.lock == Some(p.lockId)
      then s.Move(f, HasCheckedOwner(p.lockId, p.command, p.seen, p.next, p.result))
      else s.Move(f, Leaving(p.lockId))
    case RereadState =>
      if s.file.revision != p.seen.revision then s.Move(f, Leaving(p.lockId))
      else if p.next == p.seen.data then
        s.(answers := s.answers + [Answer(p.command, p.result, CommitsBefore(s, p.seen.revision), false)])
        .Move(f, Leaving(p.lockId))
      else s.Move(f, HasCheckedRevision(p.lockId, p.command, p.seen, p.next, p.result))
    case CheckOwnerAndWrite =>
      if s.lock == Some(p.lockId) then
        s.(file := Versioned(p.seen.revision + 1, p.next),
           log := s.log + [p.command],
           past := s.past + [p.next],
           answers := s.answers + [Answer(p.command, p.result, |s.log|, true)])
        .Move(f, Leaving(p.lockId))
      else s.Move(f, Leaving(p.lockId))
    case Fail => s.Move(f, Leaving(p.lockId))
    case Release => (if s.lock == Some(p.lockId) then s.(lock := None) else s).Move(f, Idle)
    case Crash => s.Move(f, Idle)
  }

  datatype Step<C> = Step(flow: Flow, action: Action<C>)

  function Execute<C, T(==), R>(exec: (C, T) -> Mutation<T, R>, s: State<C, T, R>, steps: seq<Step<C>>)
    : Option<State<C, T, R>>
    decreases |steps|
  {
    if steps == [] then Some(s)
    else if !Enabled(s, steps[0].flow, steps[0].action) then None
    else Execute(exec, Do(exec, s, steps[0].flow, steps[0].action), steps[1..])
  }

  predicate Initial<C, T(==), R>(s: State<C, T, R>) {
    && s.flows == map[]
    && s.first == s.file.revision && s.past == [s.file.data]
    && s.log == [] && s.answers == []
    && (s.lock.Some? ==> s.lock.value in s.used)
  }

  // ---------- The invariant ----------

  /** The answer is the one its command gives on the data at its position. */
  ghost predicate AnswerOk<C, T(!new), R>(exec: (C, T) -> Mutation<T, R>, s: State<C, T, R>, a: Answer<C, R>) {
    && a.position < |s.past|
    && exec(a.command, s.past[a.position]).Mutated?
    && exec(a.command, s.past[a.position]).result == a.result
    && (if a.committed then a.position < |s.log| && s.log[a.position] == a.command
        else exec(a.command, s.past[a.position]).data == s.past[a.position])
  }

  ghost predicate LocksOk<C, T(!new), R>(s: State<C, T, R>) {
    && (s.lock.Some? ==> s.lock.value in s.used)
    && (forall f :: !s.At(f).Idle? ==> s.At(f).lockId in s.used)
    && (forall f, g :: !s.At(f).Idle? && !s.At(g).Idle? && f != g ==> s.At(f).lockId != s.At(g).lockId)
  }

  /** `past` is the chain of the committed commands, each of which changed the data, and the file holds its last link. */
  ghost predicate FileOk<C, T(!new), R>(exec: (C, T) -> Mutation<T, R>, s: State<C, T, R>) {
    && |s.past| == |s.log| + 1
    && s.file == Versioned(s.first + |s.log|, s.past[|s.log|])
    && forall i :: 0 <= i < |s.log| ==>
         && exec(s.log[i], s.past[i]).Mutated?
         && exec(s.log[i], s.past[i]).data == s.past[i + 1]
         && s.past[i + 1] != s.past[i]
  }

  /** What a flow has read is a link of the chain, and the last one while the flow owns the lock. */
  ghost predicate SeenOk<C, T(!new), R>(exec: (C, T) -> Mutation<T, R>, s: State<C, T, R>, f: Flow) {
    s.HasSeen(f) ==>
      var seen := s.At(f).seen;
      && s.first <= seen.revision < s.first + |s.past|
      && seen.data == s.past[seen.revision - s.first]
      && (s.lock == Some(s.At(f).lockId) ==> seen == s.file)
      && (s.HasResult(f) ==> exec(s.At(f).command, seen.data) == Mutated(s.At(f).next, s.At(f).result))
      && (s.At(f).HasCheckedRevision? ==> s.At(f).next != seen.data)
  }

  ghost predicate Inv<C, T(!new), R>(exec: (C, T) -> Mutation<T, R>, s: State<C, T, R>) {
    && LocksOk(s)
    && FileOk(exec, s)
    && (forall f :: SeenOk(exec, s, f))
    && (forall i :: 0 <= i < |s.answers| ==> AnswerOk(exec, s, s.answers[i]))
  }

  lemma ActionKeepsLocks<C, T(!new), R>(exec: (C, T) -> Mutation<T, R>, s: State<C, T, R>, f: Flow, a: Action<C>)
    requires LocksOk(s) && Enabled(s, f, a)
    ensures LocksOk(Do(exec, s, f, a))
    ensures forall g :: g != f || a.TakeAwayLock? ==> Do(exec, s, f, a).At(g) == s.At(g)
  {
    var t := Do(exec, s, f, a);
    forall g | g != f || a.TakeAwayLock? ensures t.At(g) == s.At(g) {
    }
    assert !t.At(f).Idle? && !a.Acquire? ==> !s.At(f).Idle? && t.At(f).lockId == s.At(f).lockId;
    forall g | !t.At(g).Idle? ensures t.At(g).lockId in t.used {
      assert g != f ==> t.At(g) == s.At(g);
    }
    forall g, h | !t.At(g).Idle? && !t.At(h).Idle? && g != h ensures t.At(g).lockId != t.At(h).lockId {
      assert g != f ==> t.At(g) == s.At(g);
      assert h != f ==> t.At(h) == s.At(h);
    }
  }

  lemma AnswerStaysOk<C, T(!new), R>(exec: (C, T) -> Mutation<T, R>, s: State<C, T, R>, t: State<C, T, R>, a: Answer<C, R>)
    requires AnswerOk(exec, s, a) && s.log <= t.log && s.past <= t.past
    ensures AnswerOk(exec, t, a)
  {
  }

  /** A flow that does not own the lock keeps what it has seen while the file moves on. */
  lemma SeenStaysOk<C, T(!new), R>(exec: (C, T) -> Mutation<T, R>, s: State<C, T, R>, t: State<C, T, R>, g: Flow)
    requires SeenOk(exec, s, g) && t.At(g) == s.At(g) && t.first == s.first && s.past <= t.past
    requires (t.file == s.file && (t.lock == s.lock || t.lock.None?))
             || (!s.At(g).Idle? ==> t.lock != Some(s.At(g).lockId))
    ensures SeenOk(exec, t, g)
  {
  }

  /** Actions that leave file, log and answers alone. */
  lemma QuietActionKeepsInv<C, T(!new), R>(exec: (C, T) -> Mutation<T, R>, s: State<C, T, R>, f: Flow, a: Action<C>)
    requires Inv(exec, s) && Enabled(s, f, a) && !a.RereadState? && !a.CheckOwnerAndWrite?
    ensures Inv(exec, Do(exec, s, f, a))
  {
    var t := Do(exec, s, f, a);
    ActionKeepsLocks(exec, s, f, a);
    forall g ensures SeenOk(exec, t, g) {
      assert SeenOk(exec, s, g);
      if g != f { SeenStaysOk(exec, s, t, g); }
    }
    forall i | 0 <= i < |t.answers| ensures AnswerOk(exec, t, t.answers[i]) {
      AnswerStaysOk(exec, s, t, s.answers[i]);
    }
  }

  /** A transaction that changed nothing answers from a state that is still current when it re-reads the file. */
  lemma RereadKeepsInv<C, T(!new), R>(exec: (C, T) -> Mutation<T, R>, s: State<C, T, R>, f: Flow)
    requires Inv(exec, s) && Enabled(s, f, RereadState)
    ensures Inv(exec, Do(exec, s, f, RereadState))
    ensures var t := Do(exec, s, f, RereadState);
            |t.answers| > |s.answers| ==>
              && t.answers[|s.answers|].position == |s.log|
              && exec(s.At(f).command, s.file.data) == Mutated(s.file.data, t.answers[|s.answers|].result)
  {
    var t := Do(exec, s, f, RereadState);
    ActionKeepsLocks(exec, s, f, RereadState);
    assert SeenOk(exec, s, f);
    forall g ensures SeenOk(exec, t, g) {
      assert SeenOk(exec, s, g);
      if g != f { SeenStaysOk(exec, s, t, g); }
    }
    forall i | 0 <= i < |t.answers| ensures AnswerOk(exec, t, t.answers[i]) {
      if i < |s.answers| { AnswerStaysOk(exec, s, t, s.answers[i]); }
    }
  }

  /** The write lands on the very state the flow has read. */
  lemma WriteKeepsInv<C, T(!new), R>(exec: (C, T) -> Mutation<T, R>, s: State<C, T, R>, f: Flow)
    requires Inv(exec, s) && Enabled(s, f, CheckOwnerAndWrite)
    ensures Inv(exec, Do(exec, s, f, CheckOwnerAndWrite))
  {
    var t := Do(exec, s, f, CheckOwnerAndWrite);
    ActionKeepsLocks(exec, s, f, CheckOwnerAndWrite);
    assert SeenOk(exec, s, f);
    forall g ensures SeenOk(exec, t, g) {
      assert SeenOk(exec, s, g);
      if g != f { SeenStaysOk(exec, s, t, g); }
    }
    forall i | 0 <= i < |t.answers| ensures AnswerOk(exec, t, t.answers[i]) {
      if i < |s.answers| { AnswerStaysOk(exec, s, t, s.answers[i]); }
    }
  }

  lemma {:induction false} RunKeepsInv<C, T(!new), R>(exec: (C, T) -> Mutation<T, R>, s: State<C, T, R>, steps: seq<Step<C>>)
    requires Inv(exec, s) && Execute(exec, s, steps).Some?
    ensures Inv(exec, Execute(exec, s, steps).value)
    ensures Execute(exec, s, steps).value.first == s.first && s.past <= Execute(exec, s, steps).value.past
    decreases |steps|
  {
    if steps != [] {
      var f, a := steps[0].flow, steps[0].action;
      if a.RereadState? {
        RereadKeepsInv(exec, s, f);
      } else if a.CheckOwnerAndWrite? {
        WriteKeepsInv(exec, s, f);
      } else {
        QuietActionKeepsInv(exec, s, f, a);
      }
      RunKeepsInv(exec, Do(exec, s, f, a), steps[1..]);
    }
  }

  // ---------- Serializability ----------

  /** Running the commands one after the other, each on the data its predecessor left. */
  function Serial<C, T, R>(exec: (C, T) -> Mutation<T, R>, data: T, commands: seq<C>): T
    decreases |commands|
  {
    if commands == [] then data
    else
      var m := exec(commands[0], data);
      Serial(exec, if m.Mutated? then m.data else data, commands[1..])
  }

  lemma {:induction false} ChainIsSerial<C, T, R>(exec: (C, T) -> Mutation<T, R>, log: seq<C>, past: seq<T>)
    requires |past| == |log| + 1
    requires forall i :: 0 <= i < |log| ==> exec(log[i], past[i]).Mutated? && exec(log[i], past[i]).data == past[i + 1]
    ensures Serial(exec, past[0], log) == past[|log|]
    decreases |log|
  {
    if log != [] {
      ChainIsSerial(exec, log[1..], past[1..]);
    }
  }

  /** Serializability: whatever happens to the lock, the file is the serial composition of the committed commands in
      commit order, the revision counts them, and every answer is what its command gives at its place in that order. */
  lemma RunsAreSerializable<C, T(!new), R>(exec: (C, T) -> Mutation<T, R>, s: State<C, T, R>, steps: seq<Step<C>>)
    requires Initial(s) && Execute(exec, s, steps).Some?
    ensures var t := Execute(exec, s, steps).value;
            && t.file.data == Serial(exec, s.file.data, t.log)
            && t.file.revision == s.file.revision + |t.log|
            && (forall i :: 0 <= i < |t.answers| ==> AnswerOk(exec, t, t.answers[i]))
            && (forall n :: 0 <= n <= |t.log| ==> n < |t.past| && t.past[n] == Serial(exec, s.file.data, t.log[..n]))
  {
    RunKeepsInv(exec, s, steps);
    var t := Execute(exec, s, steps).value;
    ChainIsSerial(exec, t.log, t.past);
    forall n | 0 <= n <= |t.log| ensures t.past[n] == Serial(exec, s.file.data, t.log[..n]) {
      ChainIsSerial(exec, t.log[..n], t.past[..n + 1]);
    }
  }

  // ---------- Progress ----------

  /** The same flow takes these actions, and no other flow takes one in between. */
  function By<C>(f: Flow, actions: seq<Action<C>>): (steps: seq<Step<C>>)
    ensures |steps| == |actions| && forall i :: 0 <= i < |steps| ==> steps[i] == Step(f, actions[i])
    ensures actions == [] ==> steps == []
  {
    seq(|actions|, i requires 0 <= i < |actions| => Step(f, actions[i]))
  }

  lemma OneMore<C, T, R>(exec: (C, T) -> Mutation<T, R>, s: State<C, T, R>, f: Flow, actions: seq<Action<C>>)
    requires actions != [] && Enabled(s, f, actions[0])
    ensures Execute(exec, s, By(f, actions)) == Execute(exec, Do(exec, s, f, actions[0]), By(f, actions[1..]))
  {
    assert By(f, actions)[1..] == By(f, actions[1..]);
  }

  lemma LastOne<C, T, R>(exec: (C, T) -> Mutation<T, R>, s: State<C, T, R>, f: Flow, a: Action<C>)
    requires Enabled(s, f, a)
    ensures Execute(exec, s, By(f, [a])) == Some(Do(exec, s, f, a))
  {
    OneMore(exec, s, f, [a]);
    assert [a][1..] == [];
  }

  /** Where the lock is free, anyone may acquire it, read, and apply the mutator. */
  ghost predicate MayStart<C, T(!new), R>(exec: (C, T) -> Mutation<T, R>, s: State<C, T, R>, f: Flow, lockId: LockId) {
    Inv(exec, s) && s.lock.None? && s.At(f).Idle? && lockId !in s.used
  }

  /** The first three actions, whatever follows them. */
  lemma StartsAndMutates<C, T(!new), R>(exec: (C, T) -> Mutation<T, R>, s: State<C, T, R>, f: Flow, lockId: LockId, c: C,
                                        rest: seq<Action<C>>) returns (t: State<C, T, R>)
    requires MayStart(exec, s, f, lockId)
    ensures t == s.(lock := Some(lockId), used := s.used + {lockId})
                  .Move(f, match exec(c, s.file.data)
                           case Thrown => Leaving(lockId)
                           case Mutated(data, result) => HasMutated(lockId, c, s.file, data, result))
    ensures Execute(exec, s, By(f, [Acquire(lockId, c), ReadState, Mutate] + rest)) == Execute(exec, t, By(f, rest))
  {
    var actions := [Acquire(lockId, c), ReadState, Mutate] + rest;
    OneMore(exec, s, f, actions);
    t := Do(exec, s, f, actions[0]);
    OneMore(exec, t, f, actions[1..]);
    t := Do(exec, t, f, ReadState);
    OneMore(exec, t, f, actions[1..][1..]);
    t := Do(exec, t, f, Mutate);
    assert actions[1..][1..][1..] == rest;
  }

  /** A flow that still owns the lock, and has computed a change from the present file, commits it. */
  lemma OwnerCommits<C, T, R>(exec: (C, T) -> Mutation<T, R>, s: State<C, T, R>, f: Flow)
    requires s.At(f).HasMutated? && s.lock == Some(s.At(f).lockId) && s.At(f).seen == s.file && s.At(f).next != s.file.data
    ensures Execute(exec, s, By(f, [AssertOwned, RereadState, CheckOwnerAndWrite, Release]))
         == Some(s.(lock := None, file := Versioned(s.file.revision + 1, s.At(f).next), log := s.log + [s.At(f).command],
                    past := s.past + [s.At(f).next],
                    answers := s.answers + [Answer(s.At(f).command, s.At(f).result, |s.log|, true)], flows := s.flows[f := Idle]))
  {
    var actions: seq<Action<C>> := [AssertOwned, RereadState, CheckOwnerAndWrite, Release];
    OneMore(exec, s, f, actions);
    var t := Do(exec, s, f, AssertOwned);
    assert actions[1..] == [RereadState, CheckOwnerAndWrite, Release];
    OneMore(exec, t, f, actions[1..]);
    t := Do(exec, t, f, RereadState);
    assert actions[1..][1..] == [CheckOwnerAndWrite, Release];
    OneMore(exec, t, f, actions[1..][1..]);
    t := Do(exec, t, f, CheckOwnerAndWrite);
    assert actions[1..][1..][1..] == [Release];
    assert t.flows == s.flows[f := Leaving(s.At(f).lockId)];
    LastOne(exec, t, f, Release);
    assert Do(exec, t, f, Release).flows == s.flows[f := Idle];
  }

  /**
    An undisturbed transaction that changes the data commits: the file holds the result under the next revision, the caller
    is told the result, and the lock is free again.
   */
  lemma UndisturbedTransactionCommits<C, T(!new), R>(exec: (C, T) -> Mutation<T, R>, s: State<C, T, R>, f: Flow, lockId: LockId,
                                                     c: C)
    requires MayStart(exec, s, f, lockId)
    requires exec(c, s.file.data).Mutated? && exec(c, s.file.data).data != s.file.data
    ensures var r := Execute(exec, s, By(f, [Acquire(lockId, c), ReadState, Mutate, AssertOwned, RereadState, CheckOwnerAndWrite,
                                             Release]));
            && r.Some? && r.value.file == Versioned(s.file.revision + 1, exec(c, s.file.data).data)
            && r.value.log == s.log + [c] && r.value.past == s.past + [exec(c, s.file.data).data]
            && r.value.answers == s.answers + [Answer(c, exec(c, s.file.data).result, |s.log|, true)]
            && r.value.lock == None && r.value.flows == s.flows[f := Idle]
  {
    var rest: seq<Action<C>> := [AssertOwned, RereadState, CheckOwnerAndWrite, Release];
    var t := StartsAndMutates(exec, s, f, lockId, c, rest);
    assert [Acquire(lockId, c), ReadState, Mutate] + rest
        == [Acquire(lockId, c), ReadState, Mutate, AssertOwned, RereadState, CheckOwnerAndWrite, Release];
    hide Enabled, Do, Execute;
    OwnerCommits(exec, t, f);
    assert t.flows[f := Idle] == s.flows[f := Idle];
  }

  /** One that has computed no change answers, and writes nothing. */
  lemma OwnerAnswers<C, T, R>(exec: (C, T) -> Mutation<T, R>, s: State<C, T, R>, f: Flow)
    requires s.At(f).HasMutated? && s.lock == Some(s.At(f).lockId) && s.At(f).seen == s.file && s.At(f).next == s.file.data
    ensures Execute(exec, s, By(f, [AssertOwned, RereadState, Release]))
         == Some(s.(lock := None,
                    answers := s.answers + [Answer(s.At(f).command, s.At(f).result, CommitsBefore(s, s.file.revision), false)],
                    flows := s.flows[f := Idle]))
  {
    var actions: seq<Action<C>> := [AssertOwned, RereadState, Release];
    OneMore(exec, s, f, actions);
    var t := Do(exec, s, f, AssertOwned);
    assert actions[1..] == [RereadState, Release];
    OneMore(exec, t, f, actions[1..]);
    t := Do(exec, t, f, RereadState);
    assert actions[1..][1..] == [Release];
    assert t.flows == s.flows[f := Leaving(s.At(f).lockId)];
    LastOne(exec, t, f, Release);
    assert Do(exec, t, f, Release).flows == s.flows[f := Idle];
  }

  /** An undisturbed transaction that changes nothing writes nothing, is told its result, and frees the lock. */
  lemma UndisturbedTransactionAnswers<C, T(!new), R>(exec: (C, T) -> Mutation<T, R>, s: State<C, T, R>, f: Flow, lockId: LockId,
                                                     c: C)
    requires MayStart(exec, s, f, lockId)
    requires exec(c, s.file.data).Mutated? && exec(c, s.file.data).data == s.file.data
    ensures var r := Execute(exec, s, By(f, [Acquire(lockId, c), ReadState, Mutate, AssertOwned, RereadState, Release]));
            && r.Some? && r.value.file == s.file && r.value.log == s.log && r.value.past == s.past
            && r.value.answers == s.answers + [Answer(c, exec(c, s.file.data).result, |s.log|, false)]
            && r.value.lock == None && r.value.flows == s.flows[f := Idle]
  {
    var rest: seq<Action<C>> := [AssertOwned, RereadState, Release];
    var t := StartsAndMutates(exec, s, f, lockId, c, rest);
    assert [Acquire(lockId, c), ReadState, Mutate] + rest
        == [Acquire(lockId, c), ReadState, Mutate, AssertOwned, RereadState, Release];
    assert CommitsBefore(t, s.file.revision) == |s.log|;
    hide Enabled, Do, Execute;
    OwnerAnswers(exec, t, f);
    assert t.flows[f := Idle] == s.flows[f := Idle];
  }

  /** A mutator that throws leaves nothing behind but the lock id that was used up. */
  lemma ThrowingTransactionDoesNothing<C, T(!new), R>(exec: (C, T) -> Mutation<T, R>, s: State<C, T, R>, f: Flow, lockId: LockId,
                                                      c: C)
    requires MayStart(exec, s, f, lockId) && exec(c, s.file.data).Thrown?
    ensures Execute(exec, s, By(f, [Acquire(lockId, c), ReadState, Mutate, Release]))
         == Some(s.(used := s.used + {lockId}, flows := s.flows[f := Idle]))
  {
    var rest: seq<Action<C>> := [Release];
    var t := StartsAndMutates(exec, s, f, lockId, c, rest);
    assert [Acquire(lockId, c), ReadState, Mutate] + rest == [Acquire(lockId, c), ReadState, Mutate, Release];
    LastOne(exec, t, f, Release);
    assert Do(exec, t, f, Release).flows == s.flows[f := Idle];
  }

  /** An error at any point: the flow gives up and frees the lock if it is still its own, and changes nothing else. */
  lemma FailedTransactionFreesLock<C, T, R>(exec: (C, T) -> Mutation<T, R>, s: State<C, T, R>, f: Flow)
    requires !s.At(f).Idle?
    ensures Execute(exec, s, By(f, [Fail, Release]))
         == Some(s.(lock := if s.lock == Some(s.At(f).lockId) then None else s.lock, flows := s.flows[f := Idle]))
  {
    var actions: seq<Action<C>> := [Fail, Release];
    OneMore(exec, s, f, actions);
    var t := Do(exec, s, f, Fail);
    assert actions[1..] == [Release];
    LastOne(exec, t, f, Release);
    assert Do(exec, t, f, Release).flows == s.flows[f := Idle];
  }

  /** A flow whose process dies leaves its lock behind, which anyone may then take away. */
  lemma DeadOwnersLockIsTakenAway<C, T, R>(exec: (C, T) -> Mutation<T, R>, s: State<C, T, R>, f: Flow, g: Flow)
    ensures Enabled(s, f, Crash) && Do(exec, s, f, Crash) == s.(flows := s.flows[f := Idle])
    ensures Enabled(s, g, TakeAwayLock) && Do(exec, s, g, TakeAwayLock) == s.(lock := None)
  {
  }

  /**
    A flow whose lock has been taken away before one of its two ownership checks gives no answer and writes nothing, even
    when another flow has committed since: the check turns it away, and its release leaves the lock to whoever has it.
   */
  lemma DeprivedTransactionDoesNothing<C, T, R>(exec: (C, T) -> Mutation<T, R>, s: State<C, T, R>, f: Flow)
    requires s.At(f).HasMutated? || s.At(f).HasCheckedRevision?
    requires s.lock != Some(s.At(f).lockId)
    ensures Execute(exec, s, By(f, [if s.At(f).HasMutated? then AssertOwned else CheckOwnerAndWrite, Release]))
         == Some(s.(flows := s.flows[f := Idle]))
  {
    var actions: seq<Action<C>> := [if s.At(f).HasMutated? then AssertOwned else CheckOwnerAndWrite, Release];
    OneMore(exec, s, f, actions);
    var t := Do(exec, s, f, actions[0]);
    assert actions[1..] == [Release];
    LastOne(exec, t, f, Release);
    assert Do(exec, t, f, Release).flows == s.flows[f := Idle];
  }

  /** A flow that finds another revision than it has read answers nothing and leaves. */
  lemma OvertakenTransactionDoesNothing<C, T, R>(exec: (C, T) -> Mutation<T, R>, s: State<C, T, R>, f: Flow)
    requires s.At(f).HasCheckedOwner? && s.file.revision != s.At(f).seen.revision
    ensures Execute(exec, s, By(f, [RereadState, Release]))
         == Some(s.(lock := if s.lock == Some(s.At(f).lockId) then None else s.lock, flows := s.flows[f := Idle]))
  {
    var actions: seq<Action<C>> := [RereadState, Release];
    OneMore(exec, s, f, actions);
    var t := Do(exec, s, f, actions[0]);
    assert actions[1..] == [Release];
    LastOne(exec, t, f, Release);
    assert Do(exec, t, f, Release).flows == s.flows[f := Idle];
  }

  /** A property that every successful command keeps is handed on along the chain. */
  lemma {:induction false} ChainKeeps<C(!new), T(!new), R>(exec: (C, T) -> Mutation<T, R>, keeps: T -> bool,
                                                           s: State<C, T, R>, m: nat, n: nat)
    requires FileOk(exec, s) && m <= n <= |s.log| && keeps(s.past[m])
    requires forall c, d :: keeps(d) && exec(c, d).Mutated? ==> keeps(exec(c, d).data)
    ensures keeps(s.past[n])
    decreases n
  {
    if m < n {
      ChainKeeps(exec, keeps, s, m, n - 1);
      assert exec(s.log[n - 1], s.past[n - 1]).data == s.past[n];
    }
  }

  lemma RunsHaveChains<C, T(!new), R>(exec: (C, T) -> Mutation<T, R>, s: State<C, T, R>, steps: seq<Step<C>>)
    requires Initial(s) && Execute(exec, s, steps).Some?
    ensures FileOk(exec, Execute(exec, s, steps).value) && Execute(exec, s, steps).value.past[0] == s.file.data
  {
    RunKeepsInv(exec, s, steps);
  }

  lemma RunsKeep<C(!new), T(!new), R>(exec: (C, T) -> Mutation<T, R>, keeps: T -> bool, s: State<C, T, R>, steps: seq<Step<C>>)
    requires Initial(s) && Execute(exec, s, steps).Some? && keeps(s.file.data)
    requires forall c, d :: keeps(d) && exec(c, d).Mutated? ==> keeps(exec(c, d).data)
    ensures keeps(Execute(exec, s, steps).value.file.data)
  {
    RunKeepsInv(exec, s, steps);
    ChainKeeps(exec, keeps, Execute(exec, s, steps).value, 0, |Execute(exec, s, steps).value.log|);
  }
}
