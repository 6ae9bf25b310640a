/**
  Runs of overlapping calls that go wrong (packages/json/src/filesystem.ts), built step by step, and exactly when none do.
 */
module OverlappingRuns {
  import opened Wrappers
  import opened CanonicalReplacement
  import opened OverlappingCalls

  // ---------- Building runs ----------

  ghost predicate Reaches<T(!new)>(protocol: Protocol<T>, s: State<T>, t: State<T>) {
    exists steps :: Execute(protocol, s, steps) == Some(t)
  }

  lemma {:induction false} Extend<T>(protocol: Protocol<T>, s: State<T>, steps: seq<Step<T>>, p: Client, a: Action<T>)
    requires Execute(protocol, s, steps).Some? && Enabled(protocol, Execute(protocol, s, steps).value, p, a)
    ensures Execute(protocol, s, steps + [Step(p, a)]) == Some(Next(protocol, Execute(protocol, s, steps).value, p, a))
    decreases |steps|
  {
    hide Enabled, Next;
    if steps != [] {
      Extend(protocol, Next(protocol, s, steps[0].client, steps[0].action), steps[1..], p, a);
      assert (steps + [Step(p, a)])[1..] == steps[1..] + [Step(p, a)];
    } else {
      assert (steps + [Step(p, a)])[1..] == [];
    }
  }

  lemma Starts<T(!new)>(protocol: Protocol<T>, s: State<T>)
    ensures Reaches(protocol, s, s)
  {
    assert Execute(protocol, s, []) == Some(s);
  }

  lemma Goes<T(!new)>(protocol: Protocol<T>, start: State<T>, s: State<T>, p: Client, a: Action<T>) returns (t: State<T>)
    requires Reaches(protocol, start, s) && Enabled(protocol, s, p, a)
    ensures t == Next(protocol, s, p, a) && Reaches(protocol, start, t)
  {
    hide Enabled, Next;
    t := Next(protocol, s, p, a);
    var steps :| Execute(protocol, start, steps) == Some(s);
    Extend(protocol, start, steps, p, a);
  }

  ghost predicate MayAct<T>(protocol: Protocol<T>, s: State<T>, p: Client) {
    p in protocol.clients && (protocol.lateMayAct || p in s.timely)
  }

  lemma StaysAllowed<T>(protocol: Protocol<T>, s: State<T>, t: State<T>, p: Client)
    requires MayAct(protocol, s, p) && t.timely == s.timely
    ensures MayAct(protocol, t, p)
  {
  }

  /** What a reading of the present root would return. */
  function Present<T>(protocol: Protocol<T>, s: State<T>): Finding<T> {
    Finding(Only(s.disk.root, protocol.rules.names), s.Latest())
  }

  lemma ReadsAll<T(!new)>(protocol: Protocol<T>, start: State<T>, s: State<T>, p: Client, first: Option<Finding<T>>)
    returns (t: State<T>)
    requires Reaches(protocol, start, s) && MayAct(protocol, s, p) && s.At(p) == Reading(first, map[], 0)
    ensures Reaches(protocol, start, t)
    ensures t == s.Move(p, Reading(first, Only(s.disk.root, protocol.rules.names), |protocol.rules.names|))
  {
    hide Reaches, MayAct;
    var names, root := protocol.rules.names, s.disk.root;
    assert s.calls == s.calls[p := s.At(p)];
    assert Only(root, names[..0]) == map[] && names[..|names|] == names;
    hide Only;
    t := s;
    for i := 0 to |names|
      invariant Reaches(protocol, start, t) && t == s.Move(p, Reading(first, Only(root, names[..i]), i))
    {
      assert MayAct(protocol, t, p) by { StaysAllowed(protocol, s, t, p); }
      OneMoreFound(root, names, i);
      t := ReadsOne(protocol, start, t, p);
      assert t.calls == s.calls[p := Reading(first, Only(root, names[..i + 1]), i + 1)];
    }
  }

  /** What is found of one more name. */
  function WithEntry<T>(root: Entries<T>, found: Entries<T>, n: Name): Entries<T> {
    if n in root then found[n := root[n]] else found
  }

  lemma OneMoreFound<T>(root: Entries<T>, names: seq<Name>, i: nat)
    requires i < |names|
    ensures WithEntry(root, Only(root, names[..i]), names[i]) == Only(root, names[..i + 1])
  {
    assert names[..i + 1] == names[..i] + [names[i]];
  }

  lemma ReadsOne<T(!new)>(protocol: Protocol<T>, start: State<T>, s: State<T>, p: Client) returns (t: State<T>)
    requires Reaches(protocol, start, s) && MayAct(protocol, s, p) && s.At(p).Reading? && s.At(p).done < |protocol.rules.names|
    ensures var phase := s.At(p);
            t == s.Move(p, Reading(phase.first, WithEntry(s.disk.root, phase.found, protocol.rules.names[phase.done]), phase.done + 1))
    ensures Reaches(protocol, start, t)
  {
    hide Reaches, PartlyCleared, Partial, NamesIn, Fits, MovedIn, MovedOut, Only;
    t := Goes(protocol, start, s, p, ReadEntry);
  }

  lemma Enters<T(!new)>(protocol: Protocol<T>, start: State<T>, s: State<T>, p: Client) returns (t: State<T>)
    requires Reaches(protocol, start, s) && p in protocol.clients && s.At(p).Idle? && s.lock == None
    ensures Reaches(protocol, start, t)
    ensures t == s.(lock := if p in protocol.lockers then Some(p) else None, timely := s.timely + {p}).Move(p, Checked(ToRead))
  {
    hide Reaches;
    t := Goes(protocol, start, s, p, Start);
    assert t.lock == (if p in protocol.lockers then Some(p) else None) && t.At(p) == Started;
    t := Goes(protocol, start, t, p, Check);
  }

  lemma FindsNothingToRecover<T(!new)>(protocol: Protocol<T>, start: State<T>, s: State<T>, p: Client) returns (t: State<T>)
    requires Reaches(protocol, start, s) && MayAct(protocol, s, p) && s.At(p).Checked? && s.disk.replacement == None
    ensures Reaches(protocol, start, t) && t == s.Move(p, AfterRecovery(s.At(p).job))
  {
    hide Reaches;
    t := Goes(protocol, start, s, p, Look);
  }

  lemma FinishesOnce<T(!new)>(protocol: Protocol<T>, start: State<T>, s: State<T>, p: Client) returns (t: State<T>)
    requires Reaches(protocol, start, s) && MayAct(protocol, s, p) && p in protocol.writers
    requires s.At(p).Reading? && s.At(p).done == |protocol.rules.names|
    ensures var finding := Finding(s.At(p).found, s.Latest());
            t == s.Move(p, if s.At(p).first.None? then Reading(Some(finding), map[], 0) else HasRead(s.At(p).first.value, finding))
    ensures Reaches(protocol, start, t)
  {
    hide Reaches;
    t := Goes(protocol, start, s, p, FinishReading);
  }

  lemma ReadsTwice<T(!new)>(protocol: Protocol<T>, start: State<T>, s: State<T>, p: Client) returns (t: State<T>)
    requires Reaches(protocol, start, s) && MayAct(protocol, s, p) && p in protocol.writers
    requires s.At(p) == Reading(None, map[], 0)
    ensures Reaches(protocol, start, t) && t == s.Move(p, HasRead(Present(protocol, s), Present(protocol, s)))
  {
    hide Reaches;
    var found := Present(protocol, s);
    t := ReadsAll(protocol, start, s, p, None);
    t := FinishesOnce(protocol, start, t, p);
    assert t == s.Move(p, Reading(Some(found), map[], 0));
    t := ReadsAll(protocol, start, t, p, Some(found));
    t := FinishesOnce(protocol, start, t, p);
  }

  /** A writer that nobody disturbs up to its decision. */
  lemma ReadsToDecide<T(!new)>(protocol: Protocol<T>, start: State<T>, s: State<T>, p: Client) returns (t: State<T>)
    requires Reaches(protocol, start, s) && p in protocol.clients && p in protocol.writers
    requires s.At(p).Idle? && s.lock == None && s.disk.replacement == None
    ensures Reaches(protocol, start, t)
    ensures t == s.(lock := if p in protocol.lockers then Some(p) else None, timely := s.timely + {p})
                  .Move(p, HasRead(Present(protocol, s), Present(protocol, s)))
  {
    hide Reaches;
    t := Enters(protocol, start, s, p);
    t := FindsNothingToRecover(protocol, start, t, p);
    t := ReadsTwice(protocol, start, t, p);
  }

  lemma Decides<T(!new)>(protocol: Protocol<T>, start: State<T>, s: State<T>, p: Client, documents: Entries<T>)
    returns (t: State<T>)
    requires Reaches(protocol, start, s) && p in protocol.clients && s.At(p).HasRead? && s.MayPass(p) && s.disk.replacement == None
    requires protocol.mayWrite(s.At(p).read.entries, s.At(p).packs.entries, documents)
    ensures Reaches(protocol, start, t)
    ensures t == s.(timely := s.timely + {p}).Move(p, Opening(Plan(s.At(p).read, s.At(p).packs, documents)))
  {
    hide Reaches;
    t := Goes(protocol, start, s, p, Decide(documents));
    t := FindsNothingToRecover(protocol, start, t, p);
  }

  lemma Opens<T(!new)>(protocol: Protocol<T>, start: State<T>, s: State<T>, p: Client) returns (t: State<T>)
    requires Reaches(protocol, start, s) && MayAct(protocol, s, p) && s.At(p).Opening? && s.disk.replacement == None
    ensures Reaches(protocol, start, t) && MayAct(protocol, t, p)
    ensures t == s.(disk := s.disk.(replacement := Some(Replacement(Some(Staged), map[], map[]))), timely := s.timely * {p})
                  .Move(p, Staging(s.At(p).plan))
  {
    hide Reaches;
    t := Goes(protocol, start, s, p, Clear(None));
    assert t == s.Move(p, Beginning(s.At(p).plan));
    t := Goes(protocol, start, t, p, MarkStaged);
  }

  lemma Stages<T(!new)>(protocol: Protocol<T>, start: State<T>, s: State<T>, p: Client) returns (t: State<T>)
    requires PartIsPreorder(protocol.rules)
    requires Reaches(protocol, start, s) && MayAct(protocol, s, p) && s.timely <= {p} && s.At(p).Staging?
    requires Fits(protocol.rules, s.At(p).plan.documents) && s.disk.replacement.Some?
    ensures Reaches(protocol, start, t)
    ensures t == s.Write(s.disk.replacement.value.(next := s.At(p).plan.documents)).Move(p, BackingUp(s.At(p).plan, 0))
  {
    hide Reaches;
    var documents := s.At(p).plan.documents;
    assert Partial(protocol.rules, documents, documents) by { ReflexivePart(protocol.rules); }
    assert s.timely * {p} == s.timely;
    t := Goes(protocol, start, s, p, Stage(documents));
    t := Goes(protocol, start, t, p, CheckStaged);
  }

  /** All renames into the backup. */
  function AllMovedOut<T>(names: seq<Name>, d: Disk<T>): Disk<T>
    requires d.replacement.Some?
  {
    var r := d.replacement.value;
    Disk(Without(d.root, names), Some(r.(backup := r.backup + Only(d.root, names))))
  }

  /** All renames out of the staged set. */
  function AllMovedIn<T>(names: seq<Name>, d: Disk<T>): Disk<T>
    requires d.replacement.Some?
  {
    var r := d.replacement.value;
    Disk(d.root + Only(r.next, names), Some(r.(next := Without(r.next, names))))
  }

  lemma NoneMoved<T>(d: Disk<T>)
    requires d.replacement.Some?
    ensures AllMovedOut([], d) == d && AllMovedIn([], d) == d
  {
    var r := d.replacement.value;
    assert Without(d.root, []) == d.root && r.backup + Only(d.root, []) == r.backup;
    assert d.root + Only(r.next, []) == d.root && Without(r.next, []) == r.next;
  }

  lemma OneMoreMovedOut<T>(d: Disk<T>, taken: seq<Name>, n: Name)
    requires d.replacement.Some?
    ensures MovedOut(AllMovedOut(taken, d), n) == AllMovedOut(taken + [n], d)
  {
    TakeOneMore(d.root, taken, n);
    var r := d.replacement.value;
    assert n in Without(d.root, taken) ==> (r.backup + Only(d.root, taken))[n := d.root[n]] == r.backup + Only(d.root, taken + [n]);
    assert n !in Without(d.root, taken) ==> Without(d.root, taken + [n]) == Without(d.root, taken);
  }

  lemma OneMoreMovedIn<T>(d: Disk<T>, taken: seq<Name>, n: Name)
    requires d.replacement.Some?
    ensures MovedIn(AllMovedIn(taken, d), n) == AllMovedIn(taken + [n], d)
  {
    var next := d.replacement.value.next;
    TakeOneMore(next, taken, n);
    ApplyOneMore(d.root, next, taken, n);
    assert n !in Without(next, taken) ==> Without(next, taken + [n]) == Without(next, taken);
  }

  lemma BacksUpOne<T(!new)>(protocol: Protocol<T>, start: State<T>, s: State<T>, p: Client) returns (t: State<T>)
    requires Reaches(protocol, start, s) && MayAct(protocol, s, p) && s.timely <= {p}
    requires s.At(p).BackingUp? && s.At(p).done < |protocol.rules.names|
    ensures Reaches(protocol, start, t)
    ensures t == s.(disk := MovedOut(s.disk, protocol.rules.names[s.At(p).done])).Move(p, BackingUp(s.At(p).plan, s.At(p).done + 1))
  {
    hide Reaches, MovedOut;
    assert s.timely * {p} == s.timely;
    t := Goes(protocol, start, s, p, BackUpEntry);
  }

  lemma AppliesOne<T(!new)>(protocol: Protocol<T>, start: State<T>, s: State<T>, p: Client) returns (t: State<T>)
    requires Reaches(protocol, start, s) && MayAct(protocol, s, p) && s.timely <= {p}
    requires s.At(p).Applying? && s.At(p).done < |protocol.rules.names|
    ensures Reaches(protocol, start, t)
    ensures t == s.(disk := MovedIn(s.disk, protocol.rules.names[s.At(p).done])).Move(p, Applying(s.At(p).plan, s.At(p).done + 1))
  {
    hide Reaches, MovedIn;
    assert s.timely * {p} == s.timely;
    t := Goes(protocol, start, s, p, ApplyEntry);
  }

  /** Where a backup stands after its first renames. */
  ghost function BackedUp<T>(protocol: Protocol<T>, s: State<T>, p: Client, plan: Plan<T>, i: nat): State<T>
    requires s.disk.replacement.Some? && i <= |protocol.rules.names|
  {
    s.(disk := AllMovedOut(protocol.rules.names[..i], s.disk)).Move(p, BackingUp(plan, i))
  }

  lemma BacksUpNext<T(!new)>(protocol: Protocol<T>, start: State<T>, s: State<T>, p: Client, plan: Plan<T>, i: nat)
    returns (t: State<T>)
    requires s.disk.replacement.Some? && i < |protocol.rules.names| && s.timely <= {p} && MayAct(protocol, s, p)
    requires Reaches(protocol, start, BackedUp(protocol, s, p, plan, i))
    ensures Reaches(protocol, start, t) && t == BackedUp(protocol, s, p, plan, i + 1)
  {
    hide Reaches;
    var names := protocol.rules.names;
    assert names[..i + 1] == names[..i] + [names[i]];
    OneMoreMovedOut(s.disk, names[..i], names[i]);
    hide AllMovedOut, MovedOut, Without, Only;
    t := BacksUpOne(protocol, start, BackedUp(protocol, s, p, plan, i), p);
    assert t.calls == s.calls[p := BackingUp(plan, i + 1)];
  }

  lemma BacksUpAll<T(!new)>(protocol: Protocol<T>, start: State<T>, s: State<T>, p: Client, plan: Plan<T>) returns (t: State<T>)
    requires Reaches(protocol, start, s) && MayAct(protocol, s, p) && s.timely <= {p}
    requires s.At(p) == BackingUp(plan, 0) && s.disk.replacement.Some?
    ensures Reaches(protocol, start, t)
    ensures t == s.(disk := AllMovedOut(protocol.rules.names, s.disk)).Move(p, BackingUp(plan, |protocol.rules.names|))
  {
    hide Reaches, MayAct;
    var names := protocol.rules.names;
    t := s;
    NoneMoved(s.disk);
    assert s.calls == s.calls[p := s.At(p)] && names[..0] == [];
    assert s == BackedUp(protocol, s, p, plan, 0);
    assert names[..|names|] == names;
    hide AllMovedOut;
    for i := 0 to |names|
      invariant Reaches(protocol, start, t) && t == BackedUp(protocol, s, p, plan, i)
    {
      t := BacksUpNext(protocol, start, s, p, plan, i);
    }
  }

  lemma AppliesSome<T(!new)>(protocol: Protocol<T>, start: State<T>, s: State<T>, p: Client, plan: Plan<T>, count: nat)
    returns (t: State<T>)
    requires Reaches(protocol, start, s) && MayAct(protocol, s, p) && s.timely <= {p}
    requires s.At(p) == Applying(plan, 0) && s.disk.replacement.Some? && count <= |protocol.rules.names|
    ensures Reaches(protocol, start, t)
    ensures t == s.(disk := AllMovedIn(protocol.rules.names[..count], s.disk)).Move(p, Applying(plan, count))
  {
    hide Reaches, MayAct;
    var names := protocol.rules.names;
    t := s;
    NoneMoved(s.disk);
    assert s.calls == s.calls[p := s.At(p)];
    assert names[..0] == [];
    hide AllMovedIn, MovedIn, Without, Only;
    for i := 0 to count
      invariant Reaches(protocol, start, t)
      invariant t == s.(disk := AllMovedIn(names[..i], s.disk)).Move(p, Applying(plan, i))
    {
      assert names[..i + 1] == names[..i] + [names[i]];
      OneMoreMovedIn(s.disk, names[..i], names[i]);
      assert MayAct(protocol, t, p) by { StaysAllowed(protocol, s, t, p); }
      t := AppliesOne(protocol, start, t, p);
      assert t.calls == s.calls[p := Applying(plan, i + 1)];
    }
  }

  lemma CreatesBackup<T(!new)>(protocol: Protocol<T>, start: State<T>, s: State<T>, p: Client, plan: Plan<T>) returns (t: State<T>)
    requires Reaches(protocol, start, s) && MayAct(protocol, s, p) && s.timely <= {p}
    requires s.At(p) == BackingUp(plan, |protocol.rules.names|)
    ensures Reaches(protocol, start, t)
    ensures t == s.(incoming := plan.documents).Write(s.Directory().(manifest := Some(BackupCreated))).Move(p, Applying(plan, 0))
  {
    hide Reaches;
    assert s.timely * {p} == s.timely;
    t := Goes(protocol, start, s, p, MarkBackupCreated);
  }

  /** From the `backup_created` manifest to the end, with whatever is staged by then. */
  lemma Swaps<T(!new)>(protocol: Protocol<T>, start: State<T>, s: State<T>, p: Client, plan: Plan<T>) returns (t: State<T>)
    requires Reaches(protocol, start, s) && MayAct(protocol, s, p) && s.timely <= {p}
    requires s.At(p) == BackingUp(plan, |protocol.rules.names|)
    ensures Reaches(protocol, start, t)
    ensures t.disk == Disk(s.disk.root + Only(s.Directory().next, protocol.rules.names), None)
    ensures t.history == s.history + [plan.documents] && t.commits == s.commits + [plan] && t.answers == s.answers
    ensures t.calls == s.calls[p := Idle] && t.lock == (if s.lock == Some(p) then None else s.lock)
  {
    hide Reaches;
    var names := protocol.rules.names;
    t := CreatesBackup(protocol, start, s, p, plan);
    t := AppliesSome(protocol, start, t, p, plan, |names|);
    assert names[..|names|] == names;
    t := EndsSwap(protocol, start, t, p, plan);
  }

  lemma EndsSwap<T(!new)>(protocol: Protocol<T>, start: State<T>, s: State<T>, p: Client, plan: Plan<T>) returns (t: State<T>)
    requires Reaches(protocol, start, s) && MayAct(protocol, s, p) && s.timely <= {p}
    requires s.At(p) == Applying(plan, |protocol.rules.names|)
    ensures Reaches(protocol, start, t)
    ensures t.disk == s.disk.(replacement := None) && t.history == s.history + [plan.documents]
    ensures t.commits == s.commits + [plan] && t.answers == s.answers
    ensures t.calls == s.calls[p := Idle] && t.lock == (if s.lock == Some(p) then None else s.lock)
  {
    hide Reaches;
    assert s.timely * {p} == s.timely;
    t := Goes(protocol, start, s, p, MarkApplied);
    assert t.At(p) == Closing(plan) && MayAct(protocol, t, p) && t.lock == s.lock && t.calls == s.calls[p := Closing(plan)];
    t := Goes(protocol, start, t, p, Clear(None));
  }

  // ---------- What goes wrong ----------

  /** A clean root that holds a valid set, and something to be written over it. */
  ghost predicate IsReplaceable<T>(protocol: Protocol<T>, s: State<T>, documents: Entries<T>) {
    && Initial(protocol, s) && s.disk.replacement == None && protocol.rules.inspect(s.Durable()) == ValidSet
    && Fits(protocol.rules, documents) && protocol.mayWrite(s.Durable(), s.Durable(), documents)
  }

  /** A reader that is past its check sees `staged` and an empty backup. */
  lemma LooksTooEarly<T(!new)>(protocol: Protocol<T>, start: State<T>, s: State<T>, p: Client) returns (t: State<T>)
    requires Reaches(protocol, start, s) && p in protocol.clients && protocol.lateMayAct && s.At(p) == Checked(ToRead)
    requires s.disk.replacement == Some(Replacement(Some(Staged), map[], map[]))
    requires protocol.rules.inspect(Only(s.disk.root, protocol.rules.names)) != Unreadable
    ensures Reaches(protocol, start, t) && t == s.Move(p, Clearing(ToRead))
  {
    hide Reaches;
    NamesInEmpty<T>(protocol.rules.names);
    t := Goes(protocol, start, s, p, Look);
  }

  lemma ClearsAll<T(!new)>(protocol: Protocol<T>, start: State<T>, s: State<T>, p: Client) returns (t: State<T>)
    requires Reaches(protocol, start, s) && p in protocol.clients && protocol.lateMayAct && s.At(p) == Clearing(ToRead)
    requires s.disk.replacement.Some?
    ensures Reaches(protocol, start, t)
    ensures t == s.(disk := s.disk.(replacement := None), timely := s.timely * {p}).Move(p, Reading(None, map[], 0))
  {
    hide Reaches;
    t := Goes(protocol, start, s, p, Clear(None));
  }

  /** The reader then removes what the writer has moved away, and the writer finds nothing to move in. */
  lemma DestroysFrom<T(!new)>(protocol: Protocol<T>, start: State<T>, s: State<T>, r: Client, w: Client, plan: Plan<T>)
    returns (t: State<T>)
    requires PartIsPreorder(protocol.rules) && Reaches(protocol, start, s) && protocol.lateMayAct
    requires r in protocol.clients && w in protocol.clients && r != w
    requires s.At(r) == Checked(ToRead) && s.At(w) == Opening(plan) && Fits(protocol.rules, plan.documents)
    requires s.disk.replacement == None && protocol.rules.inspect(Only(s.disk.root, protocol.rules.names)) != Unreadable
    ensures Reaches(protocol, start, t) && t.history == s.history + [plan.documents] && t.At(w).Idle?
    ensures t.disk == Disk(Without(s.disk.root, protocol.rules.names), None)
  {
    hide Reaches, Fits, PartIsPreorder, Without;
    t := OpensInSight(protocol, start, s, r, w, plan);
    t := Stages(protocol, start, t, w);
    t := BacksUpAll(protocol, start, t, w, plan);
    t := ClearsAll(protocol, start, t, r);
    t := Swaps(protocol, start, t, w, plan);
    NothingMovesIn(Without(s.disk.root, protocol.rules.names), protocol.rules.names);
  }

  lemma NothingMovesIn<T>(root: Entries<T>, names: seq<Name>)
    ensures root + Only(map[], names) == root
  {
  }

  lemma OpensInSight<T(!new)>(protocol: Protocol<T>, start: State<T>, s: State<T>, r: Client, w: Client, plan: Plan<T>)
    returns (t: State<T>)
    requires Reaches(protocol, start, s) && protocol.lateMayAct && r in protocol.clients && w in protocol.clients && r != w
    requires s.At(r) == Checked(ToRead) && s.At(w) == Opening(plan) && s.disk.replacement == None
    requires protocol.rules.inspect(Only(s.disk.root, protocol.rules.names)) != Unreadable
    ensures Reaches(protocol, start, t)
    ensures t == s.(disk := s.disk.(replacement := Some(Replacement(Some(Staged), map[], map[]))), timely := s.timely * {w})
                  .Move(w, Staging(plan)).Move(r, Clearing(ToRead))
  {
    hide Reaches;
    t := Opens(protocol, start, s, w);
    t := LooksTooEarly(protocol, start, t, r);
  }

  /**
    An unlocked recovery destroys a replacement: the writer reports success, and neither the old nor the new set is left.
    One of the two takes no lock; either the reader has looked for it before the writer took it, or the other way round.
   */
  lemma RecoveryDestroysReplacement<T(!new)>(protocol: Protocol<T>, s: State<T>, r: Client, w: Client, documents: Entries<T>)
    returns (t: State<T>)
    requires PartIsPreorder(protocol.rules) && IsReplaceable(protocol, s, documents) && protocol.lateMayAct
    requires r in protocol.clients && w in protocol.clients && w in protocol.writers && r != w
    requires r !in protocol.lockers || w !in protocol.lockers
    ensures Reaches(protocol, s, t) && t.history == s.history + [documents] && t.At(w).Idle?
    ensures t.disk == Disk(Without(s.disk.root, protocol.rules.names), None) && Only(t.disk.root, protocol.rules.names) == map[]
    ensures forall durable, incoming :: durable != map[] ==> !Recoverable(protocol.rules, t.disk, durable, incoming)
  {
    hide Reaches, Fits, PartIsPreorder;
    Starts(protocol, s);
    if r !in protocol.lockers {
      t := Enters(protocol, s, s, r);
      t := ReadsToDecide(protocol, s, t, w);
      t := Decides(protocol, s, t, w, documents);
    } else {
      t := ReadsToDecide(protocol, s, s, w);
      t := Decides(protocol, s, t, w, documents);
      t := Enters(protocol, s, t, r);
    }
    t := DestroysFrom(protocol, s, t, r, w, t.At(w).plan);
  }

  /**
    A torn read: a load that looked for the lock before a writer took it returns what the writer has moved in by then, which
    can be the entries of any number of names.
   */
  lemma LoadReturnsTornSet<T(!new)>(protocol: Protocol<T>, s: State<T>, r: Client, w: Client, documents: Entries<T>, count: nat)
    returns (t: State<T>)
    requires PartIsPreorder(protocol.rules) && IsReplaceable(protocol, s, documents) && protocol.lateMayAct
    requires r in protocol.clients && r !in protocol.lockers && r !in protocol.writers
    requires w in protocol.clients && w in protocol.writers && count <= |protocol.rules.names|
    ensures Reaches(protocol, s, t) && t.history == s.history
    ensures t.answers == [Finding(Only(documents, protocol.rules.names[..count]), 0)]
  {
    hide Reaches, PartIsPreorder;
    var names := protocol.rules.names;
    t := BothGetReady(protocol, s, r, w, documents);
    hide Initial;
    t := Replaces(protocol, s, t, w, t.At(w).plan, count);
    assert Only(t.disk.root, names) == Only(documents, names[..count]);
    t := AnswersLoad(protocol, s, t, r);
  }

  lemma BothGetReady<T(!new)>(protocol: Protocol<T>, s: State<T>, r: Client, w: Client, documents: Entries<T>) returns (t: State<T>)
    requires PartIsPreorder(protocol.rules) && IsReplaceable(protocol, s, documents) && protocol.lateMayAct
    requires r in protocol.clients && r !in protocol.lockers && r !in protocol.writers
    requires w in protocol.clients && w in protocol.writers
    ensures Reaches(protocol, s, t) && t.history == s.history && t.answers == [] && t.disk == s.disk
    ensures t.At(r) == Reading(None, map[], 0) && t.At(w).Opening? && t.At(w).plan.documents == documents
  {
    hide Reaches, PartIsPreorder, Fits;
    Starts(protocol, s);
    t := Enters(protocol, s, s, r);
    t := FindsNothingToRecover(protocol, s, t, r);
    t := ReadsToDecide(protocol, s, t, w);
    t := Decides(protocol, s, t, w, documents);
  }

  lemma AnswersLoad<T(!new)>(protocol: Protocol<T>, start: State<T>, s: State<T>, p: Client) returns (t: State<T>)
    requires Reaches(protocol, start, s) && MayAct(protocol, s, p) && p !in protocol.writers && s.At(p) == Reading(None, map[], 0)
    ensures Reaches(protocol, start, t) && t.history == s.history && t.answers == s.answers + [Present(protocol, s)]
  {
    hide Reaches;
    t := ReadsAll(protocol, start, s, p, None);
    t := Goes(protocol, start, t, p, FinishReading);
  }

  /** A replacement up to a number of renames out of the staged set. */
  lemma Replaces<T(!new)>(protocol: Protocol<T>, start: State<T>, s: State<T>, w: Client, plan: Plan<T>, count: nat)
    returns (t: State<T>)
    requires PartIsPreorder(protocol.rules) && Reaches(protocol, start, s) && MayAct(protocol, s, w)
    requires s.At(w) == Opening(plan) && s.disk.replacement == None
    requires Fits(protocol.rules, plan.documents) && count <= |protocol.rules.names|
    ensures Reaches(protocol, start, t) && MayAct(protocol, t, w)
    ensures t.disk.root == Without(s.disk.root, protocol.rules.names) + Only(plan.documents, protocol.rules.names[..count])
    ensures t.calls == s.calls[w := Applying(plan, count)]
    ensures t.history == s.history && t.answers == s.answers && t.commits == s.commits && t.lock == s.lock && t.timely <= {w}
  {
    hide Reaches, PartIsPreorder, Fits;
    t := Opens(protocol, start, s, w);
    t := Stages(protocol, start, t, w);
    t := BacksUpAll(protocol, start, t, w, plan);
    t := CreatesBackup(protocol, start, t, w, plan);
    t := AppliesSome(protocol, start, t, w, plan, count);
  }

  lemma RemovesAll<T(!new)>(protocol: Protocol<T>, start: State<T>, s: State<T>, p: Client, job: Job<T>, selected: seq<Name>)
    returns (t: State<T>)
    requires Reaches(protocol, start, s) && MayAct(protocol, s, p) && s.At(p) == AfterRemoving(job, selected, 0)
    ensures Reaches(protocol, start, t) && MayAct(protocol, t, p) && t.At(p) == AfterCopying(job, selected, 0)
    ensures forall q :: q != p ==> t.At(q) == s.At(q)
    ensures t.disk == s.disk.(root := Without(s.disk.root, selected)) && t.history == s.history && t.lock == s.lock
  {
    hide Reaches, MayAct;
    t := s;
    assert Without(s.disk.root, selected[..0]) == s.disk.root && selected[..|selected|] == selected;
    for i := 0 to |selected|
      invariant Reaches(protocol, start, t) && MayAct(protocol, t, p) && t.At(p) == AfterRemoving(job, selected, i)
      invariant forall q :: q != p ==> t.At(q) == s.At(q)
      invariant t.disk == s.disk.(root := Without(s.disk.root, selected[..i])) && t.history == s.history && t.lock == s.lock
    {
      assert selected[..i + 1] == selected[..i] + [selected[i]];
      TakeOneMore(s.disk.root, selected[..i], selected[i]);
      t := RemovesOne(protocol, start, t, p);
    }
  }

  lemma CopiesAll<T(!new)>(protocol: Protocol<T>, start: State<T>, s: State<T>, p: Client, job: Job<T>, selected: seq<Name>)
    returns (t: State<T>)
    requires Reaches(protocol, start, s) && MayAct(protocol, s, p) && s.At(p) == AfterCopying(job, selected, 0)
    ensures Reaches(protocol, start, t) && MayAct(protocol, t, p) && t.At(p) == Clearing(job)
    ensures forall q :: q != p ==> t.At(q) == s.At(q)
    ensures t.disk == s.disk.(root := s.disk.root + Only(s.Directory().backup, selected))
    ensures t.history == s.history && t.lock == s.lock
  {
    hide Reaches, MayAct;
    var backup := s.Directory().backup;
    t := s;
    assert s.disk.root + Only(backup, selected[..0]) == s.disk.root && selected[..|selected|] == selected;
    for i := 0 to |selected|
      invariant Reaches(protocol, start, t) && MayAct(protocol, t, p) && t.At(p) == AfterCopying(job, selected, i)
      invariant forall q :: q != p ==> t.At(q) == s.At(q)
      invariant t.disk == s.disk.(root := s.disk.root + Only(backup, selected[..i])) && t.history == s.history && t.lock == s.lock
    {
      assert selected[..i + 1] == selected[..i] + [selected[i]];
      CopyOneMore(s.disk.root, backup, selected[..i], selected[i]);
      t := CopiesOne(protocol, start, t, p);
    }
  }

  lemma RestoresAll<T(!new)>(protocol: Protocol<T>, start: State<T>, s: State<T>, p: Client, job: Job<T>, selected: seq<Name>)
    returns (t: State<T>)
    requires Reaches(protocol, start, s) && MayAct(protocol, s, p) && s.At(p) == AfterRemoving(job, selected, 0)
    ensures Reaches(protocol, start, t) && MayAct(protocol, t, p) && t.At(p) == Clearing(job)
    ensures forall q :: q != p ==> t.At(q) == s.At(q)
    ensures t.disk == s.disk.(root := RestoredRoot(s.disk.root, s.Directory().backup, selected))
    ensures t.history == s.history && t.lock == s.lock
  {
    hide Reaches, Only, Without, AfterRemoving, AfterCopying, MayAct;
    t := RemovesAll(protocol, start, s, p, job, selected);
    t := CopiesAll(protocol, start, t, p, job, selected);
  }

  lemma RemovesOne<T(!new)>(protocol: Protocol<T>, start: State<T>, s: State<T>, p: Client) returns (t: State<T>)
    requires Reaches(protocol, start, s) && MayAct(protocol, s, p)
    requires s.At(p).Removing? && s.At(p).done < |s.At(p).selected|
    ensures var phase := s.At(p);
            && t.disk == s.disk.(root := s.disk.root - {phase.selected[phase.done]})
            && t.calls == s.calls[p := AfterRemoving(phase.job, phase.selected, phase.done + 1)]
    ensures Reaches(protocol, start, t) && MayAct(protocol, t, p) && t.history == s.history && t.lock == s.lock
  {
    hide Reaches;
    t := Goes(protocol, start, s, p, RemoveEntry);
  }

  lemma CopiesOne<T(!new)>(protocol: Protocol<T>, start: State<T>, s: State<T>, p: Client) returns (t: State<T>)
    requires Reaches(protocol, start, s) && MayAct(protocol, s, p)
    requires s.At(p).Copying? && s.At(p).done < |s.At(p).selected|
    ensures var phase, backup := s.At(p), s.Directory().backup; var n := phase.selected[phase.done];
            && t.disk == s.disk.(root := if n in backup then s.disk.root[n := backup[n]] else s.disk.root)
            && t.calls == s.calls[p := AfterCopying(phase.job, phase.selected, phase.done + 1)]
    ensures Reaches(protocol, start, t) && MayAct(protocol, t, p) && t.history == s.history && t.lock == s.lock
  {
    hide Reaches;
    t := Goes(protocol, start, s, p, CopyEntry);
  }

  lemma Looks<T(!new)>(protocol: Protocol<T>, start: State<T>, s: State<T>, p: Client, job: Job<T>) returns (t: State<T>)
    requires Reaches(protocol, start, s) && MayAct(protocol, s, p) && s.At(p) == Checked(job)
    ensures Reaches(protocol, start, t) && t == AfterLook(protocol.rules, s, p, job) && MayAct(protocol, t, p)
  {
    hide Reaches;
    t := Goes(protocol, start, s, p, Look);
  }

  lemma ClearsOnce<T(!new)>(protocol: Protocol<T>, start: State<T>, s: State<T>, p: Client, job: Job<T>) returns (t: State<T>)
    requires Reaches(protocol, start, s) && MayAct(protocol, s, p) && s.At(p) == Clearing(job)
    ensures Reaches(protocol, start, t) && t.disk == s.disk.(replacement := None) && t.At(p) == AfterRecovery(job)
    ensures t.history == s.history && t.lock == s.lock
  {
    hide Reaches;
    t := Goes(protocol, start, s, p, Clear(None));
  }

  /** The steps of a recovery that nobody disturbs come to what recovery is, on every disk. */
  lemma UndisturbedRecovery<T(!new)>(protocol: Protocol<T>, start: State<T>, s: State<T>, p: Client, job: Job<T>)
    returns (t: State<T>)
    requires Reaches(protocol, start, s) && MayAct(protocol, s, p) && s.At(p) == Checked(job)
    ensures Reaches(protocol, start, t) && t.history == s.history
    ensures match Recovered(protocol.rules, s.disk)
            case None => t.disk == s.disk && t.At(p).Idle?
            case Some(after) => t.disk == after && t.At(p) == AfterRecovery(job)
  {
    hide Reaches, MayAct;
    t := Looks(protocol, start, s, p, job);
    if s.disk.replacement.Some? {
      var r := s.disk.replacement.value;
      if t.At(p).Idle? {
      } else if r.manifest == Some(BackupCreated) {
        t := RestoresAll(protocol, start, t, p, job, protocol.rules.names);
        t := ClearsOnce(protocol, start, t, p, job);
      } else if t.At(p) == Clearing(job) {
        t := ClearsOnce(protocol, start, t, p, job);
      } else {
        t := RestoresAll(protocol, start, t, p, job, NamesIn(r.backup, protocol.rules.names));
        t := ClearsOnce(protocol, start, t, p, job);
      }
    }
  }

  /** A replacement that died after its backup was complete. */
  ghost predicate IsLeftOver<T>(protocol: Protocol<T>, s: State<T>) {
    && Initial(protocol, s) && s.disk.replacement.Some? && s.disk.replacement.value.manifest == Some(BackupCreated)
    && protocol.rules.inspect(Only(s.disk.root, protocol.rules.names)) != Unreadable && protocol.rules.names != []
  }

  lemma StartsToRestore<T(!new)>(protocol: Protocol<T>, start: State<T>, s: State<T>, p: Client) returns (t: State<T>)
    requires Reaches(protocol, start, s) && p in protocol.clients && protocol.lateMayAct && p !in protocol.lockers
    requires s.At(p).Idle? && s.lock == None && protocol.rules.names != []
    requires s.disk.replacement.Some? && s.disk.replacement.value.manifest == Some(BackupCreated)
    requires protocol.rules.inspect(Only(s.disk.root, protocol.rules.names)) != Unreadable
    ensures Reaches(protocol, start, t) && t.disk == s.disk && t.history == s.history && t.lock == None
    ensures t.calls == s.calls[p := Removing(ToRead, protocol.rules.names, 0)]
  {
    hide Reaches;
    t := Enters(protocol, start, s, p);
    t := Goes(protocol, start, t, p, Look);
  }

  /**
    Nobody need write: after a crash, two unlocked recoveries that have both looked destroy the tree.  The first restores it
    and clears, and the second removes it and finds no backup to copy.
   */
  lemma RecoveriesDestroyTree<T(!new)>(protocol: Protocol<T>, s: State<T>, p: Client, q: Client) returns (t: State<T>)
    requires IsLeftOver(protocol, s) && protocol.lateMayAct && p != q
    requires p in protocol.clients && q in protocol.clients && p !in protocol.lockers && q !in protocol.lockers
    ensures Reaches(protocol, s, t) && t.history == s.history
    ensures t.disk.replacement == None && Only(t.disk.root, protocol.rules.names) == map[]
    ensures Intact(protocol, t) ==> s.Durable() == map[]
  {
    hide Reaches;
    var names := protocol.rules.names;
    Starts(protocol, s);
    t := StartsToRestore(protocol, s, s, p);
    t := StartsToRestore(protocol, s, t, q);
    assert t.At(q) == AfterRemoving(ToRead, names, 0);
    t := RestoresAll(protocol, s, t, p, ToRead, names);
    assert t.At(q) == AfterRemoving(ToRead, names, 0);
    t := ClearsAll(protocol, s, t, p);
    t := RestoresAll(protocol, s, t, q, ToRead, names);
    assert Only(t.disk.root, names) == map[];
    hide IsLeftOver;
    t := ClearsNothing(protocol, s, t, q);
  }

  lemma ClearsNothing<T(!new)>(protocol: Protocol<T>, start: State<T>, s: State<T>, p: Client) returns (t: State<T>)
    requires Reaches(protocol, start, s) && p in protocol.clients && protocol.lateMayAct && s.At(p) == Clearing(ToRead)
    ensures Reaches(protocol, start, t) && t.disk == s.disk.(replacement := None) && t.history == s.history
  {
    hide Reaches;
    t := Goes(protocol, start, s, p, Clear(None));
  }

  /**
    A lost update: a writer reads, another writer commits, and the first then commits over it what it makes of the set that
    was there before.  If the first takes the lock, the other has passed its last check before that.
   */
  lemma StaleCommit<T(!new)>(protocol: Protocol<T>, s: State<T>, u: Client, w: Client, stale: Entries<T>, documents: Entries<T>)
    returns (t: State<T>)
    requires PartIsPreorder(protocol.rules) && IsReplaceable(protocol, s, stale) && IsReplaceable(protocol, s, documents)
    requires u in protocol.clients && u in protocol.writers && w in protocol.clients && w in protocol.writers && u != w
    requires u !in protocol.lockers || w !in protocol.lockers
    ensures Reaches(protocol, s, t) && !Serial(t)
    ensures t.history == s.history + [documents, stale] && t.disk.replacement == None && t.At(u).Idle? && t.At(w).Idle?
    ensures |t.commits| == 2 && t.commits[1].read.at == 0 && t.commits[1].packs.at == 0
  {
    assert Fits(protocol.rules, stale) && Fits(protocol.rules, documents) && s.commits == [];
    t := BothRead(protocol, s, u, w, stale, documents);
    hide Reaches, PartIsPreorder, Fits, IsReplaceable;
    t := CommitsAll(protocol, s, t, w, t.At(w).plan);
    t := Decides(protocol, s, t, u, stale);
    t := CommitsAll(protocol, s, t, u, t.At(u).plan);
    assert t.commits[1].read.at == 0;
  }

  lemma BothRead<T(!new)>(protocol: Protocol<T>, s: State<T>, u: Client, w: Client, stale: Entries<T>, documents: Entries<T>)
    returns (t: State<T>)
    requires IsReplaceable(protocol, s, stale) && IsReplaceable(protocol, s, documents)
    requires u in protocol.clients && u in protocol.writers && w in protocol.clients && w in protocol.writers && u != w
    requires u !in protocol.lockers || w !in protocol.lockers
    ensures Reaches(protocol, s, t) && t.disk.replacement == None && t.history == s.history && t.commits == s.commits
    ensures t.lock in {None, Some(u), Some(w)} && (t.lock == Some(w) ==> w in protocol.lockers && u !in protocol.lockers)
    ensures MayAct(protocol, t, w) && t.At(w).Opening? && t.At(w).plan.documents == documents
    ensures t.At(u) == HasRead(Finding(s.Durable(), 0), Finding(s.Durable(), 0)) && protocol.mayWrite(s.Durable(), s.Durable(), stale)
  {
    hide Reaches, Fits;
    Starts(protocol, s);
    if u !in protocol.lockers {
      t := ReadsToDecide(protocol, s, s, u);
      t := ReadsToDecide(protocol, s, t, w);
      t := Decides(protocol, s, t, w, documents);
    } else {
      t := ReadsToDecide(protocol, s, s, w);
      t := Decides(protocol, s, t, w, documents);
      t := ReadsToDecide(protocol, s, t, u);
    }
  }

  lemma CommitsAll<T(!new)>(protocol: Protocol<T>, start: State<T>, s: State<T>, w: Client, plan: Plan<T>) returns (t: State<T>)
    requires PartIsPreorder(protocol.rules) && Reaches(protocol, start, s) && MayAct(protocol, s, w)
    requires s.At(w) == Opening(plan) && s.disk.replacement == None && Fits(protocol.rules, plan.documents)
    ensures Reaches(protocol, start, t)
    ensures t.disk.replacement == None && t.history == s.history + [plan.documents] && t.commits == s.commits + [plan]
    ensures t.calls == s.calls[w := Idle] && t.lock == (if s.lock == Some(w) then None else s.lock)
  {
    hide Reaches, PartIsPreorder, Fits;
    t := Replaces(protocol, start, s, w, plan, |protocol.rules.names|);
    t := EndsSwap(protocol, start, t, w, plan);
  }

  // ---------- Exactly when calls may overlap ----------

  /** All runs are intact if and only if no late call may act, or everyone takes the lock, or nobody writes, or there is one
      client only. */
  lemma IntactExactly<T(!new)>(protocol: Protocol<T>, s: State<T>, documents: Entries<T>)
    requires PartIsPreorder(protocol.rules) && IsReplaceable(protocol, s, documents) && documents != map[]
    requires protocol.writers <= protocol.clients
    ensures (forall steps :: Execute(protocol, s, steps).Some? ==> Intact(protocol, Execute(protocol, s, steps).value))
       <==> IsOrderly(protocol)
  {
    if IsOrderly(protocol) {
      forall steps | Execute(protocol, s, steps).Some? ensures Intact(protocol, Execute(protocol, s, steps).value) {
        OrderlyRunsAreIntact(protocol, s, steps);
      }
    } else {
      var w :| w in protocol.writers;
      var u :| u in protocol.clients && u !in protocol.lockers;
      var r := u;
      if u == w { r :| r in protocol.clients && r != w; }
      var t := RecoveryDestroysReplacement(protocol, s, r, w, documents);
      assert t.Durable() == documents;
      var steps :| Execute(protocol, s, steps) == Some(t);
      assert !Intact(protocol, Execute(protocol, s, steps).value);
    }
  }

  /** In an orderly protocol, all commits are serial if and only if all writers take the lock, or there is one only. */
  lemma SerialExactly<T(!new)>(protocol: Protocol<T>, s: State<T>, documents: Entries<T>)
    requires PartIsPreorder(protocol.rules) && IsReplaceable(protocol, s, documents) && IsOrderly(protocol)
    requires protocol.writers <= protocol.clients
    ensures (forall steps :: Execute(protocol, s, steps).Some? ==> Serial(Execute(protocol, s, steps).value))
       <==> IsOneWriter(protocol)
  {
    if IsOneWriter(protocol) {
      forall steps | Execute(protocol, s, steps).Some? ensures Serial(Execute(protocol, s, steps).value) {
        OrderlyRunsAreIntact(protocol, s, steps);
      }
    } else {
      var u :| u in protocol.writers && u !in protocol.lockers;
      var w :| w in protocol.writers && w != u;
      var t := StaleCommit(protocol, s, u, w, documents, documents);
      var steps :| Execute(protocol, s, steps) == Some(t);
      assert !Serial(Execute(protocol, s, steps).value);
    }
  }
}
