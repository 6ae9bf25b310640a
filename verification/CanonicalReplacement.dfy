/**
  Crash-safe replacement of the canonical entries under one JSON root, and its recovery
  (packages/json/src/filesystem.ts): the crash invariant, recovery as a function, and whole runs.  The step-by-step code
  is in CanonicalStore.

  A rename of a top-level entry is one step.  A recursive copy or removal is not: a crash in the middle of it leaves
  any part of the entry's tree.  `T` is the type of these trees, and `part` says what may be left of one.

  `durable` is what the canonical entries are once the next recovery completes, and `incoming` the staged set that the
  root may hold a part of while the manifest says `backup_created`.
 */
module CanonicalReplacement {
  import opened Wrappers

  type Name = string

  /** The tree below each top-level entry. */
  type Entries<T> = map<Name, T>

  datatype ManifestState = Staged | BackupCreated | Applied

  /** The content of the `.canonical-replace` directory. */
  datatype Replacement<T> = Replacement(manifest: Option<ManifestState>, next: Entries<T>, backup: Entries<T>)

  datatype Disk<T> = Disk(root: Entries<T>, replacement: Option<Replacement<T>>)

  /** What reading and validating a set of canonical entries yields; `Unreadable` is a thrown container error. */
  datatype Verdict = ValidSet | InvalidSet | Unreadable

  datatype Outcome = Completed | Interrupted | Refused

  /** The canonical names, how entries are read, and what a crash may leave of a tree that is copied or removed. */
  datatype Rules<!T> = Rules(names: seq<Name>, inspect: Entries<T> -> Verdict, part: (T, T) -> bool)

  ghost predicate PartIsPreorder<T(!new)>(rules: Rules<T>) {
    && (forall t :: rules.part(t, t))
    && (forall t, u, v :: rules.part(t, u) && rules.part(u, v) ==> rules.part(t, v))
  }

  const TOP_LEVEL_ENTRIES: seq<Name> := [
    "project.json", "schema", "refs", "versions", "work_items", "todos", "undos", "deferred_items",
    "constraints", "assets", "events", "pending_operations", "approval_artifacts",
    "ordinary_write_receipts", "audit", "operations", "audit_packs"
  ]

  // ---------- Selecting parts of a directory ----------

  function Only<T>(m: Entries<T>, names: seq<Name>): Entries<T> {
    map n | n in m && n in names :: m[n]
  }

  function Without<T>(m: Entries<T>, names: seq<Name>): Entries<T> {
    map n | n in m && n !in names :: m[n]
  }

  ghost predicate SubMap<T>(a: Entries<T>, b: Entries<T>) {
    forall n <- a :: n in b && a[n] == b[n]
  }

  /** Every entry of `a` is a part of the entry of that name in `b`. */
  ghost predicate Partial<T>(rules: Rules<T>, a: Entries<T>, b: Entries<T>) {
    forall n <- a :: n in b && rules.part(a[n], b[n])
  }

  // ---------- The crash invariant ----------

  /** The old tree is either a valid document set or empty. */
  ghost predicate Acceptable<T>(rules: Rules<T>, durable: Entries<T>) {
    durable == map[] || rules.inspect(durable) == ValidSet
  }

  /** Every disk from which recovery leads to exactly `durable`. */
  ghost predicate Recoverable<T>(rules: Rules<T>, d: Disk<T>, durable: Entries<T>, incoming: Entries<T>) {
    var root := Only(d.root, rules.names);
    && Acceptable(rules, durable)
    && Only(durable, rules.names) == durable
    && match d.replacement
       case None => root == durable
       case Some(r) =>
         && Only(r.backup, rules.names) == r.backup
         && match r.manifest
            case None =>
              && root == durable
              && (rules.inspect(durable) == ValidSet || r.backup == map[])
            case Some(Staged) =>
              && Partial(rules, root, durable)
              && (forall n <- root :: n in r.backup || root[n] == durable[n])
              && SubMap(r.backup, durable)
              && durable.Keys <= root.Keys + r.backup.Keys
            case Some(BackupCreated) =>
              && r.backup == durable
              && (Partial(rules, root, durable) || Partial(rules, root, incoming))
            case Some(Applied) =>
              root == durable && rules.inspect(durable) == ValidSet
  }

  // ---------- Uninterrupted recovery as a function ----------

  /** Replacing the entries called `names` by their copies in `backup`. */
  function RestoredRoot<T>(root: Entries<T>, backup: Entries<T>, names: seq<Name>): Entries<T> {
    Without(root, names) + Only(backup, names)
  }

  function NamesIn<T>(m: Entries<T>, names: seq<Name>): (r: seq<Name>)
    ensures forall n :: n in r <==> n in names && n in m
  {
    if names == [] then []
    else if names[0] in m then [names[0]] + NamesIn(m, names[1..])
    else NamesIn(m, names[1..])
  }

  lemma NamesInCoversMap<T>(m: Entries<T>, names: seq<Name>)
    requires Only(m, names) == m
    ensures forall n :: n in m <==> n in NamesIn(m, names)
  {
    forall n <- m ensures n in names { assert n in Only(m, names); }
  }

  lemma {:induction false} NamesInEmpty<T>(names: seq<Name>)
    ensures NamesIn<T>(map[], names) == []
  {
    if names != [] { NamesInEmpty<T>(names[1..]); }
  }

  /** The disk that an uninterrupted recovery leaves, or None when reading the current entries throws. */
  function Recovered<T>(rules: Rules<T>, d: Disk<T>): Option<Disk<T>> {
    match d.replacement
    case None => Some(d)
    case Some(r) =>
      var verdict := rules.inspect(Only(d.root, rules.names));
      var backupNames := NamesIn(r.backup, rules.names);
      if verdict == Unreadable then None
      else if r.manifest == Some(BackupCreated) then
        Some(Disk(RestoredRoot(d.root, r.backup, rules.names), None))
      else if r.manifest != Some(Staged) && verdict == ValidSet then Some(Disk(d.root, None))
      else if backupNames != [] then Some(Disk(RestoredRoot(d.root, r.backup, backupNames), None))
      else Some(Disk(d.root, None))
  }

  /**
    Recovery of any disk, entry by entry.  Nothing is done to a root that cannot be read.  A created backup replaces all
    canonical entries; that of a staged replacement, or of one whose root is not a valid set, those it has; and a valid root
    stays.  Foreign names stay too, and the replacement directory goes.
   */
  lemma RecoveryByEntries<T>(rules: Rules<T>, d: Disk<T>)
    ensures d.replacement == None ==> Recovered(rules, d) == Some(d)
    ensures d.replacement != None ==>
              (Recovered(rules, d) == None <==> rules.inspect(Only(d.root, rules.names)) == Unreadable)
    ensures d.replacement != None && Recovered(rules, d) != None ==>
              var r, after := d.replacement.value, Recovered(rules, d).value;
              && after.replacement == None
              && (forall n :: n !in rules.names ==> (n in after.root <==> n in d.root) && (n in d.root ==> after.root[n] == d.root[n]))
              && (r.manifest == Some(BackupCreated) ==> Only(after.root, rules.names) == Only(r.backup, rules.names))
              && (r.manifest == Some(Staged)
                  || (r.manifest != Some(BackupCreated) && rules.inspect(Only(d.root, rules.names)) != ValidSet) ==>
                    Only(after.root, rules.names) == Only(d.root, rules.names) + Only(r.backup, rules.names))
              && (r.manifest in {None, Some(Applied)} && rules.inspect(Only(d.root, rules.names)) == ValidSet ==> after.root == d.root)
  {
  }

  /** Recovery of a recoverable disk, when it completes, leaves exactly `durable` and touches no other name. */
  lemma RecoveredIsDurable<T>(rules: Rules<T>, d: Disk<T>, durable: Entries<T>, incoming: Entries<T>)
    requires Recoverable(rules, d, durable, incoming)
    requires Recovered(rules, d).Some?
    ensures var after := Recovered(rules, d).value;
            && after.replacement.None?
            && Only(after.root, rules.names) == durable
            && Without(after.root, rules.names) == Without(d.root, rules.names)
            && Recovered(rules, after) == Some(after)
  {
    if d.replacement.Some? {
      var r := d.replacement.value;
      if r.manifest == Some(BackupCreated) {
        assert Only(RestoredRoot(d.root, durable, rules.names), rules.names) == durable;
      } else if r.manifest == Some(Staged) {
        StagedRecovery(rules.names, d.root, r.backup, durable);
      } else if rules.inspect(durable) != ValidSet {
        NamesInEmpty<T>(rules.names);
      }
    }
  }

  lemma StagedRecovery<T>(names: seq<Name>, root: Entries<T>, backup: Entries<T>, durable: Entries<T>)
    requires Only(backup, names) == backup && Only(durable, names) == durable
    requires forall n <- Only(root, names) :: n in durable && (n in backup || root[n] == durable[n])
    requires SubMap(backup, durable)
    requires durable.Keys <= root.Keys + backup.Keys
    ensures var selected := NamesIn(backup, names);
            var after := if selected == [] then root else RestoredRoot(root, backup, selected);
            Only(after, names) == durable && Without(after, names) == Without(root, names)
  {
    NamesInCoversMap(backup, names);
    hide NamesIn, SubMap;
    if NamesIn(backup, names) == [] {
      assert backup == map[];
      StagedUnion(names, root, backup, durable);
      assert root + backup == root;
    } else {
      RestoredUnion(names, root, backup, NamesIn(backup, names));
      StagedUnion(names, root, backup, durable);
    }
  }

  lemma StagedUnion<T>(names: seq<Name>, root: Entries<T>, backup: Entries<T>, durable: Entries<T>)
    requires Only(backup, names) == backup && Only(durable, names) == durable
    requires forall n <- Only(root, names) :: n in durable && (n in backup || root[n] == durable[n])
    requires SubMap(backup, durable)
    requires durable.Keys <= root.Keys + backup.Keys
    ensures Only(root + backup, names) == durable
  {
    assert forall n :: n in durable ==> n in Only(durable, names);
  }

  lemma RestoredUnion<T>(names: seq<Name>, root: Entries<T>, backup: Entries<T>, selected: seq<Name>)
    requires forall n :: n in backup <==> n in selected
    requires forall n :: n in backup ==> n in names
    ensures RestoredRoot(root, backup, selected) == root + backup
    ensures Without(root + backup, names) == Without(root, names)
  {
  }

  // ---------- When recovery is refused ----------

  /** A crash in the middle of a copy or removal cannot leave a tree whose reading throws. */
  ghost predicate PartsReadable<T(!new)>(rules: Rules<T>, whole: Entries<T>) {
    forall t: Entries<T> :: Partial(rules, t, whole) ==> rules.inspect(Only(t, rules.names)) != Unreadable
  }

  lemma RootIsPartial<T(!new)>(rules: Rules<T>, d: Disk<T>, durable: Entries<T>, incoming: Entries<T>)
    requires PartIsPreorder(rules) && Recoverable(rules, d, durable, incoming)
    ensures var root := Only(d.root, rules.names);
            Only(root, rules.names) == root && (Partial(rules, root, durable) || Partial(rules, root, incoming))
  {
  }

  /**
    No crash of a replacement of `durable` by `incoming` makes recovery impossible if and only if every part of the old
    and of the new tree can be read.
   */
  lemma NeverRefusedExactly<T(!new)>(rules: Rules<T>, durable: Entries<T>, incoming: Entries<T>)
    requires PartIsPreorder(rules) && Acceptable(rules, durable) && Only(durable, rules.names) == durable
    ensures (forall d :: Recoverable(rules, d, durable, incoming) ==> Recovered(rules, d).Some?)
       <==> PartsReadable(rules, durable) && PartsReadable(rules, incoming)
  {
    if forall d :: Recoverable(rules, d, durable, incoming) ==> Recovered(rules, d).Some? {
      forall t: Entries<T> | Partial(rules, t, durable) || Partial(rules, t, incoming)
        ensures rules.inspect(Only(t, rules.names)) != Unreadable
      {
        var d := Disk(t, Some(Replacement(Some(BackupCreated), map[], durable)));
        assert Recoverable(rules, d, durable, incoming);
      }
    }
    if PartsReadable(rules, durable) && PartsReadable(rules, incoming) {
      forall d | Recoverable(rules, d, durable, incoming) ensures Recovered(rules, d).Some? {
        RootIsPartial(rules, d, durable, incoming);
      }
    }
  }

  // ---------- The store ----------

  /** The selected entries of `a` are parts of those in `b`. */
  ghost predicate SelectedPartial<T>(rules: Rules<T>, a: Entries<T>, b: Entries<T>, selected: seq<Name>) {
    forall n <- a :: n in selected ==> n in b && rules.part(a[n], b[n])
  }

  /** What an interrupted or finished restore may have done: removing comes before copying. */
  ghost predicate PartlyRestored<T>(rules: Rules<T>, before: Entries<T>, after: Entries<T>, backup: Entries<T>,
                                    selected: seq<Name>) {
    && Without(after, selected) == Without(before, selected)
    && (SelectedPartial(rules, after, before, selected) || SelectedPartial(rules, after, backup, selected))
  }

  /** What an interrupted clear may have removed.  The manifest goes before anything of the backup it protects. */
  ghost predicate PartlyCleared<T>(rules: Rules<T>, before: Replacement<T>, after: Replacement<T>) {
    && (after.manifest == before.manifest || after.manifest == None)
    && Partial(rules, after.backup, before.backup)
    && (after.manifest in {Some(Staged), Some(BackupCreated)} ==> after.backup == before.backup)
  }

  /** A staged set that may be swapped in. */
  predicate Fits<T>(rules: Rules<T>, documents: Entries<T>) {
    (forall n <- documents :: n in rules.names) && rules.inspect(documents) == ValidSet
  }

  lemma FittingIsCanonical<T>(rules: Rules<T>, documents: Entries<T>)
    requires Fits(rules, documents)
    ensures Only(documents, rules.names) == documents
  {
  }

  lemma TornFurther<T(!new)>(rules: Rules<T>, before: Replacement<T>, r: Replacement<T>, n: Name, torn: T)
    requires PartIsPreorder(rules) && PartlyCleared(rules, before, r)
    requires r.manifest !in {Some(Staged), Some(BackupCreated)} && n in r.backup && rules.part(torn, r.backup[n])
    ensures PartlyCleared(rules, before, r.(backup := r.backup[n := torn]))
  {
  }

  lemma TakeOneMore<T>(m: Entries<T>, taken: seq<Name>, n: Name)
    ensures Without(m, taken + [n]) == Without(m, taken) - {n}
    ensures n in Without(m, taken) ==> Only(m, taken + [n]) == Only(m, taken)[n := m[n]]
    ensures n !in Without(m, taken) ==> Only(m, taken + [n]) == Only(m, taken)
  {
  }

  lemma BackupPhaseStarts<T>(rules: Rules<T>, d: Disk<T>, durable: Entries<T>, incoming: Entries<T>)
    requires Recoverable(rules, d, durable, incoming)
    requires d.replacement.Some? && d.replacement.value.manifest == Some(Staged) && d.replacement.value.backup == map[]
    ensures Only(d.root, rules.names) == durable && Without(d.root, []) == d.root && Only(d.root, []) == map[]
  {
    assert forall n :: n in durable ==> n in Only(durable, rules.names);
  }

  /** While the old entries move to the backup, each of them is in exactly one of the two places. */
  lemma BackupPhaseRecoverable<T(!new)>(rules: Rules<T>, before: Entries<T>, taken: seq<Name>, r: Replacement<T>,
                                        durable: Entries<T>, incoming: Entries<T>)
    requires PartIsPreorder(rules) && Acceptable(rules, durable) && Only(before, rules.names) == durable
    requires forall n <- taken :: n in rules.names
    requires r.manifest == Some(Staged) && r.backup == Only(before, taken)
    ensures Recoverable(rules, Disk(Without(before, taken), Some(r)), durable, incoming)
    ensures Without(Without(before, taken), rules.names) == Without(before, rules.names)
    ensures taken == rules.names ==> r.backup == durable && Only(Without(before, taken), rules.names) == map[]
  {
    forall n <- durable ensures n in Without(before, taken) || n in r.backup {
      assert n in Only(before, rules.names);
    }
    forall n <- Only(Without(before, taken), rules.names) ensures n in durable && before[n] == durable[n] {
      assert n in Only(before, rules.names);
    }
  }

  /** Once the manifest says `backup_created`, recovery looks at nothing but the backup. */
  lemma BackupAloneMatters<T>(rules: Rules<T>, a: Disk<T>, b: Disk<T>, durable: Entries<T>, incoming: Entries<T>)
    requires Recoverable(rules, a, durable, incoming)
    requires a.replacement.Some? && a.replacement.value.manifest == Some(BackupCreated)
    requires b.replacement.Some? && b.replacement.value.manifest == Some(BackupCreated)
    requires b.replacement.value.backup == a.replacement.value.backup
    requires Partial(rules, Only(b.root, rules.names), durable) || Partial(rules, Only(b.root, rules.names), incoming)
    ensures Recoverable(rules, b, durable, incoming)
  {
  }

  lemma ApplyOneMore<T>(before: Entries<T>, next: Entries<T>, taken: seq<Name>, n: Name)
    ensures n in Without(next, taken) ==>
              before + Only(next, taken + [n]) == (before + Only(next, taken))[n := next[n]]
    ensures n !in Without(next, taken) ==> before + Only(next, taken + [n]) == before + Only(next, taken)
  {
    TakeOneMore(next, taken, n);
  }

  lemma RootDuringApply<T(!new)>(rules: Rules<T>, before: Entries<T>, next: Entries<T>, taken: seq<Name>)
    requires PartIsPreorder(rules) && Only(before, rules.names) == map[]
    requires forall n <- taken :: n in rules.names
    ensures Without(before + Only(next, taken), rules.names) == Without(before, rules.names)
    ensures Partial(rules, Only(before + Only(next, taken), rules.names), next)
    ensures taken == rules.names ==> Only(before + Only(next, taken), rules.names) == Only(next, rules.names)
  {
    assert forall n :: n in rules.names && n in before ==> n in Only(before, rules.names);
  }

  lemma CopyOneMore<T>(base: Entries<T>, backup: Entries<T>, taken: seq<Name>, n: Name)
    ensures n in backup ==> base + Only(backup, taken + [n]) == (base + Only(backup, taken))[n := backup[n]]
    ensures n !in backup ==> base + Only(backup, taken + [n]) == base + Only(backup, taken)
  {
  }

  lemma PartlyRestoredWhileRemoving<T(!new)>(rules: Rules<T>, before: Entries<T>, backup: Entries<T>, taken: seq<Name>,
                                             selected: seq<Name>)
    requires PartIsPreorder(rules) && forall n <- taken :: n in selected
    ensures PartlyRestored(rules, before, Without(before, taken), backup, selected)
  {
    assert Without(Without(before, taken), selected) == Without(before, selected);
  }

  lemma TornInRemoval<T(!new)>(rules: Rules<T>, before: Entries<T>, backup: Entries<T>, taken: seq<Name>,
                               selected: seq<Name>, n: Name, torn: T)
    requires PartIsPreorder(rules) && (forall m <- taken :: m in selected) && n in selected
    requires n in Without(before, taken) && rules.part(torn, before[n])
    ensures PartlyRestored(rules, before, Without(before, taken)[n := torn], backup, selected)
  {
    assert Without(Without(before, taken)[n := torn], selected) == Without(before, selected);
  }

  lemma PartlyRestoredWhileCopying<T(!new)>(rules: Rules<T>, before: Entries<T>, backup: Entries<T>, taken: seq<Name>,
                                            selected: seq<Name>)
    requires PartIsPreorder(rules) && forall n <- taken :: n in selected
    ensures PartlyRestored(rules, before, Without(before, selected) + Only(backup, taken), backup, selected)
  {
    assert Without(Without(before, selected) + Only(backup, taken), selected) == Without(before, selected);
  }

  lemma TornInCopy<T(!new)>(rules: Rules<T>, before: Entries<T>, backup: Entries<T>, taken: seq<Name>,
                            selected: seq<Name>, n: Name, torn: T)
    requires PartIsPreorder(rules) && (forall m <- taken :: m in selected) && n in selected
    requires n in backup && rules.part(torn, backup[n])
    ensures PartlyRestored(rules, before, (Without(before, selected) + Only(backup, taken))[n := torn], backup, selected)
  {
    assert Without((Without(before, selected) + Only(backup, taken))[n := torn], selected) == Without(before, selected);
  }

  lemma RestoreTouchesOnlySelected<T>(rules: Rules<T>, before: Entries<T>, after: Entries<T>, backup: Entries<T>,
                                      selected: seq<Name>)
    requires PartlyRestored(rules, before, after, backup, selected)
    requires forall n <- selected :: n in rules.names
    ensures Without(after, rules.names) == Without(before, rules.names)
  {
    forall n | n !in rules.names ensures n in after <==> n in before {
      assert n in Without(after, selected) <==> n in Without(before, selected);
    }
    forall n <- Without(after, rules.names) ensures after[n] == before[n] {
      assert Without(after, selected)[n] == Without(before, selected)[n];
    }
  }

  /** A restore of all canonical entries, torn or not, keeps the root a part of the old or of the new tree. */
  lemma RestoreAllKeepsRecoverable<T(!new)>(rules: Rules<T>, d: Disk<T>, durable: Entries<T>, incoming: Entries<T>,
                                            root: Entries<T>)
    requires PartIsPreorder(rules) && Recoverable(rules, d, durable, incoming)
    requires d.replacement.Some? && d.replacement.value.manifest == Some(BackupCreated)
    requires PartlyRestored(rules, d.root, root, d.replacement.value.backup, rules.names)
    ensures Recoverable(rules, d.(root := root), durable, incoming)
    ensures Without(root, rules.names) == Without(d.root, rules.names)
  {
    var before, after := Only(d.root, rules.names), Only(root, rules.names);
    if SelectedPartial(rules, root, durable, rules.names) {
      assert Partial(rules, after, durable);
    } else {
      forall n <- after ensures n in before && rules.part(after[n], before[n]) { assert n in root; }
      if Partial(rules, before, durable) { assert Partial(rules, after, durable); }
      else { assert Partial(rules, after, incoming); }
    }
  }

  /** A restore of the entries found in the backup keeps the others as they were. */
  lemma RestoreKeepsRecoverable<T(!new)>(rules: Rules<T>, d: Disk<T>, durable: Entries<T>, incoming: Entries<T>,
                                         root: Entries<T>)
    requires PartIsPreorder(rules) && Recoverable(rules, d, durable, incoming)
    requires d.replacement.Some? && d.replacement.value.manifest == Some(Staged)
    requires PartlyRestored(rules, d.root, root, d.replacement.value.backup, NamesIn(d.replacement.value.backup, rules.names))
    ensures Recoverable(rules, d.(root := root), durable, incoming)
    ensures Without(root, rules.names) == Without(d.root, rules.names)
  {
    var backup := d.replacement.value.backup;
    var selected := NamesIn(backup, rules.names);
    hide NamesIn;
    RestoreTouchesOnlySelected(rules, d.root, root, backup, selected);
    forall n <- durable ensures n in root || n in backup {
      if n !in backup {
        assert n in Without(d.root, selected);
        assert n in Without(root, selected);
      }
    }
    forall n <- Only(root, rules.names)
      ensures n in durable && rules.part(root[n], durable[n]) && (n in backup || root[n] == durable[n])
    {
      if n in selected {
        if SelectedPartial(rules, root, d.root, selected) { assert n in Only(d.root, rules.names); }
      } else {
        assert n in Without(root, selected) && n in Without(d.root, selected);
        assert n in Only(d.root, rules.names);
      }
    }
  }

  /** After a completed restore, what an interrupted clear leaves is recoverable. */
  lemma ClearKeepsRecoverable<T(!new)>(rules: Rules<T>, before: Disk<T>, restored: Disk<T>, after: Disk<T>,
                                       durable: Entries<T>, incoming: Entries<T>)
    requires PartIsPreorder(rules) && Recoverable(rules, before, durable, incoming)
    requires restored.replacement == before.replacement && Only(restored.root, rules.names) == durable
    requires before.replacement.Some? && after.replacement.Some? && after.root == restored.root
    requires PartlyCleared(rules, before.replacement.value, after.replacement.value)
    ensures Recoverable(rules, after, durable, incoming)
  {
    var r, s := before.replacement.value, after.replacement.value;
    forall n <- s.backup ensures n in rules.names { assert n in Only(r.backup, rules.names); }
  }

  // ---------- Whole runs ----------

  datatype Moment<T> = Moment(disk: Disk<T>, durable: Entries<T>, incoming: Entries<T>)

  datatype Event<T> = Replace(documents: Entries<T>, complete: bool, outcome: Outcome) | Recovery(outcome: Outcome)

  /** What `CanonicalStore.Recover` guarantees about one call. */
  ghost predicate RecoveryStep<T>(rules: Rules<T>, a: Moment<T>, outcome: Outcome, b: Moment<T>) {
    && Recoverable(rules, b.disk, b.durable, b.incoming)
    && Without(b.disk.root, rules.names) == Without(a.disk.root, rules.names)
    && b.durable == a.durable && b.incoming == a.incoming
    && (outcome == Refused <==> Recovered(rules, a.disk) == None)
    && (outcome == Completed ==> b.disk.replacement == None && Only(b.disk.root, rules.names) == b.durable)
  }

  /** What `CanonicalStore.Apply` guarantees about one call. */
  ghost predicate ReplacementStep<T>(rules: Rules<T>, a: Moment<T>, documents: Entries<T>, outcome: Outcome, b: Moment<T>) {
    && Recoverable(rules, b.disk, b.durable, b.incoming)
    && Without(b.disk.root, rules.names) == Without(a.disk.root, rules.names)
    && (b.durable == a.durable || b.durable == documents)
    && (b.incoming == a.incoming || b.incoming == documents)
    && (outcome == Refused ==> b.durable == a.durable)
    && (outcome == Completed ==> b.disk.replacement == None && b.durable == documents)
  }

  ghost predicate Step<T>(rules: Rules<T>, a: Moment<T>, e: Event<T>, b: Moment<T>) {
    match e
    case Replace(documents, complete, outcome) => ReplacementStep(rules, a, documents, outcome, b)
    case Recovery(outcome) => RecoveryStep(rules, a, outcome, b)
  }

  ghost predicate IsRun<T>(rules: Rules<T>, moments: seq<Moment<T>>, events: seq<Event<T>>) {
    && |moments| == |events| + 1
    && Recoverable(rules, moments[0].disk, moments[0].durable, moments[0].incoming)
    && forall i :: 0 <= i < |events| ==> Step(rules, moments[i], events[i], moments[i + 1])
  }

  /** Some replacement before moment `i` brought `documents`. */
  ghost predicate Brought<T>(events: seq<Event<T>>, i: nat, documents: Entries<T>)
    requires i <= |events|
  {
    exists k :: 0 <= k < i && events[k].Replace? && events[k].documents == documents
  }

  /** Foreign names are untouched, and what is durable was there at the start or comes from a replacement. */
  lemma {:induction false} RunKeepsForeignNames<T>(rules: Rules<T>, moments: seq<Moment<T>>, events: seq<Event<T>>, i: nat)
    requires IsRun(rules, moments, events) && i < |moments|
    ensures Recoverable(rules, moments[i].disk, moments[i].durable, moments[i].incoming)
    ensures Without(moments[i].disk.root, rules.names) == Without(moments[0].disk.root, rules.names)
    ensures moments[i].durable == moments[0].durable || Brought(events, i, moments[i].durable)
    ensures moments[i].incoming == moments[0].incoming || Brought(events, i, moments[i].incoming)
  {
    if i > 0 {
      RunKeepsForeignNames(rules, moments, events, i - 1);
      assert Step(rules, moments[i - 1], events[i - 1], moments[i]);
    }
  }

  lemma {:induction false} RecoveriesKeepDurable<T>(rules: Rules<T>, moments: seq<Moment<T>>, events: seq<Event<T>>,
                                                    first: nat, last: nat)
    requires IsRun(rules, moments, events) && first <= last < |moments|
    requires forall i :: first <= i < last ==> events[i].Recovery?
    ensures moments[last].durable == moments[first].durable
    decreases last
  {
    if first < last {
      RecoveriesKeepDurable(rules, moments, events, first, last - 1);
      assert Step(rules, moments[last - 1], events[last - 1], moments[last]);
    }
  }

  /** Crash atomicity: a replacement that ends in any way, followed by any number of recoveries that end in any way,
      leaves exactly the old or exactly the new canonical entries once a recovery completes. */
  lemma CrashAtomicity<T>(rules: Rules<T>, moments: seq<Moment<T>>, events: seq<Event<T>>, k: nat, j: nat)
    requires IsRun(rules, moments, events) && k < j < |events|
    requires events[k].Replace?
    requires forall i :: k < i <= j ==> events[i].Recovery?
    requires events[j].outcome == Completed
    ensures var old' := moments[k].durable;
            var root := Only(moments[j + 1].disk.root, rules.names);
            && (root == old' || root == events[k].documents)
            && root == moments[k + 1].durable
            && (events[k].outcome == Completed ==> root == events[k].documents)
            && (events[k].outcome == Refused ==> root == old')
    ensures moments[j + 1].disk.replacement == None
    ensures Without(moments[j + 1].disk.root, rules.names) == Without(moments[k].disk.root, rules.names)
  {
    RecoveriesKeepDurable(rules, moments, events, k + 1, j + 1);
    RunKeepsForeignNames(rules, moments, events, k);
    RunKeepsForeignNames(rules, moments, events, j + 1);
    assert Step(rules, moments[k], events[k], moments[k + 1]);
    assert Step(rules, moments[j], events[j], moments[j + 1]);
  }

  /** In a run whose sets can all be read in part, no recovery is ever refused: one that is not interrupted completes. */
  lemma RecoveryIsNeverRefused<T(!new)>(rules: Rules<T>, moments: seq<Moment<T>>, events: seq<Event<T>>, j: nat)
    requires PartIsPreorder(rules) && IsRun(rules, moments, events) && j < |events| && events[j].Recovery?
    requires PartsReadable(rules, moments[0].durable) && PartsReadable(rules, moments[0].incoming)
    requires forall i :: 0 <= i < j && events[i].Replace? ==> PartsReadable(rules, events[i].documents)
    ensures events[j].outcome != Refused
  {
    RunKeepsForeignNames(rules, moments, events, j);
    assert Step(rules, moments[j], events[j], moments[j + 1]);
    RootIsPartial(rules, moments[j].disk, moments[j].durable, moments[j].incoming);
  }

  // ---------- The order in which the replacement directory is removed ----------

  /** One step of a recursive removal; `BackupPart` leaves `left` of an entry of the backup. */
  datatype ClearItem<T> = ManifestItem | NextItem(name: Name) | BackupPart(name: Name, left: T) | BackupItem(name: Name)

  function ClearOne<T>(r: Replacement<T>, item: ClearItem<T>): Replacement<T> {
    match item
    case ManifestItem => r.(manifest := None)
    case NextItem(n) => r.(next := r.next - {n})
    case BackupPart(n, left) => r.(backup := r.backup[n := left])
    case BackupItem(n) => r.(backup := r.backup - {n})
  }

  function Cleared<T>(r: Replacement<T>, order: seq<ClearItem<T>>): Replacement<T> {
    if order == [] then r else ClearOne(Cleared(r, order[..|order| - 1]), order[|order| - 1])
  }

  /** The item is there to be removed, and removing something below an entry leaves less of it. */
  ghost predicate IsThere<T>(rules: Rules<T>, r: Replacement<T>, item: ClearItem<T>) {
    match item
    case ManifestItem => r.manifest.Some?
    case NextItem(n) => n in r.next
    case BackupPart(n, left) => n in r.backup && rules.part(left, r.backup[n]) && left != r.backup[n]
    case BackupItem(n) => n in r.backup
  }

  ghost predicate IsClearing<T>(rules: Rules<T>, r: Replacement<T>, order: seq<ClearItem<T>>) {
    forall i :: 0 <= i < |order| ==> IsThere(rules, Cleared(r, order[..i]), order[i])
  }

  /** A recovery after a crash that left `r` behind leads back to `durable`. */
  ghost predicate LeadsTo<T>(rules: Rules<T>, root: Entries<T>, r: Replacement<T>, durable: Entries<T>) {
    var after := Recovered(rules, Disk(root, Some(r)));
    after.Some? && Only(after.value.root, rules.names) == durable
  }

  /** What must not go while the manifest is there: for `backup_created` anything of the backup, for `staged` anything
      below an entry of it, since recovery copies every entry it still finds. */
  predicate Protected<T>(manifest: ManifestState, item: ClearItem<T>) {
    match manifest
    case BackupCreated => item.BackupPart? || item.BackupItem?
    case Staged => item.BackupPart?
    case Applied => false
  }

  ghost predicate ManifestGoesFirst<T>(manifest: ManifestState, order: seq<ClearItem<T>>) {
    forall i :: 0 <= i < |order| && Protected(manifest, order[i]) ==> ManifestItem in order[..i]
  }

  /** The replacement directory of a transaction whose entries recovery has just put back. */
  ghost predicate IsRestored<T>(rules: Rules<T>, root: Entries<T>, r: Replacement<T>, durable: Entries<T>) {
    && Acceptable(rules, durable) && rules.inspect(durable) != Unreadable && Only(root, rules.names) == durable
    && match r.manifest
       case Some(BackupCreated) => r.backup == durable
       case Some(Staged) => SubMap(r.backup, durable)
       case Some(Applied) => rules.inspect(durable) == ValidSet && Only(r.backup, rules.names) == r.backup
       case None => false
  }

  /** `fs.rm` chooses its own order.  The final clear survives a crash at every point if and only if that order removes
      the manifest before everything the manifest protects. */
  lemma {:induction false} ClearOrderIsSafeExactly<T>(rules: Rules<T>, root: Entries<T>, r: Replacement<T>, durable: Entries<T>,
                                                      order: seq<ClearItem<T>>)
    requires IsRestored(rules, root, r, durable) && IsClearing(rules, r, order)
    ensures (forall k :: 0 <= k <= |order| ==> LeadsTo(rules, root, Cleared(r, order[..k]), durable))
       <==> ManifestGoesFirst(r.manifest.value, order)
  {
    hide LeadsTo, ClearOne, Cleared;
    if ManifestGoesFirst(r.manifest.value, order) {
      forall k | 0 <= k <= |order| ensures LeadsTo(rules, root, Cleared(r, order[..k]), durable) {
        ProtectedStays(rules, root, r, durable, order, k);
        RestoredLeadsBack(rules, root, Cleared(r, order[..k]), durable);
      }
    } else {
      var i :| 0 <= i < |order| && Protected(r.manifest.value, order[i]) && ManifestItem !in order[..i];
      ClearedStep(r, order, i);
      ManifestStays(r, order[..i]);
      BackupShrinks(rules, r, order, i);
      assert IsThere(rules, Cleared(r, order[..i]), order[i]);
      UnsafeStep(rules, root, Cleared(r, order[..i]), order[i], durable);
    }
  }

  /** A staged transaction whose restored entry is overwritten by what a crash in the clear has left of its backup. */
  lemma TornBackupOverwrites()
    ensures var rules := Rules(["events"], (m: Entries<set<nat>>) => ValidSet, (t: set<nat>, u: set<nat>) => t <= u);
            var whole, torn := map["events" := {1, 2}], map["events" := {1}];
            && IsRestored(rules, whole, Replacement(Some(Staged), map[], whole), whole)
            && Cleared(Replacement(Some(Staged), map[], whole), [BackupPart("events", {1})])
                 == Replacement(Some(Staged), map[], torn)
            && !LeadsTo(rules, whole, Replacement(Some(Staged), map[], torn), whole)
  {
    var rules := Rules(["events"], (m: Entries<set<nat>>) => ValidSet, (t: set<nat>, u: set<nat>) => t <= u);
    var whole, torn := map["events" := {1, 2}], map["events" := {1}];
    var r := Replacement(Some(Staged), map[], whole);
    assert Only(whole, rules.names) == whole;
    assert Cleared(r, []) == r;
    assert [BackupPart("events", {1})][..0] == [];
    var left := RestoredRoot(whole, torn, NamesIn(torn, rules.names));
    assert rules.names[0] == "events" && "events" in NamesIn(torn, rules.names);
    assert left["events"] == {1} && whole["events"] == {1, 2} && 2 !in left["events"];
    assert Only(left, rules.names)["events"] == {1};
  }

  lemma ClearedStep<T>(r: Replacement<T>, order: seq<ClearItem<T>>, i: nat)
    requires i < |order|
    ensures Cleared(r, order[..i + 1]) == ClearOne(Cleared(r, order[..i]), order[i])
  {
    assert order[..i + 1][..i] == order[..i] && order[..i + 1][i] == order[i];
  }

  lemma {:induction false} ManifestStays<T>(r: Replacement<T>, order: seq<ClearItem<T>>)
    ensures ManifestItem !in order ==> Cleared(r, order).manifest == r.manifest
    ensures ManifestItem in order ==> Cleared(r, order).manifest == None
    decreases |order|
  {
    if order != [] {
      var rest := order[..|order| - 1];
      ManifestStays(r, rest);
      assert order == rest + [order[|order| - 1]];
    }
  }

  lemma {:induction false} BackupShrinks<T>(rules: Rules<T>, r: Replacement<T>, order: seq<ClearItem<T>>, k: nat)
    requires IsClearing(rules, r, order) && k <= |order|
    ensures Cleared(r, order[..k]).backup.Keys <= r.backup.Keys
    decreases k
  {
    if k > 0 {
      BackupShrinks(rules, r, order, k - 1);
      assert order[..k][..k - 1] == order[..k - 1] && order[..k][k - 1] == order[k - 1];
      assert IsThere(rules, Cleared(r, order[..k - 1]), order[k - 1]);
    }
  }

  /** Before the manifest goes, the backup is whole; afterwards the root is all that counts. */
  ghost predicate StillRestored<T>(rules: Rules<T>, root: Entries<T>, r: Replacement<T>, durable: Entries<T>) {
    && Acceptable(rules, durable) && rules.inspect(durable) != Unreadable && Only(root, rules.names) == durable
    && match r.manifest
       case Some(BackupCreated) => r.backup == durable
       case Some(Staged) => SubMap(r.backup, durable)
       case Some(Applied) => rules.inspect(durable) == ValidSet
       case None => rules.inspect(durable) == ValidSet || r.backup == map[]
  }

  lemma {:induction false} ProtectedStays<T>(rules: Rules<T>, root: Entries<T>, r: Replacement<T>, durable: Entries<T>,
                                             order: seq<ClearItem<T>>, k: nat)
    requires IsRestored(rules, root, r, durable) && IsClearing(rules, r, order) && k <= |order|
    requires ManifestGoesFirst(r.manifest.value, order)
    ensures StillRestored(rules, root, Cleared(r, order[..k]), durable)
    decreases k
  {
    if k > 0 {
      ProtectedStays(rules, root, r, durable, order, k - 1);
      assert order[..k][..k - 1] == order[..k - 1] && order[..k][k - 1] == order[k - 1];
      ManifestStays(r, order[..k - 1]);
      var before, item := Cleared(r, order[..k - 1]), order[k - 1];
      assert IsThere(rules, before, item);
      assert Protected(r.manifest.value, item) ==> before.manifest == None;
    }
  }

  lemma RestoredLeadsBack<T>(rules: Rules<T>, root: Entries<T>, r: Replacement<T>, durable: Entries<T>)
    requires StillRestored(rules, root, r, durable)
    ensures LeadsTo(rules, root, r, durable)
  {
    assert durable.Keys <= set n <- rules.names by {
      forall n <- durable ensures n in rules.names { assert n in Only(root, rules.names); }
    }
    if r.backup == map[] { NamesInEmpty<T>(rules.names); }
    if r.manifest == Some(BackupCreated) {
      assert Only(RestoredRoot(root, durable, rules.names), rules.names) == durable;
    } else if r.manifest == Some(Staged) {
      var selected := NamesIn(r.backup, rules.names);
      assert Only(RestoredRoot(root, r.backup, selected), rules.names) == durable;
    }
  }

  /** Removing something that the manifest protects: recovery would already fail, or fails now. */
  lemma UnsafeStep<T>(rules: Rules<T>, root: Entries<T>, r: Replacement<T>, item: ClearItem<T>, durable: Entries<T>)
    requires Only(root, rules.names) == durable && r.manifest.Some? && Protected(r.manifest.value, item)
    requires IsThere(rules, r, item) && item.name in durable
    ensures !LeadsTo(rules, root, r, durable) || !LeadsTo(rules, root, ClearOne(r, item), durable)
  {
    RecoveredEntry(rules, root, r, item.name, durable);
    RecoveredEntry(rules, root, ClearOne(r, item), item.name, durable);
  }

  /** Recovery of an unfinished transaction takes the entry from the backup. */
  lemma RecoveredEntry<T>(rules: Rules<T>, root: Entries<T>, r: Replacement<T>, n: Name, durable: Entries<T>)
    requires Only(root, rules.names) == durable && r.manifest in {Some(Staged), Some(BackupCreated)} && n in durable
    ensures LeadsTo(rules, root, r, durable) ==>
              if n in r.backup then r.backup[n] == durable[n] else r.manifest == Some(Staged)
  {
    assert n in rules.names by { assert n in Only(root, rules.names); }
    if LeadsTo(rules, root, r, durable) {
      var after := Recovered(rules, Disk(root, Some(r))).value;
      assert n in Only(after.root, rules.names);
    }
  }
}
