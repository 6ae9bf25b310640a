/**
  The replacement of the canonical entries and its recovery, one file-system step at a time
  (packages/json/src/filesystem.ts).

  `case crashes => return Interrupted;` stands before every step: the process may die, or the step may throw, at that
  point.  Whatever a method promises therefore holds for every crash point, including crashes inside recovery.  `durable`
  changes in exactly one place, where the `applied` manifest is written.
 */
module CanonicalStore {
  import opened Wrappers
  import opened AuditLayout
  import opened CanonicalReplacement

  class CanonicalStore {
    const rules: Rules<Tree>
    /** Whether the process may die during the call. */
    var crashes: bool
    var root: Entries<Tree>
    var replacement: Option<Replacement<Tree>>
    ghost var durable: Entries<Tree>
    ghost var incoming: Entries<Tree>

    constructor (rules: Rules<Tree>, root: Entries<Tree>)
      requires PartIsPreorder(rules) && Acceptable(rules, Only(root, rules.names))
      ensures Valid() && this.rules == rules && this.root == root && replacement == None
      ensures durable == Only(root, rules.names) && incoming == map[]
    {
      this.rules := rules;
      this.root := root;
      this.replacement := None;
      this.durable := Only(root, rules.names);
      this.incoming := map[];
    }

    function Snapshot(): Disk<Tree>
      reads this
    {
      Disk(root, replacement)
    }

    ghost function Now(): Moment<Tree>
      reads this
    {
      Moment(Snapshot(), durable, incoming)
    }

    ghost predicate Valid()
      reads this
    {
      PartIsPreorder(rules) && Recoverable(rules, Snapshot(), durable, incoming)
    }

    /** What is left of a tree that was being copied or removed. */
    method Tear(whole: Tree) returns (torn: Tree)
      requires PartIsPreorder(rules)
      ensures rules.part(torn, whole)
    {
      assert rules.part(whole, whole);
      torn :| rules.part(torn, whole);
    }

    /** Removes the replacement directory one item at a time, in any order that drops the manifest of an unfinished
        transaction before anything of its backup. */
    method ClearReplacementDirectory() returns (outcome: Outcome)
      requires PartIsPreorder(rules)
      modifies this`replacement
      ensures outcome != Refused
      ensures outcome == Completed ==> replacement == None
      ensures outcome == Interrupted ==>
                crashes && old(replacement).Some? && replacement.Some?
                && PartlyCleared(rules, old(replacement).value, replacement.value)
    {
      if replacement == None {
        return Completed;
      }
      ghost var before := replacement.value;
      var r := replacement.value;
      while r.manifest.Some? || r.next != map[] || r.backup != map[]
        invariant replacement == Some(r)
        invariant PartlyCleared(rules, before, r)
        decreases r.manifest.Some?, r.next.Keys, r.backup.Keys
      {
        if {
          case crashes =>
            return Interrupted;
          case r.manifest.Some? =>
            r := r.(manifest := None);
          case r.next != map[] =>
            var n :| n in r.next;
            r := r.(next := r.next - {n});
          case r.backup != map[] && r.manifest !in {Some(Staged), Some(BackupCreated)} =>
            var n :| n in r.backup;
            r := r.(backup := r.backup - {n});
          case crashes && r.backup != map[] && r.manifest !in {Some(Staged), Some(BackupCreated)} =>
            var n :| n in r.backup;
            var torn := Tear(r.backup[n]);
            TornFurther(rules, before, r, n, torn);
            replacement := Some(r.(backup := r.backup[n := torn]));
            return Interrupted;
        }
        replacement := Some(r);
      }
      if {
        case crashes => return Interrupted;
        case true =>
      }
      replacement := None;
      return Completed;
    }

    method RemoveSelectedCanonicalEntriesFromJsonRoot(selected: seq<Name>) returns (outcome: Outcome)
      requires PartIsPreorder(rules) && replacement.Some?
      modifies this`root
      ensures outcome != Refused
      ensures PartlyRestored(rules, old(root), root, replacement.value.backup, selected)
      ensures outcome == Completed ==> root == Without(old(root), selected)
      ensures outcome == Interrupted ==> crashes
    {
      ghost var before := root;
      for i := 0 to |selected|
        invariant root == Without(before, selected[..i])
      {
        var n := selected[i];
        PartlyRestoredWhileRemoving(rules, before, replacement.value.backup, selected[..i], selected);
        if {
          case crashes => return Interrupted;
          case crashes && n in root =>
            var torn := Tear(root[n]);
            TornInRemoval(rules, before, replacement.value.backup, selected[..i], selected, n, torn);
            root := root[n := torn];
            return Interrupted;
          case true =>
        }
        TakeOneMore(before, selected[..i], n);
        assert selected[..i + 1] == selected[..i] + [n];
        root := root - {n};
      }
      assert selected[..|selected|] == selected;
      PartlyRestoredWhileRemoving(rules, before, replacement.value.backup, selected, selected);
      return Completed;
    }

    /** Removes the selected entries from the root and then copies them back from the backup. */
    method RestoreCanonicalEntriesFromBackup(selected: seq<Name>) returns (outcome: Outcome)
      requires PartIsPreorder(rules) && replacement.Some?
      modifies this`root
      ensures outcome != Refused
      ensures PartlyRestored(rules, old(root), root, replacement.value.backup, selected)
      ensures outcome == Completed ==> root == RestoredRoot(old(root), replacement.value.backup, selected)
      ensures outcome == Interrupted ==> crashes
    {
      hide PartIsPreorder, PartlyRestored;
      ghost var before := root;
      var backup := replacement.value.backup;
      outcome := RemoveSelectedCanonicalEntriesFromJsonRoot(selected);
      if outcome != Completed {
        return;
      }
      for i := 0 to |selected|
        invariant root == Without(before, selected) + Only(backup, selected[..i])
      {
        var n := selected[i];
        PartlyRestoredWhileCopying(rules, before, backup, selected[..i], selected);
        if {
          case crashes => return Interrupted;
          case crashes && n in backup =>
            var torn := Tear(backup[n]);
            TornInCopy(rules, before, backup, selected[..i], selected, n, torn);
            root := root[n := torn];
            return Interrupted;
          case true =>
        }
        CopyOneMore(Without(before, selected), backup, selected[..i], n);
        assert selected[..i + 1] == selected[..i] + [n];
        if n in backup {
          root := root[n := backup[n]];
        }
      }
      assert selected[..|selected|] == selected;
      PartlyRestoredWhileCopying(rules, before, backup, selected, selected);
    }

    /**
      A completed recovery is `Recovered`; an interrupted one keeps every recoverable disk recoverable; and one is
      refused only when what a crash has left cannot be read.
     */
    method Recover() returns (outcome: Outcome)
      requires PartIsPreorder(rules)
      modifies this`root, this`replacement
      ensures outcome == Completed ==> Recovered(rules, old(Snapshot())) == Some(Snapshot())
      ensures old(replacement) == None ==> outcome == Completed
      ensures outcome == Refused <==> Recovered(rules, old(Snapshot())) == None
      ensures outcome == Refused ==> Snapshot() == old(Snapshot())
      ensures outcome == Interrupted ==> crashes
      ensures old(Valid()) ==> Valid() && RecoveryStep(rules, old(Now()), outcome, Now())
    {
      if replacement == None {
        return Completed;
      }
      var r := replacement.value;
      var verdict := rules.inspect(Only(root, rules.names));
      if verdict == Verdict.Unreadable {
        return Refused;
      }
      var backupNames := NamesIn(r.backup, rules.names);
      ghost var before := Snapshot();
      if r.manifest == Some(BackupCreated) {
        outcome := RestoreCanonicalEntriesFromBackup(rules.names);
        if Recoverable(rules, before, durable, incoming) {
          RestoreAllKeepsRecoverable(rules, before, durable, incoming, root);
        }
      } else if r.manifest != Some(Staged) && verdict == ValidSet {
        outcome := Completed;
      } else if backupNames != [] {
        outcome := RestoreCanonicalEntriesFromBackup(backupNames);
        if Recoverable(rules, before, durable, incoming) {
          NamesInEmpty<Tree>(rules.names);
          assert r.manifest == Some(Staged);
          RestoreKeepsRecoverable(rules, before, durable, incoming, root);
        }
      } else {
        outcome := Completed;
      }
      if outcome == Completed {
        if Recoverable(rules, before, durable, incoming) {
          RecoveredIsDurable(rules, before, durable, incoming);
        }
        ghost var restored := Snapshot();
        outcome := ClearReplacementDirectory();
        if outcome == Interrupted && Recoverable(rules, before, durable, incoming) {
          ClearKeepsRecoverable(rules, before, restored, Snapshot(), durable, incoming);
        }
      }
    }

    /** Writes the new entries below `next`, reads them back, and checks them; `complete` is the count check. */
    method StageReplacement(documents: Entries<Tree>, complete: bool) returns (outcome: Outcome)
      requires PartIsPreorder(rules) && replacement == Some(Replacement(Some(Staged), map[], map[]))
      modifies this`replacement
      ensures replacement.Some? && replacement.value.manifest == Some(Staged) && replacement.value.backup == map[]
      ensures outcome == Completed ==> replacement.value.next == documents
      ensures outcome == Completed ==> Fits(rules, documents) && complete
      ensures outcome == Refused ==> !Fits(rules, documents) || !complete
      ensures outcome == Interrupted ==> crashes
    {
      var pending := documents;
      while pending != map[]
        invariant pending.Keys <= documents.Keys && SubMap(pending, documents)
        invariant replacement.Some? && replacement.value.manifest == Some(Staged) && replacement.value.backup == map[]
        invariant replacement.value.next == documents - pending.Keys
        decreases pending.Keys
      {
        var n :| n in pending;
        if {
          case crashes => return Interrupted;
          case crashes =>
            var torn := Tear(pending[n]);
            replacement := Some(replacement.value.(next := replacement.value.next[n := torn]));
            return Interrupted;
          case true =>
        }
        var staged := replacement.value.next[n := pending[n]];
        pending := pending - {n};
        assert staged == documents - pending.Keys;
        replacement := Some(replacement.value.(next := staged));
      }
      if !(forall n <- documents :: n in rules.names) || rules.inspect(documents) != ValidSet || !complete {
        return Refused;
      }
      return Completed;
    }

    /** One rename into the backup; a missing source is skipped. */
    method BackUpEntry(n: Name, ghost before: Entries<Tree>, ghost taken: seq<Name>)
      requires replacement.Some? && root == Without(before, taken) && replacement.value.backup == Only(before, taken)
      modifies this`root, this`replacement
      ensures replacement.Some? && replacement.value.manifest == old(replacement.value.manifest)
      ensures replacement.value.next == old(replacement.value.next)
      ensures root == Without(before, taken + [n]) && replacement.value.backup == Only(before, taken + [n])
    {
      TakeOneMore(before, taken, n);
      if n in root {
        var r := replacement.value;
        replacement := Some(r.(backup := r.backup[n := root[n]]));
        root := root - {n};
      }
    }

    method MoveExistingCanonicalEntriesToBackup() returns (outcome: Outcome)
      requires Valid() && replacement.Some?
      requires replacement.value.manifest == Some(Staged) && replacement.value.backup == map[]
      modifies this`root, this`replacement
      ensures Valid() && outcome != Refused
      ensures Without(root, rules.names) == old(Without(root, rules.names))
      ensures replacement.Some? && replacement.value.manifest == Some(Staged)
      ensures replacement.value.next == old(replacement.value.next)
      ensures outcome == Completed ==> replacement.value.backup == durable && Only(root, rules.names) == map[]
      ensures outcome == Interrupted ==> crashes
    {
      ghost var before := root;
      var names := rules.names;
      BackupPhaseStarts(rules, Snapshot(), durable, incoming);
      for i := 0 to |names|
        invariant replacement.Some? && replacement.value.manifest == Some(Staged)
        invariant replacement.value.next == old(replacement.value.next)
        invariant root == Without(before, names[..i]) && replacement.value.backup == Only(before, names[..i])
        invariant Recoverable(rules, Snapshot(), durable, incoming)
        invariant Without(root, names) == Without(before, names)
      {
        if {
          case crashes => return Interrupted;
          case true =>
        }
        BackUpEntry(names[i], before, names[..i]);
        assert names[..i + 1] == names[..i] + [names[i]];
        BackupPhaseRecoverable(rules, before, names[..i + 1], replacement.value, durable, incoming);
      }
      assert names[..|names|] == names;
      BackupPhaseRecoverable(rules, before, names, replacement.value, durable, incoming);
      return Completed;
    }

    /** One rename out of `next`; a missing source is skipped. */
    method MoveReplacementEntry(n: Name, ghost before: Entries<Tree>, ghost next: Entries<Tree>, ghost taken: seq<Name>)
      requires replacement.Some? && root == before + Only(next, taken) && replacement.value.next == Without(next, taken)
      modifies this`root, this`replacement
      ensures replacement.Some? && replacement.value.manifest == old(replacement.value.manifest)
      ensures replacement.value.backup == old(replacement.value.backup)
      ensures root == before + Only(next, taken + [n]) && replacement.value.next == Without(next, taken + [n])
    {
      ApplyOneMore(before, next, taken, n);
      TakeOneMore(next, taken, n);
      var r := replacement.value;
      if n in r.next {
        root := root[n := r.next[n]];
        replacement := Some(r.(next := r.next - {n}));
      }
    }

    method MoveReplacementEntriesIntoCanonicalRoot() returns (outcome: Outcome)
      requires Valid() && replacement.Some? && replacement.value.manifest == Some(BackupCreated)
      requires Only(root, rules.names) == map[] && replacement.value.next == incoming
      modifies this`root, this`replacement
      ensures Valid() && outcome != Refused
      ensures Without(root, rules.names) == old(Without(root, rules.names))
      ensures replacement.Some? && replacement.value.manifest == Some(BackupCreated)
      ensures outcome == Completed ==> Only(root, rules.names) == Only(incoming, rules.names)
      ensures outcome == Interrupted ==> crashes
    {
      ghost var before := root;
      ghost var next := replacement.value.next;
      var names := rules.names;
      for i := 0 to |names|
        invariant replacement.Some? && replacement.value.manifest == Some(BackupCreated)
        invariant replacement.value.backup == old(replacement.value.backup)
        invariant root == before + Only(next, names[..i]) && replacement.value.next == Without(next, names[..i])
        invariant Without(root, names) == Without(before, names)
        invariant Recoverable(rules, Snapshot(), durable, incoming)
      {
        if {
          case crashes => return Interrupted;
          case true =>
        }
        ghost var d := Snapshot();
        MoveReplacementEntry(names[i], before, next, names[..i]);
        assert names[..i + 1] == names[..i] + [names[i]];
        RootDuringApply(rules, before, next, names[..i + 1]);
        BackupAloneMatters(rules, d, Snapshot(), durable, incoming);
      }
      assert names[..|names|] == names;
      RootDuringApply(rules, before, next, names);
      return Completed;
    }

    /** Recovers what an earlier run left behind and opens a transaction with a `staged` manifest. */
    method BeginReplacement() returns (outcome: Outcome)
      requires Valid()
      modifies this`root, this`replacement
      ensures Valid()
      ensures Without(root, rules.names) == old(Without(root, rules.names))
      ensures outcome == Completed ==>
                replacement == Some(Replacement(Some(Staged), map[], map[])) && Only(root, rules.names) == durable
      ensures old(replacement) == None && replacement.Some? ==> replacement.value.manifest != Some(Applied)
      ensures outcome == Refused <==> Recovered(rules, old(Snapshot())) == None
      ensures outcome == Interrupted ==> crashes
    {
      outcome := Recover();
      if outcome != Completed {
        return;
      }
      outcome := ClearReplacementDirectory();
      if {
        case crashes => return Interrupted;
        case true =>
      }
      replacement := Some(Replacement(None, map[], map[]));
      if {
        case crashes => return Interrupted;
        case true =>
      }
      replacement := Some(Replacement(Some(Staged), map[], map[]));
      return Completed;
    }

    /** From the `backup_created` manifest to the `applied` manifest, where the new entries become durable. */
    method SwapInReplacement(documents: Entries<Tree>) returns (outcome: Outcome)
      requires Valid() && replacement.Some? && replacement.value.manifest == Some(Staged)
      requires replacement.value.next == documents && replacement.value.backup == durable
      requires Only(root, rules.names) == map[] && Fits(rules, documents)
      modifies this`root, this`replacement, this`durable, this`incoming
      ensures Valid() && replacement.Some? && outcome != Refused
      ensures Without(root, rules.names) == old(Without(root, rules.names))
      ensures incoming == documents || incoming == old(incoming)
      ensures outcome == Completed ==> durable == documents && replacement.value.manifest == Some(Applied)
      ensures outcome == Interrupted ==>
                crashes && durable == old(durable) && replacement.value.manifest != Some(Applied)
    {
      if {
        case crashes => return Interrupted;
        case true =>
      }
      replacement := Some(replacement.value.(manifest := Some(BackupCreated)));
      incoming := documents;
      outcome := MoveReplacementEntriesIntoCanonicalRoot();
      if outcome != Completed {
        return;
      }
      if {
        case crashes => return Interrupted;
        case true =>
      }
      FittingIsCanonical(rules, documents);
      replacement := Some(replacement.value.(manifest := Some(Applied)));
      durable := documents;
      return Completed;
    }

    /** Replaces the canonical entries by `documents`.  `durable` moves to `documents` exactly when the `applied`
        manifest is written, and a completed replacement has written it. */
    method Apply(documents: Entries<Tree>, complete: bool) returns (outcome: Outcome)
      requires Valid()
      modifies this`root, this`replacement, this`durable, this`incoming
      ensures Valid() && ReplacementStep(rules, old(Now()), documents, outcome, Now())
      ensures old(replacement) == None && replacement.Some? ==>
                (replacement.value.manifest == Some(Applied) ==> durable == documents)
      ensures outcome == Refused ==>
                Recovered(rules, old(Snapshot())) == None || !Fits(rules, documents) || !complete
      ensures durable != old(durable) || incoming != old(incoming) ==>
                Fits(rules, documents) && complete
      ensures outcome == Completed ==> Fits(rules, documents) && complete
      ensures outcome == Interrupted ==> crashes
      ensures Recovered(rules, old(Snapshot())) == None ==> outcome == Refused
    {
      outcome := BeginReplacement();
      if outcome != Completed {
        return;
      }
      outcome := StageReplacement(documents, complete);
      if outcome != Completed {
        return;
      }
      outcome := MoveExistingCanonicalEntriesToBackup();
      if outcome != Completed {
        return;
      }
      outcome := SwapInReplacement(documents);
      if outcome != Completed {
        return;
      }
      outcome := ClearReplacementDirectory();
    }
  }
}
