/**
  The version part of the document validator, as the source runs it: one object collects `issues` while loops chase the
  parent, previous and next pointers.
 */
module VersionValidator {
  import opened Wrappers
  import opened VersionGraph
  import opened VersionGraphProofs

  // ---------- What a whole pass reports ----------

  function Concat(parts: seq<seq<Issue>>): seq<Issue> {
    if parts == [] then [] else Concat(parts[..|parts| - 1]) + parts[|parts| - 1]
  }

  lemma ConcatStep(parts: seq<seq<Issue>>, i: nat)
    requires i < |parts|
    ensures Concat(parts[..i + 1]) == Concat(parts[..i]) + parts[i]
  {
    assert parts[..i + 1][..i] == parts[..i];
  }

  lemma {:induction false} NothingToConcat(parts: seq<seq<Issue>>)
    ensures Concat(parts) == [] <==> forall i :: 0 <= i < |parts| ==> parts[i] == []
    decreases |parts|
  {
    if parts != [] {
      var rest := parts[..|parts| - 1];
      NothingToConcat(rest);
      assert (forall i :: 0 <= i < |rest| ==> rest[i] == []) <==> (forall i :: 0 <= i < |parts| - 1 ==> parts[i] == []);
    }
  }

  /** One more part appended to a report. */
  lemma Append(start: seq<Issue>, now: seq<Issue>, parts: seq<seq<Issue>>, i: nat)
    requires i < |parts| && now == start + Concat(parts[..i])
    ensures now + parts[i] == start + Concat(parts[..i + 1])
  {
    ConcatStep(parts, i);
  }

  lemma {:induction false} ConcatJoins(a: seq<seq<Issue>>, b: seq<seq<Issue>>)
    ensures Concat(a + b) == Concat(a) + Concat(b)
    decreases |b|
  {
    if b == [] {
      assert a + b == a;
    } else {
      var rest := b[..|b| - 1];
      assert (a + b)[..|a + b| - 1] == a + rest;
      ConcatJoins(a, rest);
    }
  }

  function VersionReferenceIssues(byId: map<Id, Version>, v: Version): seq<Issue> {
    ReferenceIssues(byId, v, ParentField) + ReferenceIssues(byId, v, PreviousField) + ReferenceIssues(byId, v, NextField)
  }

  function VersionPairIssues(byId: map<Id, Version>, v: Version): seq<Issue> {
    PairIssues(byId, v, PreviousField) + PairIssues(byId, v, NextField)
  }

  /** What each version's references report, version by version. */
  function ReferencePass(byId: map<Id, Version>, versions: seq<Version>): (parts: seq<seq<Issue>>)
    ensures |parts| == |versions|
  {
    seq(|versions|, i requires 0 <= i < |versions| => VersionReferenceIssues(byId, versions[i]))
  }

  /** What each version reports against its two neighbours. */
  function PairPass(byId: map<Id, Version>, versions: seq<Version>): (parts: seq<seq<Issue>>)
    ensures |parts| == |versions|
  {
    seq(|versions|, i requires 0 <= i < |versions| => VersionPairIssues(byId, versions[i]))
  }

  /** What each group of siblings reports. */
  function GroupPass(leq: (Id, Id) -> bool, versions: seq<Version>, keys: seq<Key>): (parts: seq<seq<Issue>>)
    ensures |parts| == |keys|
  {
    seq(|keys|, i requires 0 <= i < |keys| => GroupIssues(leq, ById(versions), GroupOf(versions, keys[i])))
  }

  lemma DistinctJoins<T>(a: seq<T>, b: seq<T>)
    requires Distinct(a) && Distinct(b) && forall x <- b :: x !in a
    ensures Distinct(a + b)
  {
    forall i, j | 0 <= i < j < |a + b| ensures (a + b)[i] != (a + b)[j] {
      if i < |a| <= j { assert b[j - |a|] in b; }
    }
  }

  /** Every group of versions is listed once. */
  ghost predicate ListsGroupsOnce(versions: seq<Version>, keys: seq<Key>) {
    && Distinct(keys)
    && (forall v <- versions :: KeyOf(v) in keys)
    && (forall key <- keys :: exists v <- versions :: KeyOf(v) == key)
  }

  lemma NoReferenceIssues(versions: seq<Version>)
    ensures Concat(ReferencePass(ById(versions), versions)) == []
       <==> (forall f: Field :: FieldResolves(versions, f))
  {
    var byId := ById(versions);
    NothingToConcat(ReferencePass(byId, versions));
    assert forall v: Version, f: Field :: ReferenceIssues(byId, v, f) == [] <==> Resolves(byId, v, f);
    if Concat(ReferencePass(byId, versions)) == [] {
      forall f: Field, v <- versions ensures Resolves(byId, v, f) {
        var i :| 0 <= i < |versions| && versions[i] == v;
        assert ReferencePass(byId, versions)[i] == [];
      }
    } else {
      var i :| 0 <= i < |versions| && ReferencePass(byId, versions)[i] != [];
      assert FieldResolves(versions, ParentField) && FieldResolves(versions, PreviousField) ==>
               !FieldResolves(versions, NextField);
    }
  }

  lemma NoPairIssues(versions: seq<Version>)
    ensures Concat(PairPass(ById(versions), versions)) == [] <==> PairsOk(versions)
  {
    var byId := ById(versions);
    NothingToConcat(PairPass(byId, versions));
    forall v: Version, f: Field ensures PairIssues(byId, v, f) == [] <==> PairOk(byId, v, f) {}
    if Concat(PairPass(byId, versions)) == [] {
      forall v <- versions ensures PairOk(byId, v, PreviousField) && PairOk(byId, v, NextField) {
        var i :| 0 <= i < |versions| && versions[i] == v;
        assert PairPass(byId, versions)[i] == [];
      }
    }
  }

  lemma NoGroupIssues(leq: (Id, Id) -> bool, versions: seq<Version>, keys: seq<Key>)
    requires ListsGroupsOnce(versions, keys)
    ensures Concat(GroupPass(leq, versions, keys)) == [] <==> GroupsOk(leq, versions)
  {
    hide GroupIssues, GroupOf, Concat;
    var parts := GroupPass(leq, versions, keys);
    NothingToConcat(parts);
    forall i | 0 <= i < |keys| ensures parts[i] == [] <==> GroupOk(leq, versions, keys[i]) {}
    if GroupsOk(leq, versions) {
      forall i | 0 <= i < |keys| ensures parts[i] == [] {
        assert keys[i] in keys;
        var v :| v in versions && KeyOf(v) == keys[i];
        assert GroupOk(leq, versions, KeyOf(v));
      }
    } else {
      var v :| v in versions && !GroupOk(leq, versions, KeyOf(v));
      var i :| 0 <= i < |keys| && keys[i] == KeyOf(v);
      assert parts[i] != [];
    }
  }

  /** The issues a cycle check adds: each a closed walk of bounded length, and a real one when ids are unique. */
  ghost predicate AreCycleIssues(versions: seq<Version>, f: Field, found: seq<Issue>) {
    forall issue <- found ::
      && issue.PointerCycle? && issue.field == f && |issue.cycle| <= |versions| + 1
      && (UniqueIds(versions) ==> IsCycle(ById(versions), f, issue.cycle))
  }

  /** The text by which the check knows a cycle again. */
  function CycleText(cycle: seq<Id>): string {
    if cycle == [] then "" else Joined(cycle[..|cycle| - 1])
  }

  /** Each report is of the cycle that the reported version is the first to run into, and no two have one text. */
  ghost predicate AreFirstReports(versions: seq<Version>, f: Field, found: seq<Issue>) {
    && (forall issue <- found ::
          && issue.PointerCycle? && (exists v <- versions :: v.id == issue.versionId)
          && Enters(ById(versions), f, issue.versionId, issue.cycle))
    && forall i, j :: 0 <= i < j < |found| && found[i].PointerCycle? && found[j].PointerCycle? ==>
         CycleText(found[i].cycle) != CycleText(found[j].cycle)
  }

  /** The cycle that this version runs into, if any, is reported, or another one of the same text. */
  ghost predicate IsReported(versions: seq<Version>, f: Field, found: seq<Issue>, v: Version) {
    forall cycle :: Enters(ById(versions), f, v.id, cycle) ==>
      exists issue <- found :: issue.PointerCycle? && CycleText(issue.cycle) == CycleText(cycle)
  }

  ghost predicate HasDeadEnd(byId: map<Id, Version>, f: Field, start: Id) {
    exists walk :: IsDeadEnd(byId, f, walk) && walk[0] == start
  }

  lemma FoundLoops(versions: seq<Version>, f: Field, cycle: seq<Id>)
    requires IsCycle(ById(versions), f, cycle)
    ensures Loops(versions, f)
  {
  }

  lemma WalksEndExactlyWithoutCycles(versions: seq<Version>, f: Field)
    requires UniqueIds(versions)
    requires forall v <- versions :: HasDeadEnd(ById(versions), f, v.id)
    ensures !Loops(versions, f)
  {
    ByIdFinds(versions);
    forall cycle | IsCycle(ById(versions), f, cycle) ensures false {
      var v := ById(versions)[cycle[0]];
      assert v in versions;
      var walk :| IsDeadEnd(ById(versions), f, walk) && walk[0] == v.id;
      CycleHasNoDeadEnd(ById(versions), f, cycle, walk);
    }
  }

  // ---------- Grouping ----------

  /** Projects and parents are listed once, and the groups are filed under exactly the listed keys. */
  ghost predicate Filed(projects: seq<Id>, parents: map<Id, seq<Option<Id>>>, groups: map<Key, seq<Version>>) {
    && Distinct(projects)
    && (forall p :: p in projects <==> p in parents)
    && (forall p <- parents :: Distinct(parents[p]))
    && (forall key :: key in groups <==> key.projectId in parents && key.parentId in parents[key.projectId])
  }

  ghost predicate HoldsGroups(groups: map<Key, seq<Version>>, versions: seq<Version>) {
    && (forall key <- groups :: groups[key] == GroupOf(versions, key) && groups[key] != [])
    && (forall v <- versions :: KeyOf(v) in groups)
  }

  lemma NothingFiled()
    ensures Filed([], map[], map[]) && HoldsGroups(map[], [])
  {
  }

  lemma FiledUnder(projects: seq<Id>, parents: map<Id, seq<Option<Id>>>, groups: map<Key, seq<Version>>, key: Key,
                   group: seq<Version>)
    requires Filed(projects, parents, groups)
    ensures key in groups <==> key.projectId in parents && key.parentId in parents[key.projectId]
    ensures key in groups ==> Filed(projects, parents, groups[key := group])
  {
  }

  lemma FileProject(projects: seq<Id>, parents: map<Id, seq<Option<Id>>>, groups: map<Key, seq<Version>>, project: Id)
    requires Filed(projects, parents, groups) && project !in parents
    ensures Filed(projects + [project], parents[project := []], groups)
  {
  }

  lemma FileParent(projects: seq<Id>, parents: map<Id, seq<Option<Id>>>, groups: map<Key, seq<Version>>, key: Key,
                   group: seq<Version>)
    requires Filed(projects, parents, groups)
    requires key.projectId in parents && key.parentId !in parents[key.projectId]
    ensures Filed(projects, parents[key.projectId := parents[key.projectId] + [key.parentId]], groups[key := group])
  {
  }

  lemma GroupGrows(versions: seq<Version>, i: nat, key: Key)
    requires i < |versions|
    ensures GroupOf(versions[..i + 1], key)
         == if KeyOf(versions[i]) == key then GroupOf(versions[..i], key) + [versions[i]] else GroupOf(versions[..i], key)
  {
    var longer := versions[..i + 1];
    assert longer[..i] == versions[..i] && longer[i] == versions[i];
  }

  lemma AddToGroup(groups: map<Key, seq<Version>>, versions: seq<Version>, i: nat, grown: map<Key, seq<Version>>)
    requires i < |versions| && HoldsGroups(groups, versions[..i])
    requires var key := KeyOf(versions[i]);
             grown == groups[key := if key in groups then groups[key] + [versions[i]] else [versions[i]]]
    ensures HoldsGroups(grown, versions[..i + 1])
  {
    hide GroupOf;
    var prefix, v := versions[..i], versions[i];
    assert forall w :: w in versions[..i + 1] <==> w in prefix || w == v;
    if KeyOf(v) !in groups && GroupOf(prefix, KeyOf(v)) != [] {
      assert GroupOf(prefix, KeyOf(v))[0] in prefix;
    }
    forall key <- grown ensures grown[key] == GroupOf(versions[..i + 1], key) && grown[key] != [] {
      GroupGrows(versions, i, key);
    }
  }

  // ---------- Walks are no longer than the version list ----------

  lemma {:induction false} ByIdKeepsIds(versions: seq<Version>)
    ensures forall v <- versions :: v.id in ById(versions)
    ensures forall id <- ById(versions) :: ById(versions)[id] in versions && ById(versions)[id].id == id
    ensures |ById(versions)| <= |versions|
    decreases |versions|
  {
    if versions != [] {
      var rest, last := versions[..|versions| - 1], versions[|versions| - 1];
      ByIdKeepsIds(rest);
      assert ById(versions).Keys == ById(rest).Keys + {last.id};
      assert forall v :: v in versions <==> v in rest || v == last;
    }
  }

  lemma {:induction false} DistinctIdsFit(ids: seq<Id>, all: set<Id>)
    requires forall id <- ids :: id in all
    requires forall i, j :: 0 <= i < j < |ids| ==> ids[i] != ids[j]
    ensures |ids| <= |all|
    decreases |ids|
  {
    if ids != [] {
      var rest, last := ids[..|ids| - 1], ids[|ids| - 1];
      DistinctIdsFit(rest, all - {last});
    }
  }

  lemma OneStepWalk(byId: map<Id, Version>, f: Field, start: Id)
    requires start in byId
    ensures IsWalk(byId, f, [start])
  {
  }

  lemma WalkGrows(byId: map<Id, Version>, f: Field, walk: seq<Id>, next: Id)
    requires IsWalk(byId, f, walk) && walk != [] && next in byId
    requires Target(byId[walk[|walk| - 1]], f) == Some(next)
    ensures IsWalk(byId, f, walk + [next])
  {
  }

  ghost predicate IsText(found: seq<Issue>, text: string) {
    exists issue <- found :: issue.PointerCycle? && CycleText(issue.cycle) == text
  }

  lemma NoReports(versions: seq<Version>, f: Field)
    ensures AreFirstReports(versions, f, [])
  {
  }

  lemma TextsGrow(found: seq<Issue>, issue: Issue)
    requires issue.PointerCycle?
    ensures forall text :: IsText(found + [issue], text) <==> IsText(found, text) || text == CycleText(issue.cycle)
  {
    hide CycleText;
    assert forall x :: x in found + [issue] <==> x in found || x == issue;
  }

  lemma OneMoreReport(versions: seq<Version>, f: Field, found: seq<Issue>, issue: Issue, v: Version)
    requires AreFirstReports(versions, f, found) && issue.PointerCycle? && v in versions && issue.versionId == v.id
    requires Enters(ById(versions), f, v.id, issue.cycle) && !IsText(found, CycleText(issue.cycle))
    ensures AreFirstReports(versions, f, found + [issue])
  {
    hide CycleText, Enters, ById;
    var more := found + [issue];
    forall i, j | 0 <= i < j < |more| && more[i].PointerCycle? && more[j].PointerCycle?
      ensures CycleText(more[i].cycle) != CycleText(more[j].cycle)
    {
      if j == |found| { assert more[i] in found; }
    }
  }

  lemma StaysReported(versions: seq<Version>, f: Field, found: seq<Issue>, more: seq<Issue>, v: Version)
    requires IsReported(versions, f, found, v) && found <= more
    ensures IsReported(versions, f, more, v)
  {
    hide CycleText, Enters, ById;
    assert forall issue <- found :: issue in more;
  }

  /** A version runs into one cycle at most. */
  lemma OwnCycleIsReported(versions: seq<Version>, f: Field, found: seq<Issue>, v: Version, visited: seq<Id>,
                           cycle: Option<seq<Id>>)
    requires visited != [] && visited[0] == v.id
    requires if cycle.Some? then Enters(ById(versions), f, v.id, cycle.value) && IsText(found, CycleText(cycle.value))
             else IsDeadEnd(ById(versions), f, visited)
    ensures IsReported(versions, f, found, v)
  {
    hide CycleText, Enters, ById, IsDeadEnd;
    forall other | Enters(ById(versions), f, v.id, other) ensures IsText(found, CycleText(other)) {
      if cycle.Some? { EntersOnce(ById(versions), f, v.id, cycle.value, other); }
      else { DeadEndEntersNothing(ById(versions), f, visited); }
    }
  }

  class VersionValidator {
    const leq: (Id, Id) -> bool
    const versions: seq<Version>
    const byId: map<Id, Version>
    var issues: seq<Issue>

    ghost predicate Valid() {
      byId == ById(versions)
    }

    constructor (leq: (Id, Id) -> bool, versions: seq<Version>)
      ensures Valid() && this.leq == leq && this.versions == versions && issues == []
    {
      this.leq, this.versions, this.byId, this.issues := leq, versions, ById(versions), [];
    }

    method ValidateVersionReference(v: Version, f: Field)
      modifies this`issues
      ensures issues == old(issues) + ReferenceIssues(byId, v, f)
      ensures issues == old(issues) <==> Resolves(byId, v, f)
      ensures |issues| <= |old(issues)| + 1
    {
      var target := Target(v, f);
      if target.None? { return; }
      if target.value == v.id {
        issues := issues + [SelfReference(v.id, f)];
        return;
      }
      if target.value !in byId {
        issues := issues + [MissingReference(v.id, f, target.value)];
      }
    }

    /**
      One walk of the cycle check.  `visited` holds the ids in the order they were met and `position` where each one
      stands.  From a version that its id still names, the walk ends at a real cycle or at a real dead end.
     */
    method FollowChain(start: Version, f: Field) returns (visited: seq<Id>, cycle: Option<seq<Id>>)
      requires Valid() && start in versions
      ensures start.id in byId
      ensures 0 < |visited| <= |versions| && visited[0] == start.id
      ensures cycle.Some? ==> 2 <= |cycle.value| <= |visited| + 1
      ensures byId[start.id] == start && cycle.Some? ==> IsCycle(byId, f, cycle.value)
      ensures byId[start.id] == start && cycle.None? ==> IsDeadEnd(byId, f, visited)
      ensures byId[start.id] == start && cycle.Some? ==> Enters(byId, f, start.id, cycle.value)
    {
      ByIdKeepsIds(versions);
      hide ById, IsWalk, IsCycle, Enters;
      OneStepWalk(byId, f, start.id);
      visited, cycle := [], None;
      assert visited + [start.id] == [start.id];
      var position: map<Id, nat> := map[];
      var current := start;
      while current.id !in position
        invariant current.id in byId
        invariant visited == [] ==> current == start
        invariant visited != [] ==> visited[0] == start.id && byId[current.id] == current
        invariant forall id <- visited :: id in byId
        invariant forall id :: id in position <==> id in visited
        invariant forall id <- position :: position[id] < |visited| && visited[position[id]] == id
        invariant Distinct(visited)
        invariant byId[start.id] == start ==> IsWalk(byId, f, visited + [current.id])
        decreases byId.Keys - position.Keys
      {
        ghost var seen := position.Keys;
        position := position[current.id := |visited|];
        visited := visited + [current.id];
        assert position.Keys == seen + {current.id};
        var target := Target(current, f);
        if target.None? || target.value !in byId {
          DistinctIdsFit(visited, byId.Keys);
          return;
        }
        if byId[start.id] == start { WalkGrows(byId, f, visited, target.value); }
        current := byId[target.value];
      }
      DistinctIdsFit(visited, byId.Keys);
      cycle := Some(visited[position[current.id]..] + [current.id]);
      assert cycle.value == (visited + [current.id])[position[current.id]..];
      if byId[start.id] == start {
        TailIsCycle(byId, f, visited + [current.id], position[current.id]);
        WalkComesRound(byId, f, visited, current.id, position[current.id]);
      }
    }

    /** With unique ids every version is the one its id names, so every walk ends in one of the two ways. */
    lemma WalkVerdict(start: Version, f: Field, visited: seq<Id>, cycle: Option<seq<Id>>)
      requires Valid() && UniqueIds(versions) && start in versions && start.id in byId && visited != []
      requires visited[0] == start.id
      requires byId[start.id] == start && cycle.Some? ==> IsCycle(byId, f, cycle.value)
      requires byId[start.id] == start && cycle.None? ==> IsDeadEnd(byId, f, visited)
      requires byId[start.id] == start && cycle.Some? ==> Enters(byId, f, start.id, cycle.value)
      ensures if cycle.Some? then IsCycle(ById(versions), f, cycle.value) else HasDeadEnd(ById(versions), f, start.id)
      ensures if cycle.Some? then Enters(ById(versions), f, start.id, cycle.value) else IsDeadEnd(ById(versions), f, visited)
    {
      hide IsCycle, IsDeadEnd, ById, UniqueIds, Enters;
      ByIdFinds(versions);
    }

    /** Every reported cycle is real, and nothing is reported exactly when there is no cycle to report. */
    method ValidateVersionChainCycles(f: Field) returns (ghost found: seq<Issue>)
      requires Valid()
      modifies this`issues
      ensures issues == old(issues) + found && AreCycleIssues(versions, f, found)
      ensures UniqueIds(versions) ==> (found == [] <==> !Loops(versions, f))
      ensures UniqueIds(versions) ==>
                AreFirstReports(versions, f, found) && forall v <- versions :: IsReported(versions, f, found, v)
    {
      hide IsCycle, IsDeadEnd, HasDeadEnd, ById, UniqueIds, CycleText, Enters, AreFirstReports, IsReported;
      assert AreFirstReports(versions, f, []) by { NoReports(versions, f); }
      var reported: set<string> := {};
      found := [];
      for i := 0 to |versions|
        invariant issues == old(issues) + found && (found == [] <==> reported == {})
        invariant AreCycleIssues(versions, f, found)
        invariant UniqueIds(versions) && found == [] ==> forall v <- versions[..i] :: HasDeadEnd(ById(versions), f, v.id)
        invariant UniqueIds(versions) ==> AreFirstReports(versions, f, found)
        invariant UniqueIds(versions) ==> forall j :: 0 <= j < i ==> IsReported(versions, f, found, versions[j])
        invariant forall text :: text in reported <==> IsText(found, text)
      {
        ghost var earlier := found;
        var visited, cycle := FollowChain(versions[i], f);
        if UniqueIds(versions) { WalkVerdict(versions[i], f, visited, cycle); }
        if cycle.Some? {
          if CycleText(cycle.value) !in reported {
            reported := reported + {CycleText(cycle.value)};
            var issue := PointerCycle(versions[i].id, f, cycle.value);
            TextsGrow(found, issue);
            found := found + [issue];
            issues := issues + [issue];
            if UniqueIds(versions) { OneMoreReport(versions, f, earlier, issue, versions[i]); }
          }
        }
        if UniqueIds(versions) {
          forall j | 0 <= j <= i ensures IsReported(versions, f, found, versions[j]) {
            if j < i { StaysReported(versions, f, earlier, found, versions[j]); }
            else { OwnCycleIsReported(versions, f, found, versions[i], visited, cycle); }
          }
        }
      }
      if UniqueIds(versions) {
        if found == [] {
          WalksEndExactlyWithoutCycles(versions, f);
        } else {
          assert found[0] in found;
          FoundLoops(versions, f, found[0].cycle);
        }
      }
    }

    /** One direction of a sibling pair; the source writes it out once for `previous` and once for `next`. */
    method ValidateSiblingPair(v: Version, f: Field)
      modifies this`issues
      ensures issues == old(issues) + PairIssues(byId, v, f)
    {
      var target := Target(v, f);
      if target.None? || target.value !in byId { return; }
      var w := byId[target.value];
      if w.projectId != v.projectId {
        issues := issues + [SiblingProjectMismatch(v.id, f, w.id)];
      }
      if w.parentId != v.parentId {
        issues := issues + [SiblingParentMismatch(v.id, f, w.id)];
      }
      if Target(w, Opposite(f)) != Some(v.id) {
        issues := issues + [SiblingPointerMismatch(v.id, f, w.id)];
      }
    }

    /** The groups by project and parent, with projects and parents in the order in which they first appear. */
    method GroupSiblings()
      returns (projects: seq<Id>, parents: map<Id, seq<Option<Id>>>, groups: map<Key, seq<Version>>)
      ensures Filed(projects, parents, groups) && HoldsGroups(groups, versions)
    {
      projects, parents, groups := [], map[], map[];
      NothingFiled();
      hide Filed, HoldsGroups;
      for i := 0 to |versions|
        invariant Filed(projects, parents, groups)
        invariant HoldsGroups(groups, versions[..i])
      {
        var v := versions[i];
        ghost var before := groups;
        FiledUnder(projects, parents, groups, KeyOf(v), if KeyOf(v) in groups then groups[KeyOf(v)] + [v] else [v]);
        if v.projectId !in parents {
          FileProject(projects, parents, groups, v.projectId);
          projects := projects + [v.projectId];
          parents := parents[v.projectId := []];
        }
        if v.parentId !in parents[v.projectId] {
          FileParent(projects, parents, groups, KeyOf(v), [v]);
          parents := parents[v.projectId := parents[v.projectId] + [v.parentId]];
          groups := groups[KeyOf(v) := [v]];
        } else {
          groups := groups[KeyOf(v) := groups[KeyOf(v)] + [v]];
        }
        AddToGroup(before, versions, i, groups);
      }
      assert versions[..|versions|] == versions;
    }

    /** Follows `next` inside the group until a version repeats, a pointer ends or it leaves the group. */
    method WalkGroup(ids: set<Id>, start: Version) returns (visited: seq<Id>)
      requires start.id in ids
      ensures visited == GroupWalk(byId, ids, start, [])
    {
      visited := [];
      var current := start;
      while current.id !in visited
        invariant current.id in ids
        invariant GroupWalk(byId, ids, current, visited) == GroupWalk(byId, ids, start, [])
        decreases ids - (set id <- visited)
      {
        ghost var seen := set id <- visited;
        visited := visited + [current.id];
        assert (set id <- visited) == seen + {visited[|visited| - 1]};
        if current.nextId.None? || current.nextId.value !in byId { return; }
        var next := byId[current.nextId.value];
        if next.projectId != current.projectId || next.parentId != current.parentId || next.id !in ids { return; }
        current := next;
      }
    }

    method ValidateSiblingGroup(group: seq<Version>)
      modifies this`issues
      ensures issues == old(issues) + GroupIssues(leq, byId, group)
    {
      hide GroupWalk, Least, EndsOf, WalkStart, GroupIds;
      if |group| <= 1 { return; }
      var heads := EndsOf(group, PreviousField);
      var tails := EndsOf(group, NextField);
      var representative := Least(leq, group);
      if |heads| != 1 {
        issues := issues + [HeadCountInvalid(representative.id, IdsOf(heads))];
      }
      if |tails| != 1 {
        issues := issues + [TailCountInvalid(representative.id, IdsOf(tails))];
      }
      var visited := WalkGroup(GroupIds(group), WalkStart(leq, group));
      if |visited| != |group| {
        issues := issues + [ChainDisconnected(representative.id, visited)];
      }
    }

    method ValidateVersionPairs(v: Version)
      modifies this`issues
      ensures issues == old(issues) + VersionPairIssues(byId, v)
    {
      ValidateSiblingPair(v, PreviousField);
      ValidateSiblingPair(v, NextField);
    }

    method ValidateSiblingPairs()
      modifies this`issues
      ensures issues == old(issues) + Concat(PairPass(byId, versions))
    {
      ghost var parts := PairPass(byId, versions);
      for i := 0 to |versions|
        invariant issues == old(issues) + Concat(parts[..i])
      {
        Append(old(issues), issues, parts, i);
        ValidateVersionPairs(versions[i]);
      }
      assert parts[..|versions|] == parts;
    }

    /** The groups of one project, in the order of their parents. */
    method ValidateProjectGroups(project: Id, parents: seq<Option<Id>>, groups: map<Key, seq<Version>>)
        returns (ghost keys: seq<Key>)
      requires Valid() && HoldsGroups(groups, versions) && Distinct(parents)
      requires forall parent <- parents :: Key(project, parent) in groups
      modifies this`issues
      ensures Distinct(keys) && forall key :: key in keys <==> key.projectId == project && key.parentId in parents
      ensures issues == old(issues) + Concat(GroupPass(leq, versions, keys))
    {
      hide GroupIssues, GroupOf;
      keys := [];
      for i := 0 to |parents|
        invariant |keys| == i && forall j :: 0 <= j < i ==> keys[j] == Key(project, parents[j])
        invariant issues == old(issues) + Concat(GroupPass(leq, versions, keys))
      {
        var key := Key(project, parents[i]);
        ValidateSiblingGroup(groups[key]);
        assert GroupPass(leq, versions, keys + [key])[..i] == GroupPass(leq, versions, keys);
        keys := keys + [key];
      }
      forall key ensures key in keys <==> key.projectId == project && key.parentId in parents {
        if key.projectId == project && key.parentId in parents {
          var j :| 0 <= j < |parents| && parents[j] == key.parentId;
          assert keys[j] == key;
        }
      }
    }

    lemma NothingToPass()
      ensures Concat(GroupPass(leq, versions, [])) == []
    {
    }

    lemma PassesJoin(a: seq<Key>, b: seq<Key>)
      ensures Concat(GroupPass(leq, versions, a + b)) == Concat(GroupPass(leq, versions, a)) + Concat(GroupPass(leq, versions, b))
    {
      hide GroupIssues, GroupOf, Concat;
      var left, right := GroupPass(leq, versions, a), GroupPass(leq, versions, b);
      assert GroupPass(leq, versions, a + b) == left + right;
      ConcatJoins(left, right);
    }

    method ValidateGroups(projects: seq<Id>, parents: map<Id, seq<Option<Id>>>, groups: map<Key, seq<Version>>)
        returns (ghost keys: seq<Key>)
      requires Valid() && Filed(projects, parents, groups) && HoldsGroups(groups, versions)
      modifies this`issues
      ensures Distinct(keys) && forall key :: key in keys <==> key in groups
      ensures issues == old(issues) + Concat(GroupPass(leq, versions, keys))
    {
      hide GroupIssues, GroupOf, GroupPass, Concat;
      keys := [];
      NothingToPass();
      for i := 0 to |projects|
        invariant issues == old(issues) + Concat(GroupPass(leq, versions, keys))
        invariant Distinct(keys)
        invariant forall key :: key in keys <==> key in groups && key.projectId in projects[..i]
      {
        var project := projects[i];
        assert forall parent <- parents[project] :: Key(project, parent) in groups;
        ghost var more := ValidateProjectGroups(project, parents[project], groups);
        PassesJoin(keys, more);
        assert forall key <- more :: key !in keys;
        DistinctJoins(keys, more);
        keys := keys + more;
      }
    }

    /** Pairs first, then every group once. */
    method ValidateVersionSiblingStructure() returns (ghost keys: seq<Key>)
      requires Valid()
      modifies this`issues
      ensures ListsGroupsOnce(versions, keys)
      ensures issues == old(issues) + Concat(PairPass(byId, versions)) + Concat(GroupPass(leq, versions, keys))
    {
      hide GroupPass, PairPass, Concat;
      ValidateSiblingPairs();
      var projects, parents, groups := GroupSiblings();
      keys := ValidateGroups(projects, parents, groups);
      forall key <- keys ensures exists v <- versions :: KeyOf(v) == key {
        assert groups[key][0] in GroupOf(versions, key);
      }
    }

    method ValidateReferencesOf(v: Version)
      modifies this`issues
      ensures issues == old(issues) + VersionReferenceIssues(byId, v)
    {
      ValidateVersionReference(v, ParentField);
      ValidateVersionReference(v, PreviousField);
      ValidateVersionReference(v, NextField);
    }

    method ValidateVersionReferences()
      modifies this`issues
      ensures issues == old(issues) + Concat(ReferencePass(byId, versions))
    {
      ghost var parts := ReferencePass(byId, versions);
      for i := 0 to |versions|
        invariant issues == old(issues) + Concat(parts[..i])
      {
        Append(old(issues), issues, parts, i);
        ValidateReferencesOf(versions[i]);
      }
      assert parts[..|versions|] == parts;
    }

    /** The version checks of one validation: references, the three cycle checks, then siblings. */
    method ValidateVersions() returns (ghost found: seq<Issue>)
      requires Valid()
      modifies this`issues
      ensures issues == old(issues) + found
      ensures UniqueIds(versions) ==> (found == [] <==> VersionsAreSound(versions))
    {
      hide *;
      ValidateVersionReferences();
      ghost var cycles := ValidateAllChainCycles();
      ghost var keys := ValidateVersionSiblingStructure();
      found := Concat(ReferencePass(byId, versions)) + cycles
                + Concat(PairPass(byId, versions)) + Concat(GroupPass(leq, versions, keys));
      if UniqueIds(versions) {
        ValidByIds();
        NothingFoundExactly(leq, versions, cycles, keys);
      }
    }

    lemma ValidByIds()
      requires Valid()
      ensures byId == ById(versions)
    {
    }

    method ValidateAllChainCycles() returns (ghost found: seq<Issue>)
      requires Valid()
      modifies this`issues
      ensures issues == old(issues) + found
      ensures UniqueIds(versions) ==> (found == [] <==> forall f: Field :: !Loops(versions, f))
    {
      hide AreCycleIssues, Loops;
      ghost var parents := ValidateVersionChainCycles(ParentField);
      ghost var previous := ValidateVersionChainCycles(PreviousField);
      ghost var next := ValidateVersionChainCycles(NextField);
      found := parents + previous + next;
      if UniqueIds(versions) && found == [] {
        forall f: Field ensures !Loops(versions, f) { match f case ParentField => case PreviousField => case NextField => }
      }
    }
  }

  /** Parents exist and never loop, and every group of siblings is one doubly linked list. */
  ghost predicate VersionsAreSound(versions: seq<Version>) {
    && FieldResolves(versions, ParentField)
    && !Loops(versions, ParentField)
    && FormsSiblingLists(versions)
  }

  /** All checks together accept exactly the sound version sets. */
  lemma ChecksAcceptExactly(leq: (Id, Id) -> bool, versions: seq<Version>)
    requires UniqueIds(versions)
    ensures VersionsAreSound(versions)
       <==> && (forall f: Field :: FieldResolves(versions, f)) && (forall f: Field :: !Loops(versions, f))
            && PairsOk(versions) && GroupsOk(leq, versions)
  {
    hide FieldResolves, Loops, PairsOk, GroupsOk, FormsSiblingLists;
    SiblingChecksAreExact(leq, versions);
    if VersionsAreSound(versions) {
      SiblingListsHaveNoCycles(versions, PreviousField);
      SiblingListsHaveNoCycles(versions, NextField);
      forall f: Field ensures FieldResolves(versions, f) && !Loops(versions, f) {
        match f case ParentField => case PreviousField => case NextField =>
      }
      assert PairsOk(versions) && GroupsOk(leq, versions);
    } else {
      assert (forall f: Field :: FieldResolves(versions, f)) && PairsOk(versions) && GroupsOk(leq, versions) ==>
          SiblingsAccepted(leq, versions);
    }
  }

  lemma NothingFoundExactly(leq: (Id, Id) -> bool, versions: seq<Version>, cycles: seq<Issue>, keys: seq<Key>)
    requires UniqueIds(versions) && ListsGroupsOnce(versions, keys)
    requires cycles == [] <==> forall f: Field :: !Loops(versions, f)
    ensures Concat(ReferencePass(ById(versions), versions)) + cycles
            + Concat(PairPass(ById(versions), versions)) + Concat(GroupPass(leq, versions, keys)) == []
       <==> VersionsAreSound(versions)
  {
    hide *;
    NoReferenceIssues(versions);
    NoPairIssues(versions);
    NoGroupIssues(leq, versions, keys);
    ChecksAcceptExactly(leq, versions);
  }
}
