/**
  The version-graph checks of the document validator (packages/json/src/validator.ts): references, pointer cycles and
  sibling lists.  This module holds the data, the issues and what each check reports; VersionValidator runs them.
 */
module VersionGraph {
  import opened Wrappers
  import Sorting

  type Id = string

  datatype Version = Version(id: Id, projectId: Id, parentId: Option<Id>, previousId: Option<Id>, nextId: Option<Id>)

  datatype Field = ParentField | PreviousField | NextField

  function Target(v: Version, f: Field): Option<Id> {
    match f
    case ParentField => v.parentId
    case PreviousField => v.previousId
    case NextField => v.nextId
  }

  datatype Issue =
    | SelfReference(versionId: Id, field: Field)
    | MissingReference(versionId: Id, field: Field, targetId: Id)
    | PointerCycle(versionId: Id, field: Field, cycle: seq<Id>)
    | SiblingProjectMismatch(versionId: Id, field: Field, relatedId: Id)
    | SiblingParentMismatch(versionId: Id, field: Field, relatedId: Id)
    | SiblingPointerMismatch(versionId: Id, field: Field, relatedId: Id)
    | HeadCountInvalid(representative: Id, heads: seq<Id>)
    | TailCountInvalid(representative: Id, tails: seq<Id>)
    | ChainDisconnected(representative: Id, visited: seq<Id>)

  /** `new Map(versions.map(v => [v.id, v]))`: of two versions with one id the later wins. */
  function ById(versions: seq<Version>): map<Id, Version> {
    if versions == [] then map[]
    else
      var last := versions[|versions| - 1];
      ById(versions[..|versions| - 1])[last.id := last]
  }

  ghost predicate UniqueIds(versions: seq<Version>) {
    forall i, j :: 0 <= i < j < |versions| ==> versions[i].id != versions[j].id
  }

  lemma {:induction false} ByIdFinds(versions: seq<Version>)
    requires UniqueIds(versions)
    ensures forall v <- versions :: v.id in ById(versions) && ById(versions)[v.id] == v
    ensures forall id <- ById(versions) :: ById(versions)[id] in versions && ById(versions)[id].id == id
    decreases |versions|
  {
    if versions != [] {
      var rest := versions[..|versions| - 1];
      ByIdFinds(rest);
      assert forall v <- versions :: v in rest || v == versions[|versions| - 1];
    }
  }

  // ---------- References ----------

  function ReferenceIssues(byId: map<Id, Version>, v: Version, f: Field): seq<Issue> {
    match Target(v, f)
    case None => []
    case Some(target) =>
      if target == v.id then [SelfReference(v.id, f)]
      else if target !in byId then [MissingReference(v.id, f, target)]
      else []
  }

  /** The pointer is null or names another existing version. */
  predicate Resolves(byId: map<Id, Version>, v: Version, f: Field) {
    Target(v, f).Some? ==> Target(v, f).value != v.id && Target(v, f).value in byId
  }

  // ---------- Cycles ----------

  /** A closed walk along one field: each id names a version that points to the next id. */
  ghost predicate IsCycle(byId: map<Id, Version>, f: Field, cycle: seq<Id>) {
    && |cycle| >= 2
    && cycle[0] == cycle[|cycle| - 1]
    && forall i :: 0 <= i < |cycle| - 1 ==> cycle[i] in byId && Target(byId[cycle[i]], f) == Some(cycle[i + 1])
  }

  ghost predicate HasCycle(byId: map<Id, Version>, f: Field) {
    exists cycle :: IsCycle(byId, f, cycle)
  }

  ghost predicate Loops(versions: seq<Version>, f: Field) {
    HasCycle(ById(versions), f)
  }

  /** A walk that is still on existing versions: `walk[i + 1]` is what `walk[i]` points to. */
  ghost predicate IsWalk(byId: map<Id, Version>, f: Field, walk: seq<Id>) {
    && (forall id <- walk :: id in byId)
    && forall i :: 0 <= i < |walk| - 1 ==> Target(byId[walk[i]], f) == Some(walk[i + 1])
  }

  /** The walk has nowhere to go: its last version points to nothing, or to a missing version. */
  ghost predicate IsDeadEnd(byId: map<Id, Version>, f: Field, walk: seq<Id>) {
    && IsWalk(byId, f, walk) && |walk| > 0
    && (var target := Target(byId[walk[|walk| - 1]], f); target.None? || target.value !in byId)
  }

  /** From a cycle a walk never reaches a dead end. */
  lemma {:induction false} WalkStaysOnCycle(byId: map<Id, Version>, f: Field, cycle: seq<Id>, walk: seq<Id>)
    requires IsCycle(byId, f, cycle) && IsWalk(byId, f, walk)
    requires |walk| > 0 && walk[0] == cycle[0]
    ensures walk[|walk| - 1] in cycle[..|cycle| - 1]
    decreases |walk|
  {
    if |walk| == 1 {
      assert cycle[..|cycle| - 1][0] == walk[0];
    } else {
      var rest := walk[..|walk| - 1];
      assert IsWalk(byId, f, rest);
      WalkStaysOnCycle(byId, f, cycle, rest);
      var i :| 0 <= i < |cycle| - 1 && cycle[i] == rest[|rest| - 1];
      assert walk[|walk| - 1] == cycle[i + 1];
      if i + 1 == |cycle| - 1 {
        assert cycle[..|cycle| - 1][0] == walk[|walk| - 1];
      } else {
        assert cycle[..|cycle| - 1][i + 1] == walk[|walk| - 1];
      }
    }
  }

  lemma WalkGoesOn(byId: map<Id, Version>, f: Field, cycle: seq<Id>, walk: seq<Id>)
    requires IsCycle(byId, f, cycle) && IsWalk(byId, f, walk)
    requires |walk| > 0 && walk[0] == cycle[0]
    ensures var target := Target(byId[walk[|walk| - 1]], f); target.Some? && target.value in byId
  {
    WalkStaysOnCycle(byId, f, cycle, walk);
    var i :| 0 <= i < |cycle| - 1 && cycle[i] == walk[|walk| - 1];
    assert cycle[i + 1] in byId by {
      if i + 1 == |cycle| - 1 { assert cycle[0] in byId; }
    }
  }

  lemma CycleHasNoDeadEnd(byId: map<Id, Version>, f: Field, cycle: seq<Id>, walk: seq<Id>)
    requires IsCycle(byId, f, cycle) && |walk| > 0 && walk[0] == cycle[0]
    ensures !IsDeadEnd(byId, f, walk)
  {
    if IsWalk(byId, f, walk) {
      WalkGoesOn(byId, f, cycle, walk);
    }
  }

  function Joined(ids: seq<Id>): string {
    if ids == [] then "" else if |ids| == 1 then ids[0] else ids[0] + "->" + Joined(ids[1..])
  }

  /** Lists of ids without an angle bracket are told apart by their text. */
  lemma {:induction false} JoinedIsInjective(a: seq<Id>, b: seq<Id>)
    requires a != [] && b != [] && Joined(a) == Joined(b)
    requires forall id :: id in a || id in b ==> '>' !in id
    ensures a == b
    decreases |a|
  {
    if |a| > 1 { FirstBracket(a); }
    if |b| > 1 { FirstBracket(b); }
    if |a| == 1 || |b| == 1 {
      assert |a| == 1 ==> '>' !in Joined(a);
      assert |b| == 1 ==> '>' !in Joined(b);
      assert |a| == 1 && |b| == 1;
    } else {
      var n, m := |a[0]|, |b[0]|;
      assert n == m;
      assert a[0] == Joined(a)[..n] && b[0] == Joined(b)[..m];
      assert Joined(a[1..]) == Joined(a)[n + 2..] && Joined(b[1..]) == Joined(b)[m + 2..];
      JoinedIsInjective(a[1..], b[1..]);
      assert a == [a[0]] + a[1..] && b == [b[0]] + b[1..];
    }
  }

  /** The first bracket is the one after the first id. */
  lemma FirstBracket(ids: seq<Id>)
    requires |ids| > 1 && '>' !in ids[0]
    ensures var n := |ids[0]|;
            |Joined(ids)| >= n + 2 && Joined(ids)[n + 1] == '>' && (forall i :: 0 <= i <= n ==> Joined(ids)[i] != '>')
  {
    assert Joined(ids) == ids[0] + "->" + Joined(ids[1..]);
    forall i | 0 <= i < |ids[0]| ensures Joined(ids)[i] != '>' { assert Joined(ids)[i] == ids[0][i] && ids[0][i] in ids[0]; }
  }

  ghost predicate Distinct<T>(s: seq<T>) {
    forall i, j :: 0 <= i < j < |s| ==> s[i] != s[j]
  }

  lemma TailIsCycle(byId: map<Id, Version>, f: Field, walk: seq<Id>, first: nat)
    requires IsWalk(byId, f, walk) && first < |walk| - 1 && walk[first] == walk[|walk| - 1]
    ensures IsCycle(byId, f, walk[first..])
  {
    var cycle := walk[first..];
    forall i | 0 <= i < |cycle| - 1 ensures cycle[i] in byId && Target(byId[cycle[i]], f) == Some(cycle[i + 1]) {
      assert cycle[i] == walk[first + i] && walk[first + i] in walk;
    }
  }

  // ---------- Where a walk first comes round ----------

  /** The walk ends at the first version that it meets twice, and the cycle is its part from there on. */
  ghost predicate ComesRound(byId: map<Id, Version>, f: Field, walk: seq<Id>, k: nat, cycle: seq<Id>) {
    && IsWalk(byId, f, walk) && k < |walk| - 1 && Distinct(walk[..|walk| - 1])
    && walk[k] == walk[|walk| - 1] && cycle == walk[k..]
  }

  /** Following the pointer from `start`, the first cycle entered is this one, from its first version on. */
  ghost predicate Enters(byId: map<Id, Version>, f: Field, start: Id, cycle: seq<Id>) {
    exists walk, k: nat :: walk != [] && walk[0] == start && ComesRound(byId, f, walk, k, cycle)
  }

  lemma WalkComesRound(byId: map<Id, Version>, f: Field, visited: seq<Id>, id: Id, k: nat)
    requires IsWalk(byId, f, visited + [id]) && Distinct(visited) && k < |visited| && visited[k] == id
    ensures Enters(byId, f, visited[0], (visited + [id])[k..])
  {
    var walk := visited + [id];
    assert walk[..|walk| - 1] == visited;
    assert ComesRound(byId, f, walk, k, walk[k..]);
  }

  lemma {:induction false} WalksAgree(byId: map<Id, Version>, f: Field, a: seq<Id>, b: seq<Id>)
    requires IsWalk(byId, f, a) && IsWalk(byId, f, b) && a != [] && |a| <= |b| && a[0] == b[0]
    ensures a == b[..|a|] && forall i :: 0 <= i < |a| ==> a[i] == b[i]
    decreases |a|
  {
    if |a| > 1 {
      var shorter := a[..|a| - 1];
      WalksAgree(byId, f, shorter, b);
      assert a[|a| - 2] == shorter[|a| - 2] == b[|a| - 2];
      assert Target(byId[a[|a| - 2]], f) == Some(a[|a| - 2 + 1]) && Target(byId[b[|a| - 2]], f) == Some(b[|a| - 2 + 1]);
      assert a == shorter + [a[|a| - 1]] && b[..|a|] == b[..|a| - 1] + [b[|a| - 1]];
    }
  }

  lemma EntersOnce(byId: map<Id, Version>, f: Field, start: Id, cycle: seq<Id>, other: seq<Id>)
    requires Enters(byId, f, start, cycle) && Enters(byId, f, start, other)
    ensures cycle == other
  {
    var a, i: nat :| a != [] && a[0] == start && ComesRound(byId, f, a, i, cycle);
    var b, j: nat :| b != [] && b[0] == start && ComesRound(byId, f, b, j, other);
    if |a| <= |b| { RoundsAgree(byId, f, a, i, cycle, b, j, other); } else { RoundsAgree(byId, f, b, j, other, a, i, cycle); }
  }

  lemma DistinctAt(walk: seq<Id>, i: nat, j: nat)
    requires i < j < |walk| - 1 && Distinct(walk[..|walk| - 1])
    ensures walk[i] != walk[j]
  {
    assert walk[..|walk| - 1][i] == walk[i] && walk[..|walk| - 1][j] == walk[j];
  }

  lemma RoundsAgree(byId: map<Id, Version>, f: Field, a: seq<Id>, i: nat, cycle: seq<Id>, b: seq<Id>, j: nat, other: seq<Id>)
    requires a != [] && b != [] && a[0] == b[0] && |a| <= |b|
    requires ComesRound(byId, f, a, i, cycle) && ComesRound(byId, f, b, j, other)
    ensures cycle == other
  {
    WalksAgree(byId, f, a, b);
    if |a| < |b| {
      DistinctAt(b, i, |a| - 1);
    } else {
      assert a == b;
      if i < j { DistinctAt(a, i, j); } else if j < i { DistinctAt(a, j, i); }
    }
  }

  lemma WalkGoesPast(byId: map<Id, Version>, f: Field, walk: seq<Id>, n: nat)
    requires IsWalk(byId, f, walk) && 0 < n < |walk|
    ensures Target(byId[walk[n - 1]], f) == Some(walk[n]) && walk[n] in byId
  {
    assert walk[n - 1 + 1] in walk;
  }

  lemma TailIsDeadEnd(byId: map<Id, Version>, f: Field, walk: seq<Id>, k: nat)
    requires IsDeadEnd(byId, f, walk) && k < |walk|
    ensures IsDeadEnd(byId, f, walk[k..]) && walk[k..][0] == walk[k]
  {
    var rest := walk[k..];
    forall id <- rest ensures id in byId { assert id in walk; }
    forall i | 0 <= i < |rest| - 1 ensures Target(byId[rest[i]], f) == Some(rest[i + 1]) {
      assert rest[i] == walk[k + i] && rest[i + 1] == walk[k + i + 1];
    }
  }

  lemma DeadEndEntersNothing(byId: map<Id, Version>, f: Field, walk: seq<Id>)
    requires IsDeadEnd(byId, f, walk)
    ensures forall cycle :: !Enters(byId, f, walk[0], cycle)
  {
    forall cycle | Enters(byId, f, walk[0], cycle) ensures false {
      var a, k: nat :| a != [] && a[0] == walk[0] && ComesRound(byId, f, a, k, cycle);
      if |a| > |walk| {
        WalksAgree(byId, f, walk, a);
        WalkGoesPast(byId, f, a, |walk|);
      } else {
        WalksAgree(byId, f, a, walk);
        TailIsCycle(byId, f, a, k);
        TailIsDeadEnd(byId, f, walk, k);
        CycleHasNoDeadEnd(byId, f, cycle, walk[k..]);
      }
    }
  }

  // ---------- Sibling pairs ----------

  function Resolve(byId: map<Id, Version>, target: Option<Id>): Option<Version> {
    if target.Some? && target.value in byId then Some(byId[target.value]) else None
  }

  function Opposite(f: Field): Field {
    if f == PreviousField then NextField else PreviousField
  }

  /** Issues of one version against the sibling that `f` points to. */
  function PairIssues(byId: map<Id, Version>, v: Version, f: Field): seq<Issue> {
    match Resolve(byId, Target(v, f))
    case None => []
    case Some(w) =>
      (if w.projectId != v.projectId then [SiblingProjectMismatch(v.id, f, w.id)] else [])
      + (if w.parentId != v.parentId then [SiblingParentMismatch(v.id, f, w.id)] else [])
      + (if Target(w, Opposite(f)) != Some(v.id) then [SiblingPointerMismatch(v.id, f, w.id)] else [])
  }

  predicate PairOk(byId: map<Id, Version>, v: Version, f: Field) {
    var w := Resolve(byId, Target(v, f));
    w.Some? ==>
      w.value.projectId == v.projectId && w.value.parentId == v.parentId && Target(w.value, Opposite(f)) == Some(v.id)
  }

  // ---------- Sibling groups ----------

  datatype Key = Key(projectId: Id, parentId: Option<Id>)

  function KeyOf(v: Version): Key {
    Key(v.projectId, v.parentId)
  }

  function GroupOf(versions: seq<Version>, key: Key): (group: seq<Version>)
    ensures forall v :: v in group <==> v in versions && KeyOf(v) == key
  {
    if versions == [] then []
    else
      var rest := GroupOf(versions[..|versions| - 1], key);
      var last := versions[|versions| - 1];
      assert forall v :: v in versions <==> v in versions[..|versions| - 1] || v == last;
      if KeyOf(last) == key then rest + [last] else rest
  }

  lemma {:induction false} GroupHasUniqueIds(versions: seq<Version>, key: Key)
    requires UniqueIds(versions)
    ensures UniqueIds(GroupOf(versions, key))
    decreases |versions|
  {
    if versions != [] {
      var rest := versions[..|versions| - 1];
      GroupHasUniqueIds(rest, key);
      forall i | 0 <= i < |GroupOf(rest, key)| ensures GroupOf(rest, key)[i].id != versions[|versions| - 1].id {
        assert GroupOf(rest, key)[i] in rest;
      }
    }
  }

  function EndsOf(group: seq<Version>, f: Field): (ends: seq<Version>)
    ensures forall v :: v in ends <==> v in group && Target(v, f).None?
  {
    if group == [] then []
    else
      var rest := EndsOf(group[..|group| - 1], f);
      var last := group[|group| - 1];
      assert forall v :: v in group <==> v in group[..|group| - 1] || v == last;
      if Target(last, f).None? then rest + [last] else rest
  }

  /** With unique ids there is one end exactly when one version and no other has none to point to. */
  lemma {:induction false} EndsAreUnique(group: seq<Version>, f: Field)
    requires UniqueIds(group)
    ensures UniqueIds(EndsOf(group, f))
    decreases |group|
  {
    if group != [] {
      var rest := group[..|group| - 1];
      EndsAreUnique(rest, f);
      forall i | 0 <= i < |EndsOf(rest, f)| ensures EndsOf(rest, f)[i].id != group[|group| - 1].id {
        assert EndsOf(rest, f)[i] in rest;
      }
    }
  }

  function IdsOf(versions: seq<Version>): (ids: seq<Id>)
    ensures |ids| == |versions|
    ensures forall i :: 0 <= i < |ids| ==> ids[i] == versions[i].id
  {
    seq(|versions|, i requires 0 <= i < |versions| => versions[i].id)
  }

  /** The first version of the group in the order of `leq` on ids. */
  function Least(leq: (Id, Id) -> bool, group: seq<Version>): (v: Version)
    requires group != []
    ensures v in group
  {
    if |group| == 1 then group[0]
    else
      var rest := Least(leq, group[..|group| - 1]);
      if leq(rest.id, group[|group| - 1].id) then rest else group[|group| - 1]
  }

  lemma {:induction false} LeastIsLeast(leq: (Id, Id) -> bool, group: seq<Version>)
    requires group != [] && Sorting.TotalOrder(leq)
    ensures forall v <- group :: leq(Least(leq, group).id, v.id)
    decreases |group|
  {
    if |group| > 1 {
      var rest, last := group[..|group| - 1], group[|group| - 1];
      LeastIsLeast(leq, rest);
      assert forall v :: v in group <==> v in rest || v == last;
    }
  }

  function GroupIds(group: seq<Version>): (ids: set<Id>)
    ensures forall v <- group :: v.id in ids
  {
    set v <- group :: v.id
  }

  /** The sibling a group walk moves on to. */
  function Successor(byId: map<Id, Version>, ids: set<Id>, v: Version): Option<Version> {
    match Resolve(byId, v.nextId)
    case None => None
    case Some(w) => if KeyOf(w) == KeyOf(v) && w.id in ids then Some(w) else None
  }

  /** The ids a group walk visits, in order. */
  function GroupWalk(byId: map<Id, Version>, ids: set<Id>, current: Version, visited: seq<Id>): seq<Id>
    requires current.id in ids
    decreases ids - (set id <- visited)
  {
    if current.id in visited then visited
    else
      match Successor(byId, ids, current)
      case None => visited + [current.id]
      case Some(w) =>
        var grown := visited + [current.id];
        assert (set id <- grown) == (set id <- visited) + {current.id};
        GroupWalk(byId, ids, w, grown)
  }

  function WalkStart(leq: (Id, Id) -> bool, group: seq<Version>): (v: Version)
    requires group != []
    ensures v in group
  {
    var heads := EndsOf(group, PreviousField);
    if |heads| == 1 then assert heads[0] in heads; heads[0] else Least(leq, group)
  }

  function GroupIssues(leq: (Id, Id) -> bool, byId: map<Id, Version>, group: seq<Version>): seq<Issue> {
    if |group| <= 1 then []
    else
      var representative := Least(leq, group).id;
      var heads := EndsOf(group, PreviousField);
      var tails := EndsOf(group, NextField);
      var start := WalkStart(leq, group);
      var visited := GroupWalk(byId, GroupIds(group), start, []);
      (if |heads| != 1 then [HeadCountInvalid(representative, IdsOf(heads))] else [])
      + (if |tails| != 1 then [TailCountInvalid(representative, IdsOf(tails))] else [])
      + (if |visited| != |group| then [ChainDisconnected(representative, visited)] else [])
  }

  // ---------- What the checks are for ----------

  /** `order` lists the group once, its pointers agree both ways, and only its ends point to nothing. */
  ghost predicate IsSiblingList(versions: seq<Version>, key: Key, order: seq<Version>) {
    && (forall v :: v in order <==> v in versions && KeyOf(v) == key)
    && UniqueIds(order)
    && |order| > 0
    && order[0].previousId == None && order[|order| - 1].nextId == None
    && (forall i :: 0 <= i < |order| - 1 ==> order[i].nextId == Some(order[i + 1].id))
    && (forall i :: 0 < i < |order| ==> order[i].previousId == Some(order[i - 1].id))
  }

  ghost predicate FormsSiblingLists(versions: seq<Version>) {
    forall v <- versions :: exists order :: IsSiblingList(versions, KeyOf(v), order)
  }

  ghost predicate PairsOk(versions: seq<Version>) {
    forall v <- versions :: PairOk(ById(versions), v, PreviousField) && PairOk(ById(versions), v, NextField)
  }

  ghost predicate GroupOk(leq: (Id, Id) -> bool, versions: seq<Version>, key: Key) {
    GroupIssues(leq, ById(versions), GroupOf(versions, key)) == []
  }

  ghost predicate GroupsOk(leq: (Id, Id) -> bool, versions: seq<Version>) {
    forall v {:trigger GroupOk(leq, versions, KeyOf(v))} :: v in versions ==> GroupOk(leq, versions, KeyOf(v))
  }
}
