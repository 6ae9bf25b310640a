/**
  The sibling checks accept exactly the version sets whose groups are doubly linked lists, and such sets have no
  sibling cycles.
 */
module VersionGraphProofs {
  import opened Wrappers
  import opened VersionGraph

  ghost predicate FieldResolves(versions: seq<Version>, f: Field) {
    forall v <- versions :: Resolves(ById(versions), v, f)
  }

  /** Nothing is reported for sibling references, sibling pairs and sibling groups. */
  ghost predicate SiblingsAccepted(leq: (Id, Id) -> bool, versions: seq<Version>) {
    && FieldResolves(versions, PreviousField)
    && FieldResolves(versions, NextField)
    && PairsOk(versions)
    && GroupsOk(leq, versions)
  }

  // ---------- Counting ----------

  function Members(versions: seq<Version>): set<Version> {
    set v <- versions
  }

  lemma {:induction false} UniqueIdsCount(versions: seq<Version>)
    requires UniqueIds(versions)
    ensures |Members(versions)| == |versions|
    decreases |versions|
  {
    if versions == [] {
      assert Members(versions) == {};
    } else {
      var rest := versions[..|versions| - 1];
      var last := versions[|versions| - 1];
      UniqueIdsCount(rest);
      assert Members(versions) == Members(rest) + {last};
      assert last !in rest;
    }
  }

  lemma SameMembersSameLength(a: seq<Version>, b: seq<Version>)
    requires UniqueIds(a) && UniqueIds(b)
    requires forall v :: v in a <==> v in b
    ensures |a| == |b|
  {
    UniqueIdsCount(a);
    UniqueIdsCount(b);
    assert Members(a) == Members(b);
  }

  /** As many distinct members as the whole: the part is the whole. */
  lemma FullPartIsWhole(part: seq<Version>, whole: seq<Version>)
    requires UniqueIds(part) && UniqueIds(whole) && |part| == |whole|
    requires forall v <- part :: v in whole
    ensures forall v <- whole :: v in part
  {
    UniqueIdsCount(part);
    UniqueIdsCount(whole);
    if exists v <- whole :: v !in part {
      var v :| v in whole && v !in part;
      SubsetIsSmaller(Members(part), Members(whole) - {v});
    }
  }

  lemma SubsetIsSmaller<T>(a: set<T>, b: set<T>)
    requires a <= b
    ensures |a| <= |b|
  {
    assert b == a + (b - a);
  }

  lemma OneEnd(group: seq<Version>, f: Field, end: Version)
    requires UniqueIds(group)
    requires end in group && Target(end, f).None?
    requires forall v <- group :: Target(v, f).None? ==> v == end
    ensures EndsOf(group, f) == [end]
  {
    EndsAreUnique(group, f);
    var ends := EndsOf(group, f);
    assert end in ends;
    forall i | 0 <= i < |ends| ensures ends[i] == end { assert ends[i] in ends; }
    assert |ends| > 1 ==> ends[0].id != ends[1].id;
  }

  // ---------- Doubly linked groups are accepted ----------

  /** Members of an order are found under their ids. */
  lemma OrderIsFound(versions: seq<Version>, key: Key, order: seq<Version>)
    requires UniqueIds(versions) && IsSiblingList(versions, key, order)
    ensures forall i :: 0 <= i < |order| ==>
              && order[i].id in ById(versions) && ById(versions)[order[i].id] == order[i] && KeyOf(order[i]) == key
  {
    ByIdFinds(versions);
    forall i | 0 <= i < |order| ensures order[i] in versions && KeyOf(order[i]) == key { assert order[i] in order; }
  }

  lemma OrderPairsOk(versions: seq<Version>, order: seq<Version>, v: Version)
    requires UniqueIds(versions) && v in versions && IsSiblingList(versions, KeyOf(v), order)
    ensures forall f: Field :: f != ParentField ==> Resolves(ById(versions), v, f) && PairOk(ById(versions), v, f)
  {
    OrderIsFound(versions, KeyOf(v), order);
    assert v in order;
    var i :| 0 <= i < |order| && order[i] == v;
    forall f: Field | f != ParentField ensures Resolves(ById(versions), v, f) && PairOk(ById(versions), v, f) {
      if f == NextField {
        if i + 1 < |order| { assert order[i + 1].previousId == Some(order[i].id); }
      } else {
        if i > 0 { assert order[i - 1].nextId == Some(order[i].id); }
      }
    }
  }

  lemma {:induction false} WalkFollowsOrder(byId: map<Id, Version>, ids: set<Id>, order: seq<Version>, i: nat)
    requires i < |order| && UniqueIds(order)
    requires forall k :: 0 <= k < |order| ==> order[k].id in ids && order[k].id in byId && byId[order[k].id] == order[k]
    requires forall k :: 0 <= k < |order| ==> KeyOf(order[k]) == KeyOf(order[0])
    requires forall k :: 0 <= k < |order| - 1 ==> order[k].nextId == Some(order[k + 1].id)
    requires order[|order| - 1].nextId == None
    ensures GroupWalk(byId, ids, order[i], IdsOf(order[..i])) == IdsOf(order)
    decreases |order| - i
  {
    assert order[i].id !in IdsOf(order[..i]);
    if i == |order| - 1 {
      assert IdsOf(order[..i]) + [order[i].id] == IdsOf(order);
    } else {
      assert Successor(byId, ids, order[i]) == Some(order[i + 1]);
      assert IdsOf(order[..i]) + [order[i].id] == IdsOf(order[..i + 1]);
      WalkFollowsOrder(byId, ids, order, i + 1);
    }
  }

  lemma OrderHasOneHeadAndTail(versions: seq<Version>, key: Key, order: seq<Version>)
    requires UniqueIds(versions) && IsSiblingList(versions, key, order)
    ensures EndsOf(GroupOf(versions, key), PreviousField) == [order[0]]
    ensures EndsOf(GroupOf(versions, key), NextField) == [order[|order| - 1]]
  {
    var group := GroupOf(versions, key);
    GroupHasUniqueIds(versions, key);
    assert order[0] in order && order[|order| - 1] in order;
    forall v <- group ensures v.previousId.None? ==> v == order[0] {
      assert v in order;
      var i :| 0 <= i < |order| && order[i] == v;
      assert i > 0 ==> order[i].previousId == Some(order[i - 1].id);
    }
    forall v <- group ensures v.nextId.None? ==> v == order[|order| - 1] {
      assert v in order;
      var i :| 0 <= i < |order| && order[i] == v;
      assert i < |order| - 1 ==> order[i].nextId == Some(order[i + 1].id);
    }
    OneEnd(group, PreviousField, order[0]);
    OneEnd(group, NextField, order[|order| - 1]);
  }

  lemma OrderIsWalked(versions: seq<Version>, key: Key, order: seq<Version>)
    requires UniqueIds(versions) && IsSiblingList(versions, key, order)
    ensures order[0].id in GroupIds(GroupOf(versions, key))
    ensures GroupWalk(ById(versions), GroupIds(GroupOf(versions, key)), order[0], []) == IdsOf(order)
    ensures |order| == |GroupOf(versions, key)|
  {
    var group := GroupOf(versions, key);
    GroupHasUniqueIds(versions, key);
    OrderIsFound(versions, key, order);
    SameMembersSameLength(order, group);
    forall k | 0 <= k < |order| ensures order[k].id in GroupIds(group) { assert order[k] in group; }
    WalkFollowsOrder(ById(versions), GroupIds(group), order, 0);
    assert IdsOf(order[..0]) == [];
  }

  lemma OrderIsAccepted(leq: (Id, Id) -> bool, versions: seq<Version>, key: Key, order: seq<Version>)
    requires UniqueIds(versions) && IsSiblingList(versions, key, order)
    ensures GroupOk(leq, versions, key)
  {
    OrderHasOneHeadAndTail(versions, key, order);
    OrderIsWalked(versions, key, order);
  }

  lemma ListsAreAccepted(leq: (Id, Id) -> bool, versions: seq<Version>)
    requires UniqueIds(versions) && FormsSiblingLists(versions)
    ensures SiblingsAccepted(leq, versions)
  {
    forall v <- versions
      ensures Resolves(ById(versions), v, PreviousField) && Resolves(ById(versions), v, NextField)
      ensures PairOk(ById(versions), v, PreviousField) && PairOk(ById(versions), v, NextField)
      ensures GroupOk(leq, versions, KeyOf(v))
    {
      var order :| IsSiblingList(versions, KeyOf(v), order);
      OrderPairsOk(versions, order, v);
      OrderIsAccepted(leq, versions, KeyOf(v), order);
    }
  }

  // ---------- Accepted groups are doubly linked ----------

  ghost predicate IsPath(byId: map<Id, Version>, ids: set<Id>, path: seq<Id>) {
    && (forall i :: 0 <= i < |path| ==> path[i] in ids && path[i] in byId)
    && (forall i :: 0 <= i < |path| - 1 ==> byId[path[i]].nextId == Some(path[i + 1]))
    && (forall i, j :: 0 <= i < j < |path| ==> path[i] != path[j])
  }

  lemma {:induction false} GroupWalkIsPath(byId: map<Id, Version>, ids: set<Id>, current: Version, visited: seq<Id>)
    requires forall id <- byId :: byId[id].id == id
    requires current.id in ids && current.id in byId && byId[current.id] == current
    requires IsPath(byId, ids, visited)
    requires visited != [] ==> byId[visited[|visited| - 1]].nextId == Some(current.id)
    ensures var walk := GroupWalk(byId, ids, current, visited);
            IsPath(byId, ids, walk) && visited <= walk && (visited == [] ==> walk != [] && walk[0] == current.id)
    decreases ids - (set id <- visited)
  {
    if current.id !in visited {
      var grown := visited + [current.id];
      assert (set id <- grown) == (set id <- visited) + {current.id};
      assert IsPath(byId, ids, grown);
      match Successor(byId, ids, current)
      case None =>
      case Some(w) => GroupWalkIsPath(byId, ids, w, grown);
    }
  }

  /** A path of distinct group ids that is as long as the group lists exactly the group. */
  lemma FullPathIsGroup(versions: seq<Version>, key: Key, path: seq<Id>, order: seq<Version>)
    requires UniqueIds(versions)
    requires IsPath(ById(versions), GroupIds(GroupOf(versions, key)), path)
    requires |path| == |GroupOf(versions, key)|
    requires |order| == |path| && forall i :: 0 <= i < |path| ==> order[i] == ById(versions)[path[i]]
    ensures UniqueIds(order) && forall i :: 0 <= i < |order| ==> order[i].id == path[i]
    ensures forall v :: v in order <==> v in versions && KeyOf(v) == key
  {
    var byId, group := ById(versions), GroupOf(versions, key);
    ByIdFinds(versions);
    GroupHasUniqueIds(versions, key);
    forall i | 0 <= i < |order| ensures order[i] in group && order[i].id == path[i] {
      assert path[i] in GroupIds(group);
      var v :| v in group && v.id == path[i];
      assert byId[v.id] == v;
    }
    FullPartIsWhole(order, group);
  }

  /** A full path from the only head, with pointers that agree both ways, is a sibling list. */
  lemma PathIsSiblingList(versions: seq<Version>, key: Key, path: seq<Id>, order: seq<Version>)
    requires UniqueIds(versions) && FieldResolves(versions, NextField) && PairsOk(versions)
    requires IsPath(ById(versions), GroupIds(GroupOf(versions, key)), path) && path != []
    requires |path| == |GroupOf(versions, key)|
    requires |order| == |path| && forall i :: 0 <= i < |path| ==> order[i] == ById(versions)[path[i]]
    requires order[0].previousId == None
    ensures IsSiblingList(versions, key, order)
  {
    FullPathIsGroup(versions, key, path, order);
    forall i | 0 < i < |order| ensures order[i].previousId == Some(order[i - 1].id) {
      assert order[i - 1] in order && order[i - 1].nextId == Some(path[i]);
      assert PairOk(ById(versions), order[i - 1], NextField);
    }
    LastHasNoNext(versions, key, order);
  }

  lemma LastHasNoNext(versions: seq<Version>, key: Key, order: seq<Version>)
    requires UniqueIds(versions) && FieldResolves(versions, NextField) && PairsOk(versions)
    requires UniqueIds(order) && |order| > 0
    requires forall v :: v in order <==> v in versions && KeyOf(v) == key
    requires order[0].previousId == None
    requires forall i :: 0 < i < |order| ==> order[i].previousId == Some(order[i - 1].id)
    ensures order[|order| - 1].nextId == None
  {
    ByIdFinds(versions);
    var last := order[|order| - 1];
    assert last in order;
    NeighbourIsSibling(versions, last, NextField);
    forall w <- order ensures w.previousId != Some(last.id) {
      var j :| 0 <= j < |order| && order[j] == w;
      assert j > 0 ==> order[j - 1].id != last.id;
    }
  }

  /** A sibling pointer leads to another member of the same group, which points back. */
  lemma NeighbourIsSibling(versions: seq<Version>, v: Version, f: Field)
    requires UniqueIds(versions) && v in versions && f != ParentField
    requires FieldResolves(versions, f) && PairsOk(versions)
    ensures Target(v, f).Some? ==>
              exists w <- versions :: w.id != v.id && KeyOf(w) == KeyOf(v) && Target(w, Opposite(f)) == Some(v.id)
  {
    ByIdFinds(versions);
    assert Resolves(ById(versions), v, f) && PairOk(ById(versions), v, f);
    if Target(v, f).Some? {
      var w := ById(versions)[Target(v, f).value];
      assert w in versions && w.id != v.id && KeyOf(w) == KeyOf(v);
    }
  }

  /** A group of one has null pointers, because a sibling would be a second member. */
  lemma SingletonIsSiblingList(versions: seq<Version>, v: Version)
    requires UniqueIds(versions) && v in versions && GroupOf(versions, KeyOf(v)) == [v]
    requires FieldResolves(versions, PreviousField) && FieldResolves(versions, NextField) && PairsOk(versions)
    ensures IsSiblingList(versions, KeyOf(v), [v])
  {
    var group := GroupOf(versions, KeyOf(v));
    assert forall w :: w in [v] <==> w in group;
    NeighbourIsSibling(versions, v, PreviousField);
    NeighbourIsSibling(versions, v, NextField);
    assert forall w <- versions :: KeyOf(w) == KeyOf(v) ==> w in group;
  }

  lemma AcceptedWalk(leq: (Id, Id) -> bool, versions: seq<Version>, key: Key) returns (path: seq<Id>)
    requires UniqueIds(versions) && |GroupOf(versions, key)| > 1
    requires GroupOk(leq, versions, key)
    ensures IsPath(ById(versions), GroupIds(GroupOf(versions, key)), path)
    ensures |path| == |GroupOf(versions, key)| && path[0] in ById(versions)
    ensures ById(versions)[path[0]].previousId == None
  {
    var byId, group := ById(versions), GroupOf(versions, key);
    ByIdFinds(versions);
    var start := WalkStart(leq, group);
    assert start in EndsOf(group, PreviousField) by { assert EndsOf(group, PreviousField)[0] == start; }
    path := GroupWalk(byId, GroupIds(group), start, []);
    GroupWalkIsPath(byId, GroupIds(group), start, []);
  }

  function Named(byId: map<Id, Version>, path: seq<Id>): (order: seq<Version>)
    requires forall id <- path :: id in byId
    ensures |order| == |path| && forall i :: 0 <= i < |path| ==> order[i] == byId[path[i]]
  {
    seq(|path|, i requires 0 <= i < |path| => byId[path[i]])
  }

  lemma AcceptedLargeGroupIsSiblingList(leq: (Id, Id) -> bool, versions: seq<Version>, key: Key)
    requires UniqueIds(versions) && FieldResolves(versions, NextField) && PairsOk(versions)
    requires |GroupOf(versions, key)| > 1
    requires GroupOk(leq, versions, key)
    ensures exists order :: IsSiblingList(versions, key, order)
  {
    var path := AcceptedWalk(leq, versions, key);
    assert forall id <- path :: id in ById(versions);
    PathIsSiblingList(versions, key, path, Named(ById(versions), path));
  }

  lemma AcceptedGroupIsSiblingList(leq: (Id, Id) -> bool, versions: seq<Version>, v: Version)
    requires UniqueIds(versions) && SiblingsAccepted(leq, versions) && v in versions
    ensures exists order :: IsSiblingList(versions, KeyOf(v), order)
  {
    var group := GroupOf(versions, KeyOf(v));
    assert v in group && GroupOk(leq, versions, KeyOf(v));
    if |group| > 1 {
      AcceptedLargeGroupIsSiblingList(leq, versions, KeyOf(v));
    } else {
      assert group == [v];
      SingletonIsSiblingList(versions, v);
    }
  }

  /** With unique ids, the sibling checks report nothing if and only if every group is a doubly linked list. */
  lemma SiblingChecksAreExact(leq: (Id, Id) -> bool, versions: seq<Version>)
    requires UniqueIds(versions)
    ensures SiblingsAccepted(leq, versions) <==> FormsSiblingLists(versions)
  {
    if FormsSiblingLists(versions) {
      ListsAreAccepted(leq, versions);
    }
    if SiblingsAccepted(leq, versions) {
      forall v <- versions ensures exists order :: IsSiblingList(versions, KeyOf(v), order) {
        AcceptedGroupIsSiblingList(leq, versions, v);
      }
    }
  }

  // ---------- Sibling lists have no cycles ----------

  /** Along `next` the position in the list rises by one with every step, along `previous` it falls by one. */
  lemma {:induction false} CycleMovesAlongList(versions: seq<Version>, key: Key, order: seq<Version>, f: Field,
                                               cycle: seq<Id>, first: nat, k: nat)
    requires UniqueIds(versions) && IsSiblingList(versions, key, order) && f != ParentField
    requires IsCycle(ById(versions), f, cycle) && k < |cycle|
    requires first < |order| && order[first].id == cycle[0]
    ensures f == NextField ==> first + k < |order| && order[first + k].id == cycle[k]
    ensures f == PreviousField ==> k <= first && order[first - k].id == cycle[k]
    decreases k
  {
    if k > 0 {
      CycleMovesAlongList(versions, key, order, f, cycle, first, k - 1);
      OrderIsFound(versions, key, order);
      assert Target(ById(versions)[cycle[k - 1]], f) == Some(cycle[k]);
    }
  }

  /** Following one field around a cycle would have to return to where the list has moved on. */
  lemma ListHasNoCycle(versions: seq<Version>, key: Key, order: seq<Version>, f: Field, cycle: seq<Id>, first: nat)
    requires UniqueIds(versions) && IsSiblingList(versions, key, order) && f != ParentField
    requires first < |order| && cycle != [] && order[first].id == cycle[0]
    ensures !IsCycle(ById(versions), f, cycle)
  {
    if IsCycle(ById(versions), f, cycle) {
      CycleMovesAlongList(versions, key, order, f, cycle, first, |cycle| - 1);
    }
  }

  /** A clean sibling structure leaves nothing for the next and previous cycle checks to report. */
  lemma SiblingListsHaveNoCycles(versions: seq<Version>, f: Field)
    requires UniqueIds(versions) && FormsSiblingLists(versions) && f != ParentField
    ensures !Loops(versions, f)
  {
    ByIdFinds(versions);
    forall cycle: seq<Id> | |cycle| >= 2 && cycle[0] in ById(versions) ensures !IsCycle(ById(versions), f, cycle) {
      var v := ById(versions)[cycle[0]];
      var order :| IsSiblingList(versions, KeyOf(v), order);
      assert v in order;
      var first :| 0 <= first < |order| && order[first] == v;
      ListHasNoCycle(versions, KeyOf(v), order, f, cycle, first);
    }
  }
}
