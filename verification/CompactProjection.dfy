/**
  The compact projection of tool responses (packages/mcp/src/response-detail.ts): it may leave parts out, but it has to
  say so in the shared set of omitted sections.
 */
module CompactProjection {
  import opened Wrappers
  import opened JsonValues
  import opened JsonKeys
  import opened JsonOrder

  const MAX_COMPACT_ARRAY_ITEMS := 10
  const PROTO := "__proto__"
  const EVENT_FIELDS: seq<string> := ["id", "type", "eventType", "createdAt", "occurredAt", "timestamp"]
  const ROUTE_RECORD_FIELDS: set<string> := {
    "id", "projectId", "actionType", "targetId", "status", "reason", "rejectionReason", "digest", "approvalArtifactId",
    "pendingOperationId", "authorizationId", "operationDigest", "createdAt", "updatedAt", "authorizedAt", "committedAt",
    "expiresAt", "gate", "replayed"}

  predicate Includes(s: string, part: string) {
    exists i :: 0 <= i <= |s| && part <= s[i..]
  }

  /** `includes`: the part stands somewhere in the text. */
  lemma IncludesExactly(s: string, part: string)
    ensures Includes(s, part) <==> exists before, after :: s == before + part + after
  {
    if Includes(s, part) {
      var i :| 0 <= i <= |s| && part <= s[i..];
      assert s == s[..i] + part + s[i + |part|..];
    }
    if before, after :| s == before + part + after {
      assert s[|before|..] == part + after;
    }
  }

  // ---------- Depth ----------

  function Depth(value: Json): nat
    decreases value
  {
    match value
    case Arr(items) => 1 + ItemsDepth(items)
    case Obj(fields) => 1 + FieldsDepth(fields)
    case _ => 0
  }

  function ItemsDepth(items: seq<Json>): (d: nat)
    ensures forall i :: 0 <= i < |items| ==> Depth(items[i]) <= d
    decreases items
  {
    if items == [] then 0
    else
      var first, rest := Depth(items[0]), ItemsDepth(items[1..]);
      if first > rest then first else rest
  }

  function FieldsDepth(fields: seq<Field>): (d: nat)
    ensures forall i :: 0 <= i < |fields| ==> Depth(fields[i].value) <= d
    decreases fields
  {
    if fields == [] then 0
    else
      var first, rest := Depth(fields[0].value), FieldsDepth(fields[1..]);
      if first > rest then first else rest
  }

  lemma {:induction false} FewerFieldsNoDeeper(some: seq<Field>, all: seq<Field>)
    requires forall f <- some :: f in all
    ensures FieldsDepth(some) <= FieldsDepth(all)
    decreases |some|
  {
    if some != [] {
      FewerFieldsNoDeeper(some[1..], all);
      assert some[0] in all;
      var i :| 0 <= i < |all| && all[i] == some[0];
    }
  }

  // ---------- What a projection may be ----------

  /** `part` contains nothing that `whole` does not. */
  predicate IsPart(part: Json, whole: Json)
    decreases part
  {
    match (part, whole)
    case (Arr(xs), Arr(ys)) => |xs| <= |ys| && forall i :: 0 <= i < |xs| ==> IsPart(xs[i], ys[i])
    case (Obj(fs), Obj(gs)) =>
      && Keys(fs) <= Keys(gs)
      && forall i, j :: 0 <= i < |fs| && 0 <= j < |gs| && fs[i].key == gs[j].key ==> IsPart(fs[i].value, gs[j].value)
    case _ => part == whole
  }

  /** No object below `runtimeContext`, whose projection keeps its own, incomplete account. */
  predicate NoRuntimeContext(value: Json, parentKey: string)
    decreases value
  {
    match value
    case Arr(items) => forall i :: 0 <= i < |items| ==> NoRuntimeContext(items[i], "")
    case Obj(fields) =>
      && parentKey != "runtimeContext"
      && forall i :: 0 <= i < |fields| ==> NoRuntimeContext(fields[i].value, fields[i].key)
    case _ => true
  }

  /** No object has a field called `__proto__`, which assignment would take for the prototype. */
  predicate NoProtoField(value: Json)
    decreases value
  {
    match value
    case Arr(items) => forall i :: 0 <= i < |items| ==> NoProtoField(items[i])
    case Obj(fields) => PROTO !in Keys(fields) && forall i :: 0 <= i < |fields| ==> NoProtoField(fields[i].value)
    case _ => true
  }

  lemma {:induction false} SameAsItself(a: Json)
    requires IsJsonValue(a)
    ensures SameValue(a, a) && IsPart(a, a)
    decreases a
  {
    match a
    case Arr(xs) => forall i | 0 <= i < |xs| ensures SameValue(xs[i], xs[i]) && IsPart(xs[i], xs[i]) { SameAsItself(xs[i]); }
    case Obj(fs) =>
      forall i | 0 <= i < |fs| ensures SameValue(fs[i].value, fs[i].value) && IsPart(fs[i].value, fs[i].value) {
        SameAsItself(fs[i].value);
      }
    case _ =>
  }

  /** A field list that takes every field of the whole as it is. */
  lemma SomeFieldsArePart(some: seq<Field>, all: seq<Field>)
    requires IsJsonValue(Obj(all)) && DistinctKeys(some) && forall f <- some :: f in all
    ensures IsJsonValue(Obj(some)) && IsPart(Obj(some), Obj(all))
    ensures Keys(some) == Keys(all) ==> SameValue(Obj(some), Obj(all))
  {
    forall i | 0 <= i < |some|
      ensures IsJsonValue(some[i].value)
      ensures forall j :: 0 <= j < |all| && some[i].key == all[j].key ==>
                IsPart(some[i].value, all[j].value) && SameValue(some[i].value, all[j].value)
    {
      assert some[i] in all;
      var k :| 0 <= k < |all| && all[k] == some[i];
      SameAsItself(all[k].value);
    }
    forall key <- Keys(some) ensures key in Keys(all) {
      var f :| f in some && f.key == key;
      assert f in all;
    }
  }

  // ---------- Honesty ----------

  /** What a projection promises when nothing was omitted: the same content, unless an assignment swallowed a field. */
  predicate IsHonest(part: Json, whole: Json, parentKey: string, omitted: set<string>) {
    omitted == {} && NoRuntimeContext(whole, parentKey) ==> (SameValue(part, whole) <==> NoProtoField(whole))
  }

  predicate IsProjection(part: Json, whole: Json, parentKey: string, omitted: set<string>) {
    IsPart(part, whole) && IsHonest(part, whole, parentKey, omitted)
  }

  /** A projected field, against the field of that name. */
  predicate IsFieldProjection(c: Field, fields: seq<Field>, omitted: set<string>) {
    forall j :: 0 <= j < |fields| && fields[j].key == c.key ==>
      IsProjection(c.value, fields[j].value, fields[j].key, omitted)
  }

  /** The fields projected so far, out of the first `i`: all of them when nothing was omitted, except `__proto__`. */
  predicate ProjectsSoFar(compact: seq<Field>, fields: seq<Field>, i: nat, omitted: set<string>)
    requires i <= |fields|
  {
    && (forall k :: 0 <= k < |compact| ==> IsFieldProjection(compact[k], fields, omitted))
    && Keys(compact) <= Keys(fields[..i]) - {PROTO}
    && (omitted == {} ==> Keys(compact) == Keys(fields[..i]) - {PROTO})
  }

  lemma NothingProjected(fields: seq<Field>, omitted: set<string>)
    ensures ProjectsSoFar([], fields, 0, omitted)
    ensures fields[..0] == [] && Keys([]) == {}
  {
  }

  lemma MoreOmitted(compact: seq<Field>, fields: seq<Field>, i: nat, omitted: set<string>, more: set<string>)
    requires i <= |fields| && ProjectsSoFar(compact, fields, i, omitted) && omitted <= more
    ensures ProjectsSoFar(compact, fields, i, more)
  {
    hide IsPart, SameValue, NoProtoField, NoRuntimeContext, Keys;
  }

  lemma KeysOfPrefix(fields: seq<Field>, i: nat)
    requires i < |fields|
    ensures Keys(fields[..i + 1]) == Keys(fields[..i]) + {fields[i].key}
  {
    assert fields[..i + 1] == fields[..i] + [fields[i]];
  }

  /** A field is kept... */
  lemma FieldKept(compact: seq<Field>, fields: seq<Field>, i: nat, omitted: set<string>, projected: Json)
    requires i < |fields| && DistinctKeys(fields) && ProjectsSoFar(compact, fields, i, omitted)
    requires IsProjection(projected, fields[i].value, fields[i].key, omitted) && fields[i].key != PROTO
    ensures ProjectsSoFar(compact + [Field(fields[i].key, projected)], fields, i + 1, omitted)
  {
    hide IsProjection;
    KeysOfPrefix(fields, i);
    AddedKey(compact, Field(fields[i].key, projected));
  }

  /** ... or swallowed, or omitted and noted. */
  lemma FieldDropped(compact: seq<Field>, fields: seq<Field>, i: nat, omitted: set<string>)
    requires i < |fields| && ProjectsSoFar(compact, fields, i, omitted)
    requires fields[i].key == PROTO || omitted != {}
    ensures ProjectsSoFar(compact, fields, i + 1, omitted)
  {
    hide IsFieldProjection;
    KeysOfPrefix(fields, i);
  }

  lemma ProjectedObject(compact: seq<Field>, fields: seq<Field>, parentKey: string, omitted: set<string>)
    requires ProjectsSoFar(compact, fields, |fields|, omitted)
    ensures IsProjection(Obj(compact), Obj(fields), parentKey, omitted)
  {
    assert fields[..|fields|] == fields;
    if omitted == {} && NoRuntimeContext(Obj(fields), parentKey) {
      if SameValue(Obj(compact), Obj(fields)) {
        forall j | 0 <= j < |fields| ensures NoProtoField(fields[j].value) {
          assert fields[j] in fields && fields[j].key in Keys(compact);
          var c :| c in compact && c.key == fields[j].key;
          var k :| 0 <= k < |compact| && compact[k] == c;
          assert IsFieldProjection(compact[k], fields, omitted);
        }
      }
      if NoProtoField(Obj(fields)) {
        forall k, j | 0 <= k < |compact| && 0 <= j < |fields| && compact[k].key == fields[j].key
          ensures SameValue(compact[k].value, fields[j].value)
        {
          assert IsFieldProjection(compact[k], fields, omitted);
        }
      }
    }
  }

  lemma PartOfMore(part: seq<Field>, some: seq<Field>, all: seq<Field>)
    requires DistinctKeys(all) && forall f <- some :: f in all
    ensures IsPart(Obj(part), Obj(some)) ==> IsPart(Obj(part), Obj(all))
    ensures Keys(some) == Keys(all) ==> (SameValue(Obj(part), Obj(some)) <==> SameValue(Obj(part), Obj(all)))
  {
    hide DistinctKeys;
    SameFieldSameKey(some, all);
    if IsPart(Obj(part), Obj(some)) {
      forall i, j | 0 <= i < |part| && 0 <= j < |all| && part[i].key == all[j].key ensures IsPart(part[i].value, all[j].value) {
        KeyIsIn(part, i);
        var k :| 0 <= k < |some| && some[k].key == part[i].key;
        assert some[k] == all[j];
      }
    }
    if Keys(some) == Keys(all) && SameValue(Obj(part), Obj(some)) {
      forall i, j | 0 <= i < |part| && 0 <= j < |all| && part[i].key == all[j].key
        ensures SameValue(part[i].value, all[j].value)
      {
        KeyIsIn(part, i);
        var k :| 0 <= k < |some| && some[k].key == part[i].key;
        assert some[k] == all[j];
      }
    }
    if Keys(some) == Keys(all) && SameValue(Obj(part), Obj(all)) {
      forall i, j | 0 <= i < |part| && 0 <= j < |some| && part[i].key == some[j].key
        ensures SameValue(part[i].value, some[j].value)
      {
        assert some[j] in all;
        var k :| 0 <= k < |all| && all[k] == some[j];
      }
    }
  }

  lemma KeyIsIn(fields: seq<Field>, i: nat)
    requires i < |fields|
    ensures fields[i].key in Keys(fields)
  {
    assert fields[i] in fields;
  }

  /** A projection of some of the fields is a projection of all, if what is missing was noted. */
  lemma ProjectionOfSome(part: seq<Field>, some: seq<Field>, all: seq<Field>, omitted: set<string>)
    requires IsJsonValue(Obj(all)) && forall f <- some :: f in all
    requires omitted == {} ==> Keys(some) == Keys(all)
    requires IsProjection(Obj(part), Obj(some), "", omitted)
    ensures IsProjection(Obj(part), Obj(all), "", omitted)
  {
    hide IsPart, SameValue;
    KeysAreDistinct(all);
    PartOfMore(part, some, all);
    if omitted == {} && NoRuntimeContext(Obj(all), "") {
      forall i | 0 <= i < |some| ensures NoRuntimeContext(some[i].value, some[i].key) {
        assert some[i] in all;
        var j :| 0 <= j < |all| && all[j] == some[i];
      }
      ProtoInSome(some, all);
    }
  }

  lemma KeysAreDistinct(fields: seq<Field>)
    requires IsJsonValue(Obj(fields))
    ensures DistinctKeys(fields)
  {
  }

  lemma SameFieldSameKey(some: seq<Field>, all: seq<Field>)
    requires DistinctKeys(all) && forall f <- some :: f in all
    ensures Keys(some) <= Keys(all)
    ensures forall key <- Keys(some) :: exists i :: 0 <= i < |some| && some[i].key == key
    ensures forall i, j :: 0 <= i < |some| && 0 <= j < |all| && some[i].key == all[j].key ==> some[i] == all[j]
  {
    forall i, j | 0 <= i < |some| && 0 <= j < |all| && some[i].key == all[j].key ensures some[i] == all[j] {
      assert some[i] in all;
      var k :| 0 <= k < |all| && all[k] == some[i];
    }
    forall key <- Keys(some) ensures key in Keys(all) && exists i :: 0 <= i < |some| && some[i].key == key {
      var f :| f in some && f.key == key;
      var i :| 0 <= i < |some| && some[i] == f;
      assert f in all;
    }
  }

  lemma ProtoInSome(some: seq<Field>, all: seq<Field>)
    requires DistinctKeys(all) && Keys(some) == Keys(all) && forall f <- some :: f in all
    ensures NoProtoField(Obj(all)) <==> NoProtoField(Obj(some))
  {
    SameFieldSameKey(some, all);
    if NoProtoField(Obj(some)) {
      forall j | 0 <= j < |all| ensures NoProtoField(all[j].value) {
        assert all[j] in all && all[j].key in Keys(some);
        var i :| 0 <= i < |some| && some[i].key == all[j].key;
      }
    }
    if NoProtoField(Obj(all)) {
      forall i | 0 <= i < |some| ensures NoProtoField(some[i].value) {
        assert some[i] in all;
        var j :| 0 <= j < |all| && all[j] == some[i];
      }
    }
  }

  function FindField(fields: seq<Field>, key: string): (found: Option<Field>)
    ensures found.Some? ==> found.value in fields && found.value.key == key
    ensures found.None? ==> forall f <- fields :: f.key != key
  {
    if fields == [] then None else if fields[0].key == key then Some(fields[0]) else FindField(fields[1..], key)
  }

  lemma FoundAlone(fields: seq<Field>, found: Field)
    requires DistinctKeys(fields) && found in fields
    ensures forall f <- fields :: f.key == found.key ==> f == found
  {
    var i :| 0 <= i < |fields| && fields[i] == found;
    forall f <- fields | f.key == found.key ensures f == found {
      var j :| 0 <= j < |fields| && fields[j] == f;
    }
  }

  lemma EventFieldsAreDistinct(k: nat)
    requires k < |EVENT_FIELDS|
    ensures EVENT_FIELDS[k] !in EVENT_FIELDS[..k]
  {
  }

  lemma SameKeysWhenAllKept(kept: seq<Field>, fields: seq<Field>)
    requires (forall f <- kept :: f in fields) && forall f <- fields :: f in kept
    ensures Keys(kept) == Keys(fields)
  {
  }

  /** What is noted of an event: each field it does not keep. */
  function EventNotes(fields: seq<Field>, path: string): set<string> {
    set f <- fields | f.key !in EVENT_FIELDS :: path + "." + f.key
  }

  lemma EventNotesExactly(fields: seq<Field>, path: string)
    ensures forall f <- fields :: f.key !in EVENT_FIELDS ==> path + "." + f.key in EventNotes(fields, path)
    ensures EventNotes(fields, path) == {} <==> forall f <- fields :: f.key in EVENT_FIELDS
  {
    forall f <- fields | f.key !in EVENT_FIELDS ensures path + "." + f.key in EventNotes(fields, path) {
    }
  }

  /** `event` is `item` with fields left out, none of them silently. */
  predicate IsEventOf(event: Json, item: Json, omitted: set<string>) {
    && IsJsonValue(event) && Depth(event) <= Depth(item)
    && (!item.Obj? ==> event == item)
    && (item.Obj? ==> event.Obj? && (forall f <- event.fields :: f in item.fields)
                      && (omitted == {} ==> Keys(event.fields) == Keys(item.fields)))
  }

  lemma ItemIsItsOwnEvent(item: Json, omitted: set<string>)
    requires IsJsonValue(item)
    ensures IsEventOf(item, item, omitted)
  {
  }

  lemma ItemsAreValues(items: seq<Json>)
    requires IsJsonValue(Arr(items))
    ensures forall i :: 0 <= i < |items| ==> IsJsonValue(items[i])
  {
  }

  lemma ProjectionOfEvent(part: Json, event: Json, item: Json, omitted: set<string>)
    requires IsJsonValue(item) && IsEventOf(event, item, omitted) && IsProjection(part, event, "", omitted)
    ensures IsProjection(part, item, "", omitted)
  {
    hide IsProjection, IsJsonValue, Depth, Keys;
    if item.Obj? {
      assert part.Obj? by { PartOfObject(part, event, omitted); }
      assert item == Obj(item.fields) && event == Obj(event.fields) && part == Obj(part.fields);
      ProjectionOfSome(part.fields, event.fields, item.fields, omitted);
    }
  }

  lemma PartOfProjection(part: Json, whole: Json, omitted: set<string>)
    requires IsProjection(part, whole, "", omitted)
    ensures IsPart(part, whole)
  {
    hide IsPart, IsHonest;
  }

  lemma PartOfObject(part: Json, whole: Json, omitted: set<string>)
    requires IsProjection(part, whole, "", omitted) && whole.Obj?
    ensures part.Obj?
  {
  }

  lemma ProjectedItems(done: seq<Json>, items: seq<Json>, parentKey: string, omitted: set<string>)
    requires |done| <= |items| && (omitted == {} ==> |done| == |items|)
    requires forall j :: 0 <= j < |done| ==> IsProjection(done[j], items[j], "", omitted)
    ensures IsProjection(Arr(done), Arr(items), parentKey, omitted)
  {
  }

  /** A field taken over in part. */
  predicate HasPart(c: Field, fields: seq<Field>) {
    exists j :: 0 <= j < |fields| && fields[j].key == c.key && IsPart(c.value, fields[j].value)
  }

  predicate AreParts(some: seq<Field>, fields: seq<Field>) {
    forall i :: 0 <= i < |some| ==> HasPart(some[i], fields)
  }

  lemma PartsOfFields(some: seq<Field>, fields: seq<Field>)
    requires DistinctKeys(fields) && AreParts(some, fields)
    ensures IsPart(Obj(some), Obj(fields))
  {
    hide IsPart;
    forall i | 0 <= i < |some| ensures some[i].key in Keys(fields) {
      var j :| 0 <= j < |fields| && fields[j].key == some[i].key && IsPart(some[i].value, fields[j].value);
      assert fields[j] in fields;
    }
    forall i, j | 0 <= i < |some| && 0 <= j < |fields| && some[i].key == fields[j].key
      ensures IsPart(some[i].value, fields[j].value)
    {
      var k :| 0 <= k < |fields| && fields[k].key == some[i].key && IsPart(some[i].value, fields[k].value);
    }
    ObjectPart(some, fields);
  }

  lemma ObjectPart(some: seq<Field>, fields: seq<Field>)
    requires forall i :: 0 <= i < |some| ==> some[i].key in Keys(fields)
    requires forall i, j :: 0 <= i < |some| && 0 <= j < |fields| && some[i].key == fields[j].key ==>
               IsPart(some[i].value, fields[j].value)
    ensures IsPart(Obj(some), Obj(fields))
  {
  }

  /** The value of a field, if it is a string. */
  function StringOf(fields: seq<Field>, key: string): Option<Json> {
    var value := Get(fields, key);
    if value.Some? && value.value.Str? then value else None
  }

  /** The same, if it is a string or null. */
  function NullableStringOf(fields: seq<Field>, key: string): Option<Json> {
    var value := Get(fields, key);
    if value.Some? && (value.value.Str? || value.value.Null?) then value else None
  }

  /** At most one field, called `key`. */
  ghost predicate IsEntry(entry: seq<Field>, key: string, value: Option<Json>) {
    Keys(entry) <= {key} && forall k :: Get(entry, k) == if k == key then value else None
  }

  /** A nested record cut down to two string fields; anything else in its place is dropped. */
  predicate IsCutTo(part: Option<Json>, whole: Option<Json>, first: string, second: string) {
    if whole.Some? && whole.value.Obj? then
      && part.Some? && part.value.Obj? && Keys(part.value.fields) <= {first, second}
      && Get(part.value.fields, first) == StringOf(whole.value.fields, first)
      && Get(part.value.fields, second) == StringOf(whole.value.fields, second)
    else part == None
  }

  /** The note on a nested record with other fields than those two. */
  function CutNotes(fields: seq<Field>, key: string, first: string, second: string, path: string): set<string> {
    var whole := Get(fields, key);
    if whole.Some? && whole.value.Obj? && !(Keys(whole.value.fields) <= {first, second})
    then {path + "." + key + "[nonessential]"} else {}
  }

  /** What the runtime context is cut down to. */
  predicate IsCutContext(part: Json, fields: seq<Field>) {
    && part.Obj? && Keys(part.fields) <= {"binding", "projectId", "hostProfile", "activeProject"}
    && IsCutTo(Get(part.fields, "binding"), Get(fields, "binding"), "status", "routeledgerRoot")
    && Get(part.fields, "projectId") == NullableStringOf(fields, "projectId")
    && Get(part.fields, "hostProfile") == StringOf(fields, "hostProfile")
    && IsCutTo(Get(part.fields, "activeProject"), Get(fields, "activeProject"), "id", "name")
  }

  function ContextNotes(fields: seq<Field>, path: string): set<string> {
    (if Keys(fields) <= {"binding", "projectId", "hostProfile", "activeProject"} then {} else {path + "[nonessential]"})
    + CutNotes(fields, "binding", "status", "routeledgerRoot", path)
    + CutNotes(fields, "activeProject", "id", "name", path)
  }

  lemma {:induction false} GetFromJoin(a: seq<Field>, b: seq<Field>, key: string)
    ensures Get(a + b, key) == if Get(a, key).Some? then Get(a, key) else Get(b, key)
    decreases |a|
  {
    if a == [] {
      assert a + b == b;
    } else {
      assert (a + b)[0] == a[0] && (a + b)[1..] == a[1..] + b;
      GetFromJoin(a[1..], b, key);
    }
  }

  lemma {:induction false} FoundIsGot(fields: seq<Field>, key: string)
    ensures var found := FindField(fields, key);
            Get(fields, key) == if found.Some? then Some(found.value.value) else None
    decreases |fields|
  {
    if fields != [] && fields[0].key != key { FoundIsGot(fields[1..], key); }
  }

  lemma GotFromOne(f: Field, key: string)
    ensures Get([f], key) == if key == f.key then Some(f.value) else None
    ensures Get([], key) == None && Keys([f]) == {f.key}
  {
  }

  /** The field with its value if that is a string, and nothing otherwise. */
  function StringEntry(fields: seq<Field>, key: string): (entry: seq<Field>)
    ensures AreParts(entry, fields) && Keys(entry) <= {key}
    ensures IsEntry(entry, key, StringOf(fields, key))
  {
    FoundIsGot(fields, key);
    var found := FindField(fields, key);
    if found.Some? && found.value.value.Str? then
      (var j :| 0 <= j < |fields| && fields[j] == found.value; assert IsPart(found.value.value, fields[j].value); [found.value])
    else []
  }

  function ProjectIdEntry(fields: seq<Field>): (entry: seq<Field>)
    ensures AreParts(entry, fields) && Keys(entry) <= {"projectId"}
    ensures IsEntry(entry, "projectId", NullableStringOf(fields, "projectId"))
  {
    FoundIsGot(fields, "projectId");
    var found := FindField(fields, "projectId");
    if found.Some? && (found.value.value.Str? || found.value.value.Null?) then
      (var j :| 0 <= j < |fields| && fields[j] == found.value; assert IsPart(found.value.value, fields[j].value); [found.value])
    else []
  }

  lemma InnerPart(fields: seq<Field>, f: Field, kept: seq<Field>)
    requires IsJsonValue(Obj(fields)) && f in fields && f.value.Obj? && AreParts(kept, f.value.fields)
    ensures HasPart(Field(f.key, Obj(kept)), fields)
  {
    hide AreParts;
    var j :| 0 <= j < |fields| && fields[j] == f;
    assert f.value == Obj(f.value.fields) && IsJsonValue(fields[j].value);
    KeysAreDistinct(f.value.fields);
    PartsOfFields(kept, f.value.fields);
  }

  lemma KeysWithin(fields: seq<Field>, some: set<string>)
    ensures Keys(fields) <= some <==> forall f <- fields :: f.key in some
  {
  }

  function FirstOf(a: Option<Json>, b: Option<Json>, c: Option<Json>, d: Option<Json>): Option<Json> {
    if a.Some? then a else if b.Some? then b else if c.Some? then c else d
  }

  lemma GetFromFour(a: seq<Field>, b: seq<Field>, c: seq<Field>, d: seq<Field>, key: string)
    ensures Get(a + b + c + d, key) == FirstOf(Get(a, key), Get(b, key), Get(c, key), Get(d, key))
  {
    GetFromJoin(a + b + c, d, key);
    GetFromJoin(a + b, c, key);
    GetFromJoin(a, b, key);
  }

  lemma EntriesAreCut(fields: seq<Field>, binding: seq<Field>, projectId: seq<Field>, hostProfile: seq<Field>,
                      activeProject: seq<Field>)
    requires IsEntry(binding, "binding", Get(binding, "binding"))
    requires IsCutTo(Get(binding, "binding"), Get(fields, "binding"), "status", "routeledgerRoot")
    requires IsEntry(projectId, "projectId", NullableStringOf(fields, "projectId"))
    requires IsEntry(hostProfile, "hostProfile", StringOf(fields, "hostProfile"))
    requires IsEntry(activeProject, "activeProject", Get(activeProject, "activeProject"))
    requires IsCutTo(Get(activeProject, "activeProject"), Get(fields, "activeProject"), "id", "name")
    ensures IsCutContext(Obj(binding + projectId + hostProfile + activeProject), fields)
  {
    hide IsCutTo, StringOf, NullableStringOf, Get, Keys, FieldLost, AreParts;
    JoinFour(fields, binding, projectId, hostProfile, activeProject);
    GetFromFour(binding, projectId, hostProfile, activeProject, "binding");
    GetFromFour(binding, projectId, hostProfile, activeProject, "projectId");
    GetFromFour(binding, projectId, hostProfile, activeProject, "hostProfile");
    GetFromFour(binding, projectId, hostProfile, activeProject, "activeProject");
  }

  /** A nested record that had other fields than those kept is not what it was. */
  lemma InnerLost(fields: seq<Field>, f: Field, kept: seq<Field>, retained: set<string>)
    requires f in fields && f.value.Obj? && Keys(kept) <= retained
    requires exists g <- f.value.fields :: g.key !in retained
    ensures FieldLost([Field(f.key, Obj(kept))], fields)
  {
    var j :| 0 <= j < |fields| && fields[j] == f;
    var g :| g in f.value.fields && g.key !in retained;
    assert g.key in Keys(f.value.fields);
    var entry := [Field(f.key, Obj(kept))];
    assert !SameValue(entry[0].value, fields[j].value);
  }

  /** The fields that an object does not keep. */
  function Unprojected(path: string): set<string> {
    if Includes(path, "recommendedNextActions") then {PROTO} else {PROTO, "payload"}
  }

  // ---------- Nothing is noted without a loss ----------

  /** The fields projected so far have the content of the first `i`. */
  predicate SameSoFar(compact: seq<Field>, fields: seq<Field>, i: nat)
    requires i <= |fields|
  {
    && Keys(compact) == Keys(fields[..i])
    && forall k, j :: 0 <= k < |compact| && 0 <= j < i && compact[k].key == fields[j].key ==>
         SameValue(compact[k].value, fields[j].value)
  }

  lemma LossIsKept(compact: seq<Field>, fields: seq<Field>, i: nat, projected: Json)
    requires i < |fields| && DistinctKeys(fields) && Keys(compact) <= Keys(fields[..i])
    requires !SameSoFar(compact, fields, i) || !SameValue(projected, fields[i].value)
    ensures !SameSoFar(compact + [Field(fields[i].key, projected)], fields, i + 1)
  {
    hide SameValue;
    var more := compact + [Field(fields[i].key, projected)];
    if SameSoFar(more, fields, i + 1) {
      KeysOfPrefix(fields, i);
      AddedKey(compact, Field(fields[i].key, projected));
      KeyIsNew(fields, i);
      assert Keys(compact) == Keys(fields[..i]);
      assert more[|compact|].key == fields[i].key;
      forall k, j | 0 <= k < |compact| && 0 <= j < i && compact[k].key == fields[j].key
        ensures SameValue(compact[k].value, fields[j].value)
      {
        assert more[k] == compact[k];
      }
    }
  }

  lemma KeyIsNew(fields: seq<Field>, i: nat)
    requires i < |fields| && DistinctKeys(fields)
    ensures fields[i].key !in Keys(fields[..i])
  {
    assert forall f <- fields[..i] :: f.key != fields[i].key;
  }

  lemma DropIsLoss(compact: seq<Field>, fields: seq<Field>, i: nat)
    requires i < |fields| && DistinctKeys(fields) && Keys(compact) <= Keys(fields[..i])
    ensures !SameSoFar(compact, fields, i + 1)
  {
    KeysOfPrefix(fields, i);
    KeyIsNew(fields, i);
  }

  lemma LossOfObject(compact: seq<Field>, fields: seq<Field>)
    requires !SameSoFar(compact, fields, |fields|)
    ensures !SameValue(Obj(compact), Obj(fields))
  {
    assert fields[..|fields|] == fields;
  }

  predicate LosesKey(event: Json, item: Json) {
    item.Obj? && event.Obj? && exists f <- item.fields :: f.key !in Keys(event.fields)
  }

  lemma LossOfEvent(part: Json, event: Json, item: Json, omitted: set<string>)
    requires IsJsonValue(item) && IsEventOf(event, item, omitted) && IsPart(part, event)
    requires !SameValue(part, event) || LosesKey(event, item)
    ensures !SameValue(part, item)
  {
    if item.Obj? {
      assert part.Obj? && Keys(part.fields) <= Keys(event.fields);
      KeysAreDistinct(item.fields);
      PartOfMore(part.fields, event.fields, item.fields);
      SameFieldSameKey(event.fields, item.fields);
      assert part == Obj(part.fields) && event == Obj(event.fields) && item == Obj(item.fields);
    }
  }

  /** Something in the items is lost: in those already projected, or in an event still to come. */
  predicate ItemsLost(done: seq<Json>, source: seq<Json>, items: seq<Json>)
    requires |done| <= |items| == |source|
  {
    || (exists j :: 0 <= j < |done| && !SameValue(done[j], items[j]))
    || (exists j :: |done| <= j < |items| && LosesKey(source[j], items[j]))
  }

  lemma LossOfItems(done: seq<Json>, source: seq<Json>, items: seq<Json>)
    requires |done| <= |items| == |source| && (|done| < |items| || ItemsLost(done, source, items))
    ensures !SameValue(Arr(done), Arr(items))
  {
  }

  lemma MoreItemsLost(done: seq<Json>, source: seq<Json>, items: seq<Json>, part: Json, omitted: set<string>)
    requires |done| < |items| == |source|
    requires IsJsonValue(items[|done|]) && IsEventOf(source[|done|], items[|done|], omitted) && IsPart(part, source[|done|])
    requires ItemsLost(done, source, items) || !SameValue(part, source[|done|])
    ensures ItemsLost(done + [part], source, items)
  {
    hide SameValue, IsPart, IsEventOf, LosesKey, IsJsonValue;
    var i, more := |done|, done + [part];
    if !SameValue(part, source[i]) || LosesKey(source[i], items[i]) {
      LossOfEvent(part, source[i], items[i], omitted);
      assert !SameValue(more[i], items[i]);
    } else if j :| 0 <= j < i && !SameValue(done[j], items[j]) {
      assert !SameValue(more[j], items[j]);
    }
  }

  /** One field whose content differs. */
  predicate FieldLost(entry: seq<Field>, fields: seq<Field>) {
    exists k, j :: 0 <= k < |entry| && 0 <= j < |fields| && entry[k].key == fields[j].key
                   && !SameValue(entry[k].value, fields[j].value)
  }

  lemma LossOfField(before: seq<Field>, entry: seq<Field>, after: seq<Field>, fields: seq<Field>)
    requires FieldLost(entry, fields)
    ensures FieldLost(before + entry + after, fields)
  {
    hide SameValue;
    var k, j :| 0 <= k < |entry| && 0 <= j < |fields| && entry[k].key == fields[j].key
                && !SameValue(entry[k].value, fields[j].value);
    assert (before + entry + after)[|before| + k] == entry[k];
  }

  lemma JoinFour(fields: seq<Field>, a: seq<Field>, b: seq<Field>, c: seq<Field>, d: seq<Field>)
    ensures Keys(a + b + c + d) == Keys(a) + Keys(b) + Keys(c) + Keys(d)
    ensures AreParts(a, fields) && AreParts(b, fields) && AreParts(c, fields) && AreParts(d, fields) ==>
              AreParts(a + b + c + d, fields)
    ensures FieldLost(a, fields) || FieldLost(d, fields) ==> FieldLost(a + b + c + d, fields)
  {
    hide HasPart, FieldLost;
    if FieldLost(a, fields) {
      LossOfField([], a, b + c + d, fields);
      assert a + b + c + d == [] + a + (b + c + d);
    }
    if FieldLost(d, fields) {
      LossOfField(a + b + c, d, [], fields);
      assert a + b + c + d == a + b + c + d + [];
    }
  }

  lemma LostFieldDiffers(some: seq<Field>, fields: seq<Field>)
    requires FieldLost(some, fields) || exists f <- fields :: f.key !in Keys(some)
    ensures !SameValue(Obj(some), Obj(fields))
  {
    if f :| f in fields && f.key !in Keys(some) {
      assert f.key in Keys(fields);
    }
  }

  // ---------- Exactly what is kept and noted ----------

  const ROUTE_RECORD_PARENTS: set<string> := {"proposal", "pendingOperation", "rejection", "approvalArtifact"}

  /** The fields of an object that are looked into: those of an event or a route record that are listed, and all of any
      other object but payloads, which are only kept below recommended actions. */
  predicate IsLookedInto(key: string, path: string, parentKey: string, isEvent: bool) {
    if isEvent then key in EVENT_FIELDS
    else if parentKey in ROUTE_RECORD_PARENTS then key in ROUTE_RECORD_FIELDS
    else key != "payload" || Includes(path, "recommendedNextActions")
  }

  /** `r` keeps exactly the fields that are looked into, except `__proto__`, each projected. */
  ghost predicate IsExactObject(r: seq<Field>, fields: seq<Field>, path: string, parentKey: string, isEvent: bool)
    decreases fields, 1
  {
    && (forall key :: key in Keys(r) <==> key in Keys(fields) && key != PROTO && IsLookedInto(key, path, parentKey, isEvent))
    && HasExactFields(r, fields, path)
  }

  ghost predicate HasExactFields(r: seq<Field>, fields: seq<Field>, path: string)
    decreases fields, 0
  {
    forall i, j :: 0 <= i < |r| && 0 <= j < |fields| && r[i].key == fields[j].key ==>
      IsExact(r[i].value, fields[j].value, path + "." + fields[j].key, fields[j].key)
  }

  ghost predicate IsExactItem(r: Json, item: Json, path: string, isEvent: bool)
    decreases item, 1
  {
    if isEvent && item.Obj? then r.Obj? && IsExactObject(r.fields, item.fields, path, "", true) else IsExact(r, item, path, "")
  }

  /**
    The projection of a value below a key: the first ten items of an array, which are events below `events`; of an object
    the fields that are looked into; of a runtime context its own cut; and everything else as it is.
   */
  ghost predicate IsExact(r: Json, value: Json, path: string, parentKey: string)
    decreases value, 0
  {
    match value
    case Arr(items) =>
      && r.Arr? && |r.items| == (if |items| > 10 then 10 else |items|)
      && forall i :: 0 <= i < |r.items| ==> IsExactItem(r.items[i], items[i], path + "[]", parentKey == "events")
    case Obj(fields) =>
      && r.Obj?
      && if parentKey == "runtimeContext" then IsCutContext(r, fields) else IsExactObject(r.fields, fields, path, parentKey, false)
    case _ => r == value
  }

  /** What is noted of a field: its path when it is not looked into, and otherwise what is noted below it. */
  ghost predicate IsFieldNote(note: string, f: Field, path: string, parentKey: string, isEvent: bool)
    decreases f, 2
  {
    if IsLookedInto(f.key, path, parentKey, isEvent) then IsNote(note, f.value, path + "." + f.key, f.key)
    else note == path + "." + f.key
  }

  ghost predicate IsItemNote(note: string, item: Json, path: string, isEvent: bool)
    decreases item, 1
  {
    if isEvent && item.Obj?
    then exists i :: 0 <= i < |item.fields| && IsLookedInto(item.fields[i].key, path, "", true)
                     && IsFieldNote(note, item.fields[i], path, "", true)
    else IsNote(note, item, path, "")
  }

  /** What is noted of a value: what an array loses by its cut and its events, also those cut off, and what its fields and
      the items that are kept lose. */
  ghost predicate IsNote(note: string, value: Json, path: string, parentKey: string)
    decreases value, 0
  {
    match value
    case Arr(items) =>
      || (|items| > 10 && note == path + "[10:]")
      || (parentKey == "events" && exists i :: 0 <= i < |items| && items[i].Obj? && note in EventNotes(items[i].fields, path + "[]"))
      || exists i :: 0 <= i < |items| && i < 10 && IsItemNote(note, items[i], path + "[]", parentKey == "events")
    case Obj(fields) =>
      if parentKey == "runtimeContext" then note in ContextNotes(fields, path)
      else exists i :: 0 <= i < |fields| && IsFieldNote(note, fields[i], path, parentKey, false)
    case _ => false
  }

  lemma NoFieldsAreExact(fields: seq<Field>, path: string)
    ensures HasExactFields([], fields, path)
  {
  }

  lemma RouteFieldsAreKept()
    ensures PROTO !in ROUTE_RECORD_FIELDS
  {
  }

  /** One more field of an object: kept, or passed over. */
  lemma ExactWithField(compact: seq<Field>, fields: seq<Field>, i: nat, path: string, projected: Json)
    requires i < |fields| && DistinctKeys(fields) && HasExactFields(compact, fields, path)
    requires IsExact(projected, fields[i].value, path + "." + fields[i].key, fields[i].key)
    ensures HasExactFields(compact + [Field(fields[i].key, projected)], fields, path)
  {
    hide IsExact;
  }

  ghost predicate IsNoteUpTo(note: string, fields: seq<Field>, n: nat, path: string, parentKey: string)
    requires n <= |fields|
  {
    exists i :: 0 <= i < n && IsFieldNote(note, fields[i], path, parentKey, false)
  }

  lemma OneMoreNoted(fields: seq<Field>, n: nat, path: string, parentKey: string)
    requires n < |fields|
    ensures forall note :: IsNoteUpTo(note, fields, n + 1, path, parentKey) <==>
              IsNoteUpTo(note, fields, n, path, parentKey) || IsFieldNote(note, fields[n], path, parentKey, false)
  {
    hide IsFieldNote;
  }

  lemma NothingNoted(fields: seq<Field>, path: string, parentKey: string)
    ensures forall note :: !IsNoteUpTo(note, fields, 0, path, parentKey)
  {
  }

  lemma ExactObjectIsExact(r: seq<Field>, fields: seq<Field>, path: string, parentKey: string)
    requires parentKey != "runtimeContext" && IsExactObject(r, fields, path, parentKey, false)
    ensures IsExact(Obj(r), Obj(fields), path, parentKey)
    ensures forall note :: IsNote(note, Obj(fields), path, parentKey) <==> IsNoteUpTo(note, fields, |fields|, path, parentKey)
  {
    hide IsExactObject, IsFieldNote;
  }

  /** The event keeps exactly its listed fields, and what is no object is kept as it is. */
  ghost predicate IsCutEvent(event: Json, item: Json) {
    && (item.Obj? ==> event.Obj? && forall f :: f in event.fields <==> f in item.fields && f.key in EVENT_FIELDS)
    && (!item.Obj? ==> event == item)
  }

  ghost predicate IsEventNote(note: string, items: seq<Json>, n: nat, path: string)
    requires n <= |items|
  {
    exists i :: 0 <= i < n && items[i].Obj? && note in EventNotes(items[i].fields, path)
  }

  lemma NoEventNotes(items: seq<Json>, path: string)
    ensures forall note :: !IsEventNote(note, items, 0, path)
  {
  }

  ghost predicate IsNoteOfItems(note: string, items: seq<Json>, n: nat, path: string, isEvents: bool)
    requires n <= |items|
  {
    exists i :: 0 <= i < n && IsItemNote(note, items[i], path, isEvents)
  }

  lemma CutEventIsExact(projected: Json, event: Json, item: Json, path: string)
    requires IsJsonValue(item) && IsCutEvent(event, item) && IsExact(projected, event, path, "")
    ensures IsExactItem(projected, item, path, true)
    ensures forall note :: IsNote(note, event, path, "") <==> IsItemNote(note, item, path, true)
  {
    if item.Obj? {
      var kept, fields, r := event.fields, item.fields, projected.fields;
      KeysAreDistinct(fields);
      assert IsExactObject(r, kept, path, "", false);
      assert forall key <- EVENT_FIELDS :: key != PROTO && key != "payload";
      hide IsExact, IsNote;
      SameFieldSameKey(kept, fields);
      KeptKeys(kept, fields);
      assert HasExactFields(r, fields, path) by {
        forall i, j | 0 <= i < |r| && 0 <= j < |fields| && r[i].key == fields[j].key
          ensures IsExact(r[i].value, fields[j].value, path + "." + fields[j].key, fields[j].key)
        {
          KeyIsIn(r, i);
          var k :| 0 <= k < |kept| && kept[k].key == r[i].key;
        }
      }
      CutEventNotes(event, item, path);
    }
  }

  lemma KeptKeys(kept: seq<Field>, fields: seq<Field>)
    requires forall f :: f in kept <==> f in fields && f.key in EVENT_FIELDS
    ensures forall key :: key in Keys(kept) <==> key in Keys(fields) && key in EVENT_FIELDS
  {
  }

  lemma CutEventNotes(event: Json, item: Json, path: string)
    requires IsCutEvent(event, item) && item.Obj?
    ensures forall note :: IsNote(note, event, path, "") <==> IsItemNote(note, item, path, true)
  {
    var kept, fields := event.fields, item.fields;
    assert forall key <- EVENT_FIELDS :: key != "payload";
    forall note ensures IsNote(note, event, path, "") <==> IsItemNote(note, item, path, true) {
      if IsNote(note, event, path, "") {
        var i :| 0 <= i < |kept| && IsFieldNote(note, kept[i], path, "", false);
        assert kept[i] in fields;
        var j :| 0 <= j < |fields| && fields[j] == kept[i];
        assert IsFieldNote(note, fields[j], path, "", true);
      }
      if IsItemNote(note, item, path, true) {
        var j :| 0 <= j < |fields| && IsLookedInto(fields[j].key, path, "", true) && IsFieldNote(note, fields[j], path, "", true);
        assert fields[j] in kept;
        var i :| 0 <= i < |kept| && kept[i] == fields[j];
        assert IsFieldNote(note, kept[i], path, "", false);
      }
    }
  }

  lemma PlainItemIsExact(projected: Json, item: Json, path: string)
    requires IsExact(projected, item, path, "")
    ensures IsExactItem(projected, item, path, false)
    ensures forall note :: IsNote(note, item, path, "") <==> IsItemNote(note, item, path, false)
  {
  }

  lemma ExactItemsAreExact(done: seq<Json>, items: seq<Json>, path: string, parentKey: string)
    requires |done| == if |items| > 10 then 10 else |items|
    requires forall i :: 0 <= i < |done| ==> IsExactItem(done[i], items[i], path + "[]", parentKey == "events")
    ensures IsExact(Arr(done), Arr(items), path, parentKey)
    ensures forall note :: IsNote(note, Arr(items), path, parentKey) <==>
              || (|items| > 10 && note == path + "[10:]")
              || (parentKey == "events" && IsEventNote(note, items, |items|, path + "[]"))
              || IsNoteOfItems(note, items, |done|, path + "[]", parentKey == "events")
  {
    hide IsExactItem, IsItemNote, EventNotes;
  }

  class CompactProjection {
    var omitted: set<string>

    constructor ()
      ensures omitted == {}
    {
      omitted := {};
    }

    /** Every field an event does not keep is noted. */
    method NoteEventFields(fields: seq<Field>, path: string)
      modifies this`omitted
      ensures omitted == old(omitted) + EventNotes(fields, path)
    {
      for i := 0 to |fields|
        invariant omitted == old(omitted) + EventNotes(fields[..i], path)
      {
        assert fields[..i + 1] == fields[..i] + [fields[i]];
        if fields[i].key !in EVENT_FIELDS { omitted := omitted + {path + "." + fields[i].key}; }
      }
      assert fields[..|fields|] == fields;
    }

    /** The fields an event keeps, in their fixed order. */
    method PickEventFields(fields: seq<Field>) returns (kept: seq<Field>)
      requires DistinctKeys(fields)
      ensures DistinctKeys(kept) && forall f :: f in kept <==> f in fields && f.key in EVENT_FIELDS
    {
      hide DistinctKeys;
      kept := [];
      NothingIsDistinct();
      for k := 0 to |EVENT_FIELDS|
        invariant DistinctKeys(kept) && forall f :: f in kept <==> f in fields && f.key in EVENT_FIELDS[..k]
      {
        var found := FindField(fields, EVENT_FIELDS[k]);
        EventFieldsAreDistinct(k);
        assert EVENT_FIELDS[..k + 1] == EVENT_FIELDS[..k] + [EVENT_FIELDS[k]];
        if found.Some? {
          FoundAlone(fields, found.value);
          AddedKey(kept, found.value);
          kept := kept + [found.value];
        }
      }
      assert EVENT_FIELDS[..|EVENT_FIELDS|] == EVENT_FIELDS;
    }

    /** An event keeps its identity and times, in a fixed order; every other field is noted. */
    method CompactEvent(value: Json, path: string) returns (r: Json)
      requires IsJsonValue(value)
      modifies this`omitted
      ensures old(omitted) <= omitted && IsEventOf(r, value, omitted)
      ensures value.Obj? ==> r.Obj? && forall f :: f in r.fields <==> f in value.fields && f.key in EVENT_FIELDS
      ensures omitted == old(omitted) + if value.Obj? then EventNotes(value.fields, path) else {}
      ensures omitted != old(omitted) ==> LosesKey(r, value)
    {
      hide DistinctKeys, FieldsDepth;
      if !value.Obj? {
        ItemIsItsOwnEvent(value, omitted);
        return value;
      }
      NoteEventFields(value.fields, path);
      EventNotesExactly(value.fields, path);
      var kept := PickEventFields(value.fields);
      SomeFieldsArePart(kept, value.fields);
      FewerFieldsNoDeeper(kept, value.fields);
      if omitted == {} { SameKeysWhenAllKept(kept, value.fields); }
      return Obj(kept);
    }

    /** Events are compacted before the array is cut, so even the ones cut off note what they lost. */
    method CompactEvents(items: seq<Json>, path: string) returns (r: seq<Json>)
      requires forall i :: 0 <= i < |items| ==> IsJsonValue(items[i])
      modifies this`omitted
      ensures old(omitted) <= omitted && |r| == |items|
      ensures forall i :: 0 <= i < |items| ==> IsEventOf(r[i], items[i], omitted)
      ensures omitted != old(omitted) ==> ItemsLost([], r, items)
      ensures forall i :: 0 <= i < |items| ==> IsCutEvent(r[i], items[i])
      ensures forall note :: note in omitted <==> note in old(omitted) || IsEventNote(note, items, |items|, path)
    {
      hide LosesKey, EventNotes;
      r := [];
      for i := 0 to |items|
        invariant old(omitted) <= omitted && |r| == i
        invariant forall j :: 0 <= j < i ==> IsEventOf(r[j], items[j], omitted)
        invariant forall j :: 0 <= j < i ==> IsCutEvent(r[j], items[j])
        invariant forall note :: note in omitted <==> note in old(omitted) || IsEventNote(note, items, i, path)
        invariant omitted != old(omitted) ==> exists j :: 0 <= j < i && LosesKey(r[j], items[j])
      {
        var event := CompactEvent(items[i], path);
        r := r + [event];
      }
    }

    method ProjectArray(items: seq<Json>, path: string, parentKey: string) returns (r: Json)
      requires IsJsonValue(Arr(items))
      modifies this`omitted
      ensures old(omitted) <= omitted && IsProjection(r, Arr(items), parentKey, omitted)
      ensures r.Arr? && |r.items| == if |items| > MAX_COMPACT_ARRAY_ITEMS then MAX_COMPACT_ARRAY_ITEMS else |items|
      ensures |items| > MAX_COMPACT_ARRAY_ITEMS ==> path + "[10:]" in omitted
      ensures omitted != old(omitted) ==> !SameValue(r, Arr(items))
      ensures IsExact(r, Arr(items), path, parentKey)
      ensures forall note :: note in omitted <==> note in old(omitted) || IsNote(note, Arr(items), path, parentKey)
      decreases 1 + ItemsDepth(items), 0
    {
      hide IsPart, SameValue, IsJsonValue, NoProtoField, NoRuntimeContext, ItemsDepth, Depth, LosesKey, ItemsLost;
      hide IsExact, IsNote, IsExactItem, IsItemNote, IsEventNote, IsCutEvent;
      var isEvents := parentKey == "events";
      ItemsAreValues(items);
      var source := items;
      if isEvents {
        source := CompactEvents(items, path + "[]");
      } else {
        forall i | 0 <= i < |items| ensures IsEventOf(source[i], items[i], omitted) { ItemIsItsOwnEvent(items[i], omitted); }
        NoEventNotes(items, path + "[]");
      }
      if |items| > MAX_COMPACT_ARRAY_ITEMS {
        omitted := omitted + {path + "[10:]"};
      }
      ghost var before := omitted;
      var count := if |items| > MAX_COMPACT_ARRAY_ITEMS then MAX_COMPACT_ARRAY_ITEMS else |items|;
      var done: seq<Json> := [];
      for i := 0 to count
        invariant old(omitted) <= omitted && |done| == i
        invariant omitted == {} ==> count == |items|
        invariant forall j :: 0 <= j < |items| ==> IsEventOf(source[j], items[j], omitted)
        invariant forall j :: 0 <= j < i ==> IsProjection(done[j], items[j], "", omitted)
        invariant |items| > MAX_COMPACT_ARRAY_ITEMS ==> path + "[10:]" in omitted
        invariant omitted != old(omitted) ==> count < |items| || ItemsLost(done, source, items)
        invariant forall j :: 0 <= j < i ==> IsExactItem(done[j], items[j], path + "[]", isEvents)
        invariant forall note :: note in omitted <==> note in before || IsNoteOfItems(note, items, i, path + "[]", isEvents)
      {
        var projected := ProjectCompactValue(source[i], path + "[]", "");
        if (omitted != old(omitted)) && count == |items| {
          PartOfProjection(projected, source[i], omitted);
          MoreItemsLost(done, source, items, projected, omitted);
        }
        ProjectionOfEvent(projected, source[i], items[i], omitted);
        if isEvents { CutEventIsExact(projected, source[i], items[i], path + "[]"); }
        else { PlainItemIsExact(projected, items[i], path + "[]"); }
        done := done + [projected];
      }
      ProjectedItems(done, items, parentKey, omitted);
      if omitted != old(omitted) { LossOfItems(done, source, items); }
      ExactItemsAreExact(done, items, path, parentKey);
      return Arr(done);
    }

    /** A route record keeps a fixed list of fields and notes the rest. */
    method CompactRouteRecord(fields: seq<Field>, path: string, parentKey: string) returns (r: Json)
      requires IsJsonValue(Obj(fields)) && parentKey in ROUTE_RECORD_PARENTS
      modifies this`omitted
      ensures old(omitted) <= omitted && IsProjection(r, Obj(fields), parentKey, omitted)
      ensures r.Obj? && Keys(r.fields) == Keys(fields) * ROUTE_RECORD_FIELDS
      ensures forall f <- fields :: f.key !in ROUTE_RECORD_FIELDS ==> path + "." + f.key in omitted
      ensures omitted != old(omitted) ==> !SameValue(r, Obj(fields))
      ensures IsExact(r, Obj(fields), path, parentKey)
      ensures forall note :: note in omitted <==> note in old(omitted) || IsNote(note, Obj(fields), path, parentKey)
      decreases 1 + FieldsDepth(fields), 0
    {
      hide IsPart, SameValue, NoProtoField, NoRuntimeContext, Keys, ProjectsSoFar, IsProjection, FieldsDepth, Depth, SameSoFar;
      hide IsExact, IsNote, HasExactFields, IsNoteUpTo;
      NothingNoted(fields, path, parentKey);
      assert HasExactFields([], fields, path) by { NoFieldsAreExact(fields, path); }
      KeysAreDistinct(fields);
      var compact: seq<Field> := [];
      NothingProjected(fields, omitted);
      for i := 0 to |fields|
        invariant old(omitted) <= omitted
        invariant ProjectsSoFar(compact, fields, i, omitted)
        invariant Keys(compact) == Keys(fields[..i]) * ROUTE_RECORD_FIELDS
        invariant forall j :: 0 <= j < i && fields[j].key !in ROUTE_RECORD_FIELDS ==> path + "." + fields[j].key in omitted
        invariant omitted != old(omitted) ==> !SameSoFar(compact, fields, i)
        invariant HasExactFields(compact, fields, path)
        invariant forall note :: note in omitted <==> note in old(omitted) || IsNoteUpTo(note, fields, i, path, parentKey)
      {
        var key, child := fields[i].key, fields[i].value;
        ghost var before := omitted;
        KeysOfPrefix(fields, i);
        OneMoreNoted(fields, i, path, parentKey);
        if key in ROUTE_RECORD_FIELDS {
          var projected := ProjectCompactValue(child, path + "." + key, key);
          MoreOmitted(compact, fields, i, before, omitted);
          FieldKept(compact, fields, i, omitted, projected);
          AddedKey(compact, Field(key, projected));
          ExactWithField(compact, fields, i, path, projected);
          if omitted != old(omitted) { LossIsKept(compact, fields, i, projected); }
          compact := compact + [Field(key, projected)];
        } else {
          omitted := omitted + {path + "." + key};
          MoreOmitted(compact, fields, i, before, omitted);
          FieldDropped(compact, fields, i, omitted);
          DropIsLoss(compact, fields, i);
        }
      }
      assert fields[..|fields|] == fields;
      ProjectedObject(compact, fields, parentKey, omitted);
      if omitted != old(omitted) { LossOfObject(compact, fields); }
      assert IsExactObject(compact, fields, path, parentKey, false) by { RouteFieldsAreKept(); }
      ExactObjectIsExact(compact, fields, path, parentKey);
      return Obj(compact);
    }

    /** Any other object keeps all its fields but payloads, which are noted; `compact["__proto__"] = x` adds no field. */
    method ProjectObject(fields: seq<Field>, path: string, parentKey: string) returns (r: Json)
      requires IsJsonValue(Obj(fields)) && parentKey !in ROUTE_RECORD_PARENTS && parentKey != "runtimeContext"
      modifies this`omitted
      ensures old(omitted) <= omitted && IsProjection(r, Obj(fields), parentKey, omitted)
      ensures r.Obj? && Keys(r.fields) == Keys(fields) - Unprojected(path)
      ensures "payload" in Keys(fields) * Unprojected(path) ==> path + ".payload" in omitted
      ensures omitted != old(omitted) ==> !SameValue(r, Obj(fields))
      ensures IsExact(r, Obj(fields), path, parentKey)
      ensures forall note :: note in omitted <==> note in old(omitted) || IsNote(note, Obj(fields), path, parentKey)
      decreases 1 + FieldsDepth(fields), 0
    {
      hide IsPart, SameValue, NoProtoField, NoRuntimeContext, Keys, ProjectsSoFar, IsProjection, FieldsDepth, Depth, SameSoFar;
      hide IsExact, IsNote, HasExactFields, IsNoteUpTo;
      NothingNoted(fields, path, parentKey);
      assert HasExactFields([], fields, path) by { NoFieldsAreExact(fields, path); }
      KeysAreDistinct(fields);
      var compact: seq<Field> := [];
      NothingProjected(fields, omitted);
      for i := 0 to |fields|
        invariant old(omitted) <= omitted
        invariant ProjectsSoFar(compact, fields, i, omitted)
        invariant Keys(compact) == Keys(fields[..i]) - Unprojected(path)
        invariant "payload" in Keys(fields[..i]) * Unprojected(path) ==> path + ".payload" in omitted
        invariant omitted != old(omitted) ==> !SameSoFar(compact, fields, i)
        invariant HasExactFields(compact, fields, path)
        invariant forall note :: note in omitted <==> note in old(omitted) || IsNoteUpTo(note, fields, i, path, parentKey)
      {
        var key, child := fields[i].key, fields[i].value;
        ghost var before := omitted;
        KeysOfPrefix(fields, i);
        OneMoreNoted(fields, i, path, parentKey);
        if key == "payload" && !Includes(path, "recommendedNextActions") {
          assert path + "." + key == path + ".payload";
          omitted := omitted + {path + ".payload"};
          MoreOmitted(compact, fields, i, before, omitted);
          FieldDropped(compact, fields, i, omitted);
          DropIsLoss(compact, fields, i);
          continue;
        }
        var projected := ProjectCompactValue(child, path + "." + key, key);
        MoreOmitted(compact, fields, i, before, omitted);
        if key == PROTO {
          FieldDropped(compact, fields, i, omitted);
          DropIsLoss(compact, fields, i);
        } else {
          FieldKept(compact, fields, i, omitted, projected);
          AddedKey(compact, Field(key, projected));
          ExactWithField(compact, fields, i, path, projected);
          if omitted != old(omitted) { LossIsKept(compact, fields, i, projected); }
          compact := compact + [Field(key, projected)];
        }
      }
      assert fields[..|fields|] == fields;
      ProjectedObject(compact, fields, parentKey, omitted);
      if omitted != old(omitted) { LossOfObject(compact, fields); }
      ExactObjectIsExact(compact, fields, path, parentKey);
      return Obj(compact);
    }

    /** A nested record cut down to two string fields. */
    method CompactInner(fields: seq<Field>, key: string, first: string, second: string, path: string) returns (entry: seq<Field>)
      requires IsJsonValue(Obj(fields)) && first != second
      modifies this`omitted
      ensures old(omitted) <= omitted && AreParts(entry, fields)
      ensures Keys(entry) <= {key}
      ensures omitted != old(omitted) ==> FieldLost(entry, fields)
      ensures IsEntry(entry, key, Get(entry, key)) && IsCutTo(Get(entry, key), Get(fields, key), first, second)
      ensures omitted == old(omitted) + CutNotes(fields, key, first, second, path)
    {
      hide IsPart, IsJsonValue, SameValue, DistinctKeys, FieldLost, FindField, HasPart;
      var found := FindField(fields, key);
      FoundIsGot(fields, key);
      if found.None? || !found.value.value.Obj? { return []; }
      var inner := found.value.value.fields;
      if exists f <- inner :: f.key !in {first, second} {
        omitted := omitted + {path + "." + key + "[nonessential]"};
      }
      var kept := StringEntry(inner, first) + StringEntry(inner, second);
      GetFromJoin(StringEntry(inner, first), StringEntry(inner, second), first);
      GetFromJoin(StringEntry(inner, first), StringEntry(inner, second), second);
      forall k ensures Get([Field(key, Obj(kept))], k) == if k == key then Some(Obj(kept)) else None {
        GotFromOne(Field(key, Obj(kept)), k);
      }
      InnerPart(fields, found.value, kept);
      if omitted != old(omitted) { InnerLost(fields, found.value, kept, {first, second}); }
      return [Field(key, Obj(kept))];
    }

    /** Only status, root, project and host profile survive; a retained field of the wrong type goes without a note. */
    method CompactRuntimeContext(fields: seq<Field>, path: string) returns (r: Json)
      requires IsJsonValue(Obj(fields))
      modifies this`omitted
      ensures old(omitted) <= omitted && IsPart(r, Obj(fields))
      ensures omitted != old(omitted) ==> !SameValue(r, Obj(fields))
      ensures IsCutContext(r, fields) && omitted == old(omitted) + ContextNotes(fields, path)
    {
      hide IsPart, IsJsonValue, AreParts, FieldLost, Keys, SameValue, DistinctKeys, IsCutTo, CutNotes, StringOf, NullableStringOf,
           IsEntry, IsCutContext, Get;
      KeysWithin(fields, {"binding", "projectId", "hostProfile", "activeProject"});
      if exists f <- fields :: f.key !in {"binding", "projectId", "hostProfile", "activeProject"} {
        omitted := omitted + {path + "[nonessential]"};
      }
      var binding := CompactInner(fields, "binding", "status", "routeledgerRoot", path);
      var projectId := ProjectIdEntry(fields);
      var hostProfile := StringEntry(fields, "hostProfile");
      var activeProject := CompactInner(fields, "activeProject", "id", "name", path);
      var entries := binding + projectId + hostProfile + activeProject;
      JoinFour(fields, binding, projectId, hostProfile, activeProject);
      EntriesAreCut(fields, binding, projectId, hostProfile, activeProject);
      KeysAreDistinct(fields);
      PartsOfFields(entries, fields);
      if omitted != old(omitted) { LostFieldDiffers(entries, fields); }
      return Obj(entries);
    }

    /**
      `projectCompactValue`: the result contains nothing the value does not; and when nothing was noted as omitted it has
      the same content, outside `runtimeContext`, exactly when no field is called `__proto__`.  Nothing is noted without
      a loss.
     */
    method ProjectCompactValue(value: Json, path: string, parentKey: string) returns (r: Json)
      requires IsJsonValue(value)
      modifies this`omitted
      ensures old(omitted) <= omitted && IsProjection(r, value, parentKey, omitted)
      ensures omitted != old(omitted) ==> !SameValue(r, value)
      ensures old(omitted) == {} && NoRuntimeContext(value, parentKey) && NoProtoField(value) ==>
                (omitted == {} <==> SameValue(r, value))
      ensures IsExact(r, value, path, parentKey)
      ensures forall note :: note in omitted <==> note in old(omitted) || IsNote(note, value, path, parentKey)
      decreases Depth(value), 1
    {
      match value
      case Arr(items) => r := ProjectArray(items, path, parentKey);
      case Obj(fields) =>
        if parentKey == "runtimeContext" {
          r := CompactRuntimeContext(fields, path);
        } else if parentKey in ROUTE_RECORD_PARENTS {
          r := CompactRouteRecord(fields, path, parentKey);
        } else {
          r := ProjectObject(fields, path, parentKey);
        }
      case _ =>
        SameAsItself(value);
        r := value;
    }
  }
}
