/**
  Key order (packages/json/src/codec.ts): sorting a value is a normal form of its content, and payloads come back from
  disk with the same content.
 */
module JsonOrder {
  import opened JsonValues
  import opened JsonKeys
  import Sorting

  /** The same fields at every depth, in whatever order. */
  predicate SameValue(a: Json, b: Json)
    decreases a
  {
    match (a, b)
    case (Arr(xs), Arr(ys)) => |xs| == |ys| && forall i :: 0 <= i < |xs| ==> SameValue(xs[i], ys[i])
    case (Obj(fs), Obj(gs)) =>
      && Keys(fs) == Keys(gs)
      && forall i, j :: 0 <= i < |fs| && 0 <= j < |gs| && fs[i].key == gs[j].key ==> SameValue(fs[i].value, gs[j].value)
    case _ => a == b
  }

  /** `sortJsonValue`. */
  function SortJson(leq: (string, string) -> bool, value: Json): Json
    decreases value
  {
    match value
    case Arr(items) => Arr(SortItems(leq, items))
    case Obj(fields) => Obj(Sorting.Sort((f: Field) => f.key, leq, SortValues(leq, fields)))
    case _ => value
  }

  function SortItems(leq: (string, string) -> bool, items: seq<Json>): (r: seq<Json>)
    ensures |r| == |items| && forall i :: 0 <= i < |items| ==> r[i] == SortJson(leq, items[i])
    decreases items
  {
    if items == [] then [] else [SortJson(leq, items[0])] + SortItems(leq, items[1..])
  }

  function SortValues(leq: (string, string) -> bool, fields: seq<Field>): (r: seq<Field>)
    ensures |r| == |fields|
    ensures forall i :: 0 <= i < |fields| ==> r[i] == Field(fields[i].key, SortJson(leq, fields[i].value))
    decreases fields
  {
    if fields == [] then []
    else [Field(fields[0].key, SortJson(leq, fields[0].value))] + SortValues(leq, fields[1..])
  }

  /** The fields of a sorted object. */
  function SortedFields(leq: (string, string) -> bool, fields: seq<Field>): seq<Field> {
    Sorting.Sort((f: Field) => f.key, leq, SortValues(leq, fields))
  }

  lemma SortedFieldsFacts(leq: (string, string) -> bool, fields: seq<Field>)
    requires Sorting.TotalOrder(leq) && DistinctKeys(fields)
    ensures var sorted := SortedFields(leq, fields);
            && Sorting.SortedBy((f: Field) => f.key, leq, sorted) && DistinctKeys(sorted)
            && |sorted| == |fields| && forall f :: f in sorted <==> f in SortValues(leq, fields)
  {
    hide Sorting.Sort;
    var values := SortValues(leq, fields);
    Sorting.SortSorts((f: Field) => f.key, leq, values);
    Sorting.SameMembers(Sorting.Sort((f: Field) => f.key, leq, values), values);
    Sorting.SortKeepsDistinct((f: Field) => f.key, leq, values);
  }

  predicate SortAlike(leq: (string, string) -> bool, fs: seq<Field>, gs: seq<Field>) {
    && Keys(fs) == Keys(gs)
    && forall i, j :: 0 <= i < |fs| && 0 <= j < |gs| && fs[i].key == gs[j].key ==>
         SortJson(leq, fs[i].value) == SortJson(leq, gs[j].value)
  }

  lemma SortedFieldsAgreeExactly(leq: (string, string) -> bool, fs: seq<Field>, gs: seq<Field>)
    requires Sorting.TotalOrder(leq) && DistinctKeys(fs) && DistinctKeys(gs)
    ensures SortedFields(leq, fs) == SortedFields(leq, gs) <==> SortAlike(leq, fs, gs)
  {
    hide SortedFields, SortJson, SortValues, SortAlike;
    SortedFieldsFacts(leq, fs);
    SortedFieldsFacts(leq, gs);
    if SortAlike(leq, fs, gs) {
      AlikeReach(leq, fs, gs);
      AlikeIsSymmetric(leq, fs, gs);
      AlikeReach(leq, gs, fs);
      Sorting.SortedIsUnique((f: Field) => f.key, leq, SortedFields(leq, fs), SortedFields(leq, gs));
    }
    if SortedFields(leq, fs) == SortedFields(leq, gs) {
      SameMembersAreAlike(leq, fs, gs);
    }
  }

  lemma AlikeIsSymmetric(leq: (string, string) -> bool, fs: seq<Field>, gs: seq<Field>)
    requires SortAlike(leq, fs, gs)
    ensures SortAlike(leq, gs, fs)
  {
  }

  lemma {:induction false} AlikeReach(leq: (string, string) -> bool, fs: seq<Field>, gs: seq<Field>)
    requires SortAlike(leq, fs, gs)
    ensures forall f <- SortValues(leq, fs) :: f in SortValues(leq, gs)
  {
    hide SortJson, SortValues;
    var us, vs := SortValues(leq, fs), SortValues(leq, gs);
    forall f <- us ensures f in vs {
      var i :| 0 <= i < |us| && us[i] == f;
      assert fs[i] in fs && fs[i].key in Keys(gs);
      var g :| g in gs && g.key == fs[i].key;
      var j :| 0 <= j < |gs| && gs[j] == g;
      assert vs[j] == f;
    }
  }

  lemma {:induction false} SameMembersAreAlike(leq: (string, string) -> bool, fs: seq<Field>, gs: seq<Field>)
    requires DistinctKeys(gs)
    requires forall f :: f in SortValues(leq, fs) <==> f in SortValues(leq, gs)
    ensures SortAlike(leq, fs, gs)
  {
    hide SortJson, SortValues;
    var us, vs := SortValues(leq, fs), SortValues(leq, gs);
    SameKeys(fs, us);
    SameKeys(gs, vs);
    assert Keys(us) == Keys(vs);
    forall i, j | 0 <= i < |fs| && 0 <= j < |gs| && fs[i].key == gs[j].key
      ensures SortJson(leq, fs[i].value) == SortJson(leq, gs[j].value)
    {
      assert us[i] in vs;
      var k :| 0 <= k < |vs| && vs[k] == us[i];
      assert gs[k].key == gs[j].key;
    }
  }

  /** Sorting is a normal form: two values sort to one exactly when they have the same content. */
  lemma {:induction false} SortIsNormalForm(leq: (string, string) -> bool, a: Json, b: Json)
    requires Sorting.TotalOrder(leq) && IsJsonValue(a) && IsJsonValue(b)
    ensures SortJson(leq, a) == SortJson(leq, b) <==> SameValue(a, b)
    decreases a
  {
    hide Sorting.Sort, SortedFields;
    match (a, b)
    case (Arr(xs), Arr(ys)) =>
      forall i | 0 <= i < |xs| && i < |ys| ensures SortJson(leq, xs[i]) == SortJson(leq, ys[i]) <==> SameValue(xs[i], ys[i]) {
        SortIsNormalForm(leq, xs[i], ys[i]);
      }
      assert SortItems(leq, xs) == SortItems(leq, ys)
        <==> |xs| == |ys| && forall i :: 0 <= i < |xs| ==> SortJson(leq, xs[i]) == SortJson(leq, ys[i]) by {
        ItemsAgreeExactly(leq, xs, ys);
      }
    case (Obj(fs), Obj(gs)) =>
      forall i, j | 0 <= i < |fs| && 0 <= j < |gs|
        ensures SortJson(leq, fs[i].value) == SortJson(leq, gs[j].value) <==> SameValue(fs[i].value, gs[j].value)
      {
        SortIsNormalForm(leq, fs[i].value, gs[j].value);
      }
      SortedFieldsAgreeExactly(leq, fs, gs);
      ObjectSorts(leq, fs);
      ObjectSorts(leq, gs);
    case _ =>
  }

  lemma ObjectSorts(leq: (string, string) -> bool, fields: seq<Field>)
    ensures SortJson(leq, Obj(fields)) == Obj(SortedFields(leq, fields))
  {
  }

  lemma ItemsAgreeExactly(leq: (string, string) -> bool, xs: seq<Json>, ys: seq<Json>)
    ensures SortItems(leq, xs) == SortItems(leq, ys)
       <==> |xs| == |ys| && forall i :: 0 <= i < |xs| ==> SortJson(leq, xs[i]) == SortJson(leq, ys[i])
  {
    hide SortJson, SortItems;
    var us, vs := SortItems(leq, xs), SortItems(leq, ys);
    if us == vs {
      forall i | 0 <= i < |xs| ensures SortJson(leq, xs[i]) == SortJson(leq, ys[i]) { assert us[i] == vs[i]; }
    }
  }

  /** Sorting changes no content, so sorting twice is sorting once. */
  lemma {:induction false} SortKeepsContent(leq: (string, string) -> bool, value: Json)
    requires Sorting.TotalOrder(leq) && IsJsonValue(value)
    ensures SameValue(SortJson(leq, value), value) && IsJsonValue(SortJson(leq, value))
    decreases value
  {
    hide Sorting.Sort, SortedFields;
    match value
    case Arr(items) =>
      forall i | 0 <= i < |items| ensures SameValue(SortJson(leq, items[i]), items[i]) && IsJsonValue(SortJson(leq, items[i])) {
        SortKeepsContent(leq, items[i]);
      }
    case Obj(fields) =>
      forall i | 0 <= i < |fields|
        ensures SameValue(SortJson(leq, fields[i].value), fields[i].value) && IsJsonValue(SortJson(leq, fields[i].value))
      {
        SortKeepsContent(leq, fields[i].value);
      }
      ObjectSorts(leq, fields);
      SortedFieldsFacts(leq, fields);
      SortedFieldsKeepContent(leq, fields);
    case _ =>
  }

  lemma {:induction false} SortedFieldsKeepContent(leq: (string, string) -> bool, fields: seq<Field>)
    requires DistinctKeys(fields) && DistinctKeys(SortedFields(leq, fields))
    requires forall f :: f in SortedFields(leq, fields) <==> f in SortValues(leq, fields)
    requires forall i :: 0 <= i < |fields| ==>
               SameValue(SortJson(leq, fields[i].value), fields[i].value) && IsJsonValue(SortJson(leq, fields[i].value))
    ensures SameValue(Obj(SortedFields(leq, fields)), Obj(fields)) && IsJsonValue(Obj(SortedFields(leq, fields)))
  {
    hide SortedFields, SortJson, SortValues;
    var sorted, values := SortedFields(leq, fields), SortValues(leq, fields);
    SameKeys(values, fields);
    assert Keys(sorted) == Keys(values);
    forall i | 0 <= i < |sorted|
      ensures IsJsonValue(sorted[i].value)
      ensures forall j :: 0 <= j < |fields| && sorted[i].key == fields[j].key ==> SameValue(sorted[i].value, fields[j].value)
    {
      assert sorted[i] in values;
      var k :| 0 <= k < |values| && values[k] == sorted[i];
      assert forall j :: 0 <= j < |fields| && sorted[i].key == fields[j].key ==> j == k;
      assert SameValue(SortJson(leq, fields[k].value), fields[k].value);
    }
  }

  lemma SortTwiceIsOnce(leq: (string, string) -> bool, value: Json)
    requires Sorting.TotalOrder(leq) && IsJsonValue(value)
    ensures SortJson(leq, SortJson(leq, value)) == SortJson(leq, value)
  {
    SortKeepsContent(leq, value);
    SortIsNormalForm(leq, SortJson(leq, value), value);
  }

  // ---------- Payloads ----------

  function EncodePayload(leq: (string, string) -> bool, payload: Json): Json {
    SortJson(leq, ToSnake(payload))
  }

  function DecodePayload(payload: Json): Json {
    ToCamel(payload)
  }

  /** Renaming keys by `f` merges no two fields of one object. */
  predicate StaysDistinct(value: Json, f: string -> string)
    decreases value
  {
    match value
    case Arr(items) => forall i :: 0 <= i < |items| ==> StaysDistinct(items[i], f)
    case Obj(fields) =>
      && KeepsApart(fields, f)
      && forall i :: 0 <= i < |fields| ==> StaysDistinct(fields[i].value, f)
    case _ => true
  }

  lemma {:induction false} SnakeTreeStaysDistinct(value: Json)
    requires IsJsonValue(value) && HasCamelKeys(value)
    ensures StaysDistinct(ToSnake(value), ToCamelCaseKey)
    decreases value
  {
    hide IsCamelKey, ToSnakeCaseKey, ToCamelCaseKey;
    match value
    case Arr(items) =>
      forall i | 0 <= i < |items| ensures StaysDistinct(ToSnake(items[i]), ToCamelCaseKey) { SnakeTreeStaysDistinct(items[i]); }
    case Obj(fields) =>
      forall i | 0 <= i < |fields| ensures StaysDistinct(ToSnake(fields[i].value), ToCamelCaseKey) {
        SnakeTreeStaysDistinct(fields[i].value);
      }
      forall i | 0 <= i < |fields| ensures ToCamelCaseKey(ToSnakeCaseKey(fields[i].key)) == fields[i].key {
        KeyRoundTripExactly(fields[i].key);
      }
      NoCollisions(fields);
    case _ =>
  }

  /** Renaming keys respects content as long as it merges nothing. */
  lemma {:induction false} TransformKeepsContent(a: Json, b: Json, f: string -> string)
    requires SameValue(a, b) && IsJsonValue(a) && IsJsonValue(b) && StaysDistinct(b, f)
    ensures SameValue(TransformKeys(a, f), TransformKeys(b, f))
    decreases a
  {
    match (a, b)
    case (Arr(xs), Arr(ys)) =>
      forall i | 0 <= i < |xs| ensures SameValue(TransformKeys(xs[i], f), TransformKeys(ys[i], f)) {
        TransformKeepsContent(xs[i], ys[i], f);
      }
    case (Obj(fs), Obj(gs)) =>
      forall i, j | 0 <= i < |fs| && 0 <= j < |gs| && fs[i].key == gs[j].key
        ensures SameValue(TransformKeys(fs[i].value, f), TransformKeys(gs[j].value, f))
      {
        TransformKeepsContent(fs[i].value, gs[j].value, f);
      }
      RenamedStaysDistinct(fs, gs, f);
      RenamedFieldsMatch(fs, gs, f);
    case _ =>
  }

  /** `f` merges no two keys of the fields. */
  predicate KeepsApart(fields: seq<Field>, f: string -> string) {
    forall i, j :: 0 <= i < j < |fields| ==> f(fields[i].key) != f(fields[j].key)
  }

  lemma {:induction false} RenamedStaysDistinct(fs: seq<Field>, gs: seq<Field>, f: string -> string)
    requires DistinctKeys(fs) && Keys(fs) == Keys(gs) && KeepsApart(gs, f)
    ensures KeepsApart(fs, f)
    ensures FromEntries(TransformFields(fs, f)) == TransformFields(fs, f)
    ensures FromEntries(TransformFields(gs, f)) == TransformFields(gs, f)
  {
    forall i, j | 0 <= i < j < |fs| ensures f(fs[i].key) != f(fs[j].key) {
      assert fs[i] in fs && fs[i].key in Keys(gs) && fs[j] in fs && fs[j].key in Keys(gs);
      var k :| 0 <= k < |gs| && gs[k].key == fs[i].key;
      var l :| 0 <= l < |gs| && gs[l].key == fs[j].key;
    }
    FromEntriesKeepsExactly(TransformFields(fs, f));
    FromEntriesKeepsExactly(TransformFields(gs, f));
  }

  lemma {:induction false} RenamedFieldsMatch(fs: seq<Field>, gs: seq<Field>, f: string -> string)
    requires Keys(fs) == Keys(gs) && KeepsApart(gs, f)
    requires forall i, j :: 0 <= i < |fs| && 0 <= j < |gs| && fs[i].key == gs[j].key ==>
               SameValue(TransformKeys(fs[i].value, f), TransformKeys(gs[j].value, f))
    ensures SameValue(Obj(TransformFields(fs, f)), Obj(TransformFields(gs, f)))
  {
    hide TransformKeys;
    var us, vs := TransformFields(fs, f), TransformFields(gs, f);
    RenamedKeys(fs, f);
    RenamedKeys(gs, f);
    forall i, j | 0 <= i < |us| && 0 <= j < |vs| && us[i].key == vs[j].key ensures SameValue(us[i].value, vs[j].value) {
      assert fs[i] in fs && fs[i].key in Keys(gs);
      var k :| 0 <= k < |gs| && gs[k].key == fs[i].key;
      assert f(gs[k].key) == f(gs[j].key);
      assert k == j;
    }
  }

  function Image(f: string -> string, keys: set<string>): set<string> {
    set key <- keys :: f(key)
  }

  lemma {:induction false} RenamedKeys(fields: seq<Field>, f: string -> string)
    ensures Keys(TransformFields(fields, f)) == Image(f, Keys(fields))
  {
    hide TransformKeys;
    var us := TransformFields(fields, f);
    forall key ensures key in Keys(us) <==> exists was <- Keys(fields) :: f(was) == key {
      if u :| u in us && u.key == key {
        var i :| 0 <= i < |us| && us[i] == u;
        assert fields[i] in fields && fields[i].key in Keys(fields);
      }
      if was :| was in Keys(fields) && f(was) == key {
        var g :| g in fields && g.key == was;
        var i :| 0 <= i < |fields| && fields[i] == g;
        assert us[i] in us;
      }
    }
  }

  /** A camel-case payload comes back from its sorted snake-case form with the same content. */
  lemma PayloadRoundTrip(leq: (string, string) -> bool, payload: Json)
    requires Sorting.TotalOrder(leq) && IsJsonValue(payload) && HasCamelKeys(payload)
    ensures SameValue(DecodePayload(EncodePayload(leq, payload)), payload)
  {
    TransformKeepsShape(payload, ToSnakeCaseKey);
    SortKeepsContent(leq, ToSnake(payload));
    SnakeTreeStaysDistinct(payload);
    TransformKeepsContent(EncodePayload(leq, payload), ToSnake(payload), ToCamelCaseKey);
    TreeRoundTripExactly(payload);
  }

  /** What is written does not depend on the order in which a payload was built. */
  lemma EncodingIgnoresOrder(leq: (string, string) -> bool, a: Json, b: Json)
    requires Sorting.TotalOrder(leq) && IsJsonValue(a) && IsJsonValue(b) && HasCamelKeys(b) && SameValue(a, b)
    ensures EncodePayload(leq, a) == EncodePayload(leq, b)
  {
    CamelKeysStayDistinct(b);
    TransformKeepsContent(a, b, ToSnakeCaseKey);
    TransformKeepsShape(a, ToSnakeCaseKey);
    TransformKeepsShape(b, ToSnakeCaseKey);
    SortIsNormalForm(leq, ToSnake(a), ToSnake(b));
  }

  lemma {:induction false} CamelKeysStayDistinct(value: Json)
    requires IsJsonValue(value) && HasCamelKeys(value)
    ensures StaysDistinct(value, ToSnakeCaseKey)
    decreases value
  {
    hide IsCamelKey, ToSnakeCaseKey;
    match value
    case Arr(items) =>
      forall i | 0 <= i < |items| ensures StaysDistinct(items[i], ToSnakeCaseKey) { CamelKeysStayDistinct(items[i]); }
    case Obj(fields) =>
      forall i | 0 <= i < |fields| ensures StaysDistinct(fields[i].value, ToSnakeCaseKey) {
        CamelKeysStayDistinct(fields[i].value);
      }
      NoCollisions(fields);
      var renamed := TransformFields(fields, ToSnakeCaseKey);
      forall i, j | 0 <= i < j < |fields| ensures ToSnakeCaseKey(fields[i].key) != ToSnakeCaseKey(fields[j].key) {
        assert renamed[i].key != renamed[j].key;
      }
    case _ =>
  }
}
