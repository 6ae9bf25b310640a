/**
  Decoding a written payload and encoding it again (packages/json/src/codec.ts) gives the same text exactly when every
  written key is stable: the trip through camel case forgets an underscore unless a single lower-case word precedes it
  and a letter follows it.
 */
module JsonReencoding {
  import opened JsonValues
  import opened JsonKeys
  import opened JsonOrder
  import Sorting

  // ---------- Keys ----------

  /** `toCamelCaseKey` takes the underscore and the next character together. */
  predicate IsJoint(key: string) {
    |key| > 1 && key[0] == '_' && IsLowerOrDigit(key[1])
  }

  /**
    What follows `before` in a written key comes back.  An underscore does if a letter follows it and what it follows is
    a lower-case letter or digit that did not itself become a capital.
   */
  predicate IsStableAfter(before: char, key: string)
    decreases |key|
  {
    if key == "" then true
    else if IsJoint(key) then
      'a' <= key[1] <= 'z' && IsLowerOrDigit(before) && IsStableAfter(ToUpper(key[1]), key[2..])
    else IsStableAfter(key[0], key[1..])
  }

  predicate IsStableKey(key: string) {
    IsStableAfter(' ', key)
  }

  predicate HasNoCapital(key: string) {
    forall c <- key :: !IsUpper(c)
  }

  function BackAndThere(key: string): string {
    ToSnakeCaseKey(ToCamelCaseKey(key))
  }

  lemma TripOfJoint(before: char, key: string)
    requires IsJoint(key)
    ensures SnakeAfter(before, ToCamelCaseKey(key))
         == (if 'a' <= key[1] <= 'z' && IsLowerOrDigit(before) then ['_', key[1]] else [key[1]])
            + SnakeAfter(ToUpper(key[1]), ToCamelCaseKey(key[2..]))
  {
    var u, rest := ToUpper(key[1]), ToCamelCaseKey(key[2..]);
    assert ToCamelCaseKey(key) == [u] + rest && ([u] + rest)[1..] == rest;
    assert ToLower(u) == key[1];
  }

  lemma TripOfSingle(before: char, key: string)
    requires key != "" && !IsJoint(key) && !IsUpper(key[0])
    ensures SnakeAfter(before, ToCamelCaseKey(key)) == [key[0]] + SnakeAfter(key[0], ToCamelCaseKey(key[1..]))
  {
    var rest := ToCamelCaseKey(key[1..]);
    assert ToCamelCaseKey(key) == [key[0]] + rest && ([key[0]] + rest)[1..] == rest;
  }

  /** Re-encoding never makes a key longer, and leaves it alone exactly when it is stable. */
  lemma {:induction false} ReencodedKey(before: char, key: string)
    requires HasNoCapital(key)
    ensures var r := SnakeAfter(before, ToCamelCaseKey(key));
            |r| <= |key| && (r == key <==> IsStableAfter(before, key)) && (r != key ==> |r| < |key|)
    decreases |key|
  {
    hide SnakeAfter, ToCamelCaseKey;
    if key == "" {
      EmptyKey(before);
    } else if IsJoint(key) {
      ReencodedKey(ToUpper(key[1]), key[2..]);
      TripOfJoint(before, key);
      assert key == ['_', key[1]] + key[2..];
      PrependTwo('_', key[1], SnakeAfter(ToUpper(key[1]), ToCamelCaseKey(key[2..])), key[2..]);
    } else {
      ReencodedKey(key[0], key[1..]);
      TripOfSingle(before, key);
      assert key == [key[0]] + key[1..];
      PrependKeeps(key[0], SnakeAfter(key[0], ToCamelCaseKey(key[1..])), key[1..]);
    }
  }

  lemma EmptyKey(before: char)
    ensures SnakeAfter(before, ToCamelCaseKey("")) == ""
  {
  }

  lemma PrependTwo(c: char, d: char, a: string, b: string)
    ensures [c, d] + a == [c, d] + b <==> a == b
  {
    assert ([c, d] + a)[2..] == a && ([c, d] + b)[2..] == b;
  }

  lemma KeyReencodesExactly(key: string)
    requires HasNoCapital(key)
    ensures BackAndThere(key) == key <==> IsStableKey(key)
    ensures |BackAndThere(key)| <= |key| && (BackAndThere(key) != key ==> |BackAndThere(key)| < |key|)
  {
    ReencodedKey(' ', key);
  }

  lemma {:induction false} SnakeHasNoCapital(before: char, s: string)
    ensures HasNoCapital(SnakeAfter(before, s))
    decreases |s|
  {
    if s != "" { SnakeHasNoCapital(s[0], s[1..]); }
  }

  // ---------- Sets of keys ----------

  lemma {:induction false} SomeIsLongest(keys: set<string>) returns (longest: string)
    requires keys != {}
    ensures longest in keys && forall k <- keys :: |k| <= |longest|
    decreases |keys|
  {
    var k :| k in keys;
    longest := k;
    if keys != {k} {
      var rest := SomeIsLongest(keys - {k});
      longest := if |rest| >= |k| then rest else k;
    }
  }

  /** Keys that come back as the same set came back one by one. */
  lemma SameSetIsStable(keys: set<string>)
    requires (forall k <- keys :: HasNoCapital(k)) && Image(BackAndThere, keys) == keys
    ensures forall k <- keys :: IsStableKey(k)
  {
    hide BackAndThere, IsStableKey, HasNoCapital;
    var moved := set k <- keys | BackAndThere(k) != k;
    if moved != {} {
      var longest := SomeIsLongest(moved);
      assert longest in Image(BackAndThere, keys);
      var j :| j in keys && BackAndThere(j) == longest;
      assert j in moved <==> BackAndThere(j) != j;
      KeyReencodesExactly(j);
    }
    forall k <- keys ensures IsStableKey(k) {
      assert k !in moved;
      KeyReencodesExactly(k);
    }
  }

  lemma CamelThenSnakeKeys(keys: set<string>)
    ensures Image(ToSnakeCaseKey, Image(ToCamelCaseKey, keys)) == Image(BackAndThere, keys)
  {
    hide ToSnakeCaseKey, ToCamelCaseKey;
    var camel := Image(ToCamelCaseKey, keys);
    forall k <- keys ensures BackAndThere(k) in Image(ToSnakeCaseKey, camel) { assert ToCamelCaseKey(k) in camel; }
    forall x <- camel ensures ToSnakeCaseKey(x) in Image(BackAndThere, keys) {
      var k :| k in keys && x == ToCamelCaseKey(k);
      assert ToSnakeCaseKey(x) == BackAndThere(k);
    }
  }

  // ---------- Trees ----------

  predicate HasStableKeys(value: Json)
    decreases value
  {
    match value
    case Arr(items) => forall i :: 0 <= i < |items| ==> HasStableKeys(items[i])
    case Obj(fields) => forall i :: 0 <= i < |fields| ==> IsStableKey(fields[i].key) && HasStableKeys(fields[i].value)
    case _ => true
  }

  predicate HasLowerKeys(value: Json)
    decreases value
  {
    match value
    case Arr(items) => forall i :: 0 <= i < |items| ==> HasLowerKeys(items[i])
    case Obj(fields) => forall i :: 0 <= i < |fields| ==> HasNoCapital(fields[i].key) && HasLowerKeys(fields[i].value)
    case _ => true
  }

  /** A tree as the encoder writes it. */
  predicate IsWrittenForm(leq: (string, string) -> bool, value: Json)
    decreases value
  {
    match value
    case Arr(items) => forall i :: 0 <= i < |items| ==> IsWrittenForm(leq, items[i])
    case Obj(fields) =>
      && DistinctKeys(fields) && (forall i, j :: 0 <= i < j < |fields| ==> leq(fields[i].key, fields[j].key))
      && forall i :: 0 <= i < |fields| ==> HasNoCapital(fields[i].key) && IsWrittenForm(leq, fields[i].value)
    case _ => true
  }

  function Reencoded(leq: (string, string) -> bool, value: Json): Json {
    EncodePayload(leq, DecodePayload(value))
  }

  lemma ReencodedObject(leq: (string, string) -> bool, fields: seq<Field>)
    ensures Reencoded(leq, Obj(fields))
         == Obj(SortedFields(leq, FromEntries(TransformFields(FromEntries(TransformFields(fields, ToCamelCaseKey)), ToSnakeCaseKey))))
  {
    hide SortedFields, TransformFields, FromEntries;
    ObjectSorts(leq, FromEntries(TransformFields(FromEntries(TransformFields(fields, ToCamelCaseKey)), ToSnakeCaseKey)));
  }

  lemma ReencodedItems(leq: (string, string) -> bool, items: seq<Json>)
    ensures Reencoded(leq, Arr(items)).Arr? && |Reencoded(leq, Arr(items)).items| == |items|
    ensures forall i :: 0 <= i < |items| ==> Reencoded(leq, Arr(items)).items[i] == Reencoded(leq, items[i])
  {
  }

  lemma {:induction false} ReencodedKeys(leq: (string, string) -> bool, fields: seq<Field>)
    requires Sorting.TotalOrder(leq)
    ensures Reencoded(leq, Obj(fields)).Obj?
    ensures Keys(Reencoded(leq, Obj(fields)).fields) == Image(BackAndThere, Keys(fields))
  {
    hide ToSnakeCaseKey, ToCamelCaseKey, TransformFields, FromEntries, SortedFields, BackAndThere, SortValues, Image;
    ReencodedObject(leq, fields);
    var camel := FromEntries(TransformFields(fields, ToCamelCaseKey));
    var snake := FromEntries(TransformFields(camel, ToSnakeCaseKey));
    RenamedKeys(fields, ToCamelCaseKey);
    RenamedKeys(camel, ToSnakeCaseKey);
    CamelThenSnakeKeys(Keys(fields));
    SortedFieldsFacts(leq, snake);
    SameKeys(snake, SortValues(leq, snake));
    assert Keys(SortedFields(leq, snake)) == Keys(SortValues(leq, snake));
  }

  /** With stable keys, re-encoding takes each field on its own and keeps the order. */
  lemma {:induction false} StableFieldsStay(leq: (string, string) -> bool, fields: seq<Field>)
    requires Sorting.TotalOrder(leq) && DistinctKeys(fields)
    requires forall i, j :: 0 <= i < j < |fields| ==> leq(fields[i].key, fields[j].key)
    requires forall i :: 0 <= i < |fields| ==> HasNoCapital(fields[i].key) && IsStableKey(fields[i].key)
    ensures Reencoded(leq, Obj(fields)).Obj? && |Reencoded(leq, Obj(fields)).fields| == |fields|
    ensures forall i :: 0 <= i < |fields| ==>
              Reencoded(leq, Obj(fields)).fields[i] == Field(fields[i].key, Reencoded(leq, fields[i].value))
  {
    hide ToSnakeCaseKey, ToCamelCaseKey, TransformKeys, TransformFields, FromEntries, SortedFields, SortValues, IsStableKey,
         HasNoCapital, SortJson, Sorting.Sort;
    forall i | 0 <= i < |fields| ensures ToSnakeCaseKey(ToCamelCaseKey(fields[i].key)) == fields[i].key {
      KeyReencodesExactly(fields[i].key);
    }
    var camel := TransformFields(fields, ToCamelCaseKey);
    CamelIsDistinct(fields);
    FromEntriesKeepsExactly(camel);
    var snake := TransformFields(camel, ToSnakeCaseKey);
    FromEntriesKeepsExactly(snake);
    ReencodedObject(leq, fields);
    var values := SortValues(leq, snake);
    SortedFieldsFacts(leq, snake);
    Sorting.SortedIsUnique((f: Field) => f.key, leq, SortedFields(leq, snake), values);
  }

  lemma CamelIsDistinct(fields: seq<Field>)
    requires DistinctKeys(fields)
    requires forall i :: 0 <= i < |fields| ==> ToSnakeCaseKey(ToCamelCaseKey(fields[i].key)) == fields[i].key
    ensures var camel := TransformFields(fields, ToCamelCaseKey);
            DistinctKeys(camel) && DistinctKeys(TransformFields(camel, ToSnakeCaseKey))
  {
    hide ToSnakeCaseKey, ToCamelCaseKey, TransformKeys;
  }

  /** A written tree re-encodes to itself exactly when its keys are stable at every depth. */
  lemma {:induction false} TreeReencodesExactly(leq: (string, string) -> bool, value: Json)
    requires Sorting.TotalOrder(leq) && IsWrittenForm(leq, value)
    ensures Reencoded(leq, value) == value <==> HasStableKeys(value)
    decreases value
  {
    hide Reencoded, IsStableKey, HasNoCapital;
    match value
    case Arr(items) =>
      ReencodedItems(leq, items);
      forall i | 0 <= i < |items| ensures Reencoded(leq, items[i]) == items[i] <==> HasStableKeys(items[i]) {
        TreeReencodesExactly(leq, items[i]);
      }
      if Reencoded(leq, value) == value {
        forall i | 0 <= i < |items| ensures HasStableKeys(items[i]) {
          assert Reencoded(leq, value).items[i] == items[i];
        }
      }
    case Obj(fields) =>
      forall i | 0 <= i < |fields| ensures Reencoded(leq, fields[i].value) == fields[i].value <==> HasStableKeys(fields[i].value) {
        TreeReencodesExactly(leq, fields[i].value);
      }
      ObjectReencodesExactly(leq, fields);
    case _ =>
      ScalarReencodes(leq, value);
  }

  lemma ScalarReencodes(leq: (string, string) -> bool, value: Json)
    requires !value.Arr? && !value.Obj?
    ensures Reencoded(leq, value) == value
  {
  }

  lemma ObjectReencodesExactly(leq: (string, string) -> bool, fields: seq<Field>)
    requires Sorting.TotalOrder(leq) && DistinctKeys(fields)
    requires forall i, j :: 0 <= i < j < |fields| ==> leq(fields[i].key, fields[j].key)
    requires forall i :: 0 <= i < |fields| ==> HasNoCapital(fields[i].key)
    ensures Reencoded(leq, Obj(fields)) == Obj(fields)
       <==> forall i :: 0 <= i < |fields| ==> IsStableKey(fields[i].key) && Reencoded(leq, fields[i].value) == fields[i].value
  {
    hide Reencoded, IsStableKey, HasNoCapital, BackAndThere;
    if Reencoded(leq, Obj(fields)) == Obj(fields) {
      ReencodedKeys(leq, fields);
      forall k <- Keys(fields) ensures HasNoCapital(k) {
        var f :| f in fields && f.key == k;
        var i :| 0 <= i < |fields| && fields[i] == f;
      }
      SameSetIsStable(Keys(fields));
      forall i | 0 <= i < |fields| ensures IsStableKey(fields[i].key) {
        assert fields[i] in fields && fields[i].key in Keys(fields);
      }
    }
    if forall i :: 0 <= i < |fields| ==> IsStableKey(fields[i].key) {
      StableFieldsStay(leq, fields);
      var again := Reencoded(leq, Obj(fields)).fields;
      if again == fields {
        forall i | 0 <= i < |fields| ensures Reencoded(leq, fields[i].value) == fields[i].value {
          assert again[i] == fields[i];
        }
      }
    }
  }

  /** What the encoder writes is in written form. */
  lemma {:induction false} SortedIsWritten(leq: (string, string) -> bool, value: Json)
    requires Sorting.TotalOrder(leq) && IsJsonValue(value) && HasLowerKeys(value)
    ensures IsWrittenForm(leq, SortJson(leq, value))
    decreases value
  {
    hide HasNoCapital;
    match value
    case Arr(items) =>
      forall i | 0 <= i < |items| ensures IsWrittenForm(leq, SortJson(leq, items[i])) { SortedIsWritten(leq, items[i]); }
    case Obj(fields) =>
      forall i | 0 <= i < |fields| ensures IsWrittenForm(leq, SortJson(leq, fields[i].value)) {
        SortedIsWritten(leq, fields[i].value);
      }
      SortedObjectIsWritten(leq, fields);
    case _ =>
  }

  lemma SortedObjectIsWritten(leq: (string, string) -> bool, fields: seq<Field>)
    requires Sorting.TotalOrder(leq) && DistinctKeys(fields)
    requires forall i :: 0 <= i < |fields| ==> HasNoCapital(fields[i].key) && IsWrittenForm(leq, SortJson(leq, fields[i].value))
    ensures IsWrittenForm(leq, SortJson(leq, Obj(fields)))
  {
    hide HasNoCapital, SortedFields, SortValues, SortJson;
    ObjectSorts(leq, fields);
    SortedFieldsFacts(leq, fields);
    var sorted, values := SortedFields(leq, fields), SortValues(leq, fields);
    forall i | 0 <= i < |sorted| ensures HasNoCapital(sorted[i].key) && IsWrittenForm(leq, sorted[i].value) {
      assert sorted[i] in values;
      var j :| 0 <= j < |values| && values[j] == sorted[i];
    }
  }

  lemma {:induction false} SnakeTreeIsLower(value: Json)
    ensures HasLowerKeys(ToSnake(value))
    decreases value
  {
    match value
    case Arr(items) => forall i | 0 <= i < |items| ensures HasLowerKeys(ToSnake(items[i])) { SnakeTreeIsLower(items[i]); }
    case Obj(fields) =>
      forall i | 0 <= i < |fields|
        ensures HasNoCapital(ToSnakeCaseKey(fields[i].key)) && HasLowerKeys(ToSnake(fields[i].value))
      {
        SnakeHasNoCapital(' ', fields[i].key);
        SnakeTreeIsLower(fields[i].value);
      }
      EntriesAreLower(TransformFields(fields, ToSnakeCaseKey));
    case _ =>
  }

  lemma {:induction false} EntriesAreLower(fields: seq<Field>)
    requires forall i :: 0 <= i < |fields| ==> HasNoCapital(fields[i].key) && HasLowerKeys(fields[i].value)
    ensures forall i :: 0 <= i < |FromEntries(fields)| ==>
              HasNoCapital(FromEntries(fields)[i].key) && HasLowerKeys(FromEntries(fields)[i].value)
    decreases |fields|
  {
    hide HasNoCapital;
    if fields != [] { EntriesAreLower(fields[..|fields| - 1]); }
  }

  /**
    Writing a payload, reading it and writing it again gives the same text if and only if every key it was written with
    is stable.
   */
  lemma PayloadReencodesExactly(leq: (string, string) -> bool, payload: Json)
    requires Sorting.TotalOrder(leq) && IsJsonValue(payload)
    ensures var written := EncodePayload(leq, payload);
            EncodePayload(leq, DecodePayload(written)) == written <==> HasStableKeys(written)
  {
    TransformKeepsShape(payload, ToSnakeCaseKey);
    SnakeTreeIsLower(payload);
    SortedIsWritten(leq, ToSnake(payload));
    TreeReencodesExactly(leq, EncodePayload(leq, payload));
  }

  /** A key of three words, the second of one letter, comes back with two. */
  lemma ShortWordsAreForgotten()
    ensures BackAndThere("a_b_c") == "a_bc" && !IsStableKey("a_b_c") && IsStableKey("ab_cd_ef")
  {
    assert ToCamelCaseKey("a_b_c") == "aBC" by {
      assert "a_b_c"[1..] == "_b_c" && "_b_c"[2..] == "_c" && "_c"[2..] == "";
    }
    assert "aBC"[1..] == "BC" && "BC"[1..] == "C" && "C"[1..] == "";
    assert "ab_cd_ef"[1..] == "b_cd_ef" && "b_cd_ef"[1..] == "_cd_ef" && "_cd_ef"[2..] == "d_ef" && "d_ef"[1..] == "_ef"
        && "_ef"[2..] == "f" && "f"[1..] == "";
  }
}
