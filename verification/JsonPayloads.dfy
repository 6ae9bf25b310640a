/** Payload encoding (packages/json/src/codec.ts) loses or changes something unless every key is in camel case. */
module JsonPayloads {
  import opened JsonValues
  import opened JsonKeys
  import opened JsonOrder
  import Sorting

  function ThereAndBack(key: string): string {
    ToCamelCaseKey(ToSnakeCaseKey(key))
  }

  /** A character weighs two, a capital three: the trip never adds weight. */
  function Weight(s: string): nat {
    if s == "" then 0 else (if IsUpper(s[0]) then 3 else 2) + Weight(s[1..])
  }

  lemma {:induction false} TripLosesWeight(before: char, s: string)
    ensures var r := ToCamelCaseKey(SnakeAfter(before, s));
            Weight(r) <= Weight(s) && (r != s ==> Weight(r) < Weight(s))
    decreases |s|
  {
    if s != "" {
      hide SnakeAfter, ToCamelCaseKey;
      var c, t := s[0], s[1..];
      assert s == [c] + t;
      if IsJoined(c, t) {
        TripLosesWeight(t[0], t[1..]);
        TripOfJoined(before, t);
        HeadWeighs(ToUpper(ToLower(t[0])), ToCamelCaseKey(SnakeAfter(t[0], t[1..])));
      } else {
        TripLosesWeight(c, t);
        TripOfOther(before, c, t);
        HeadWeighs(if IsUpper(c) && !IsLowerOrDigit(before) then ToLower(c) else c, ToCamelCaseKey(SnakeAfter(c, t)));
      }
    }
  }

  lemma HeadWeighs(c: char, s: string)
    ensures Weight([c] + s) == (if IsUpper(c) then 3 else 2) + Weight(s)
  {
    assert ([c] + s)[1..] == s;
  }

  lemma {:induction false} SomeIsHeaviest(keys: set<string>) returns (heaviest: string)
    requires keys != {}
    ensures heaviest in keys && forall k <- keys :: Weight(k) <= Weight(heaviest)
    decreases |keys|
  {
    var k :| k in keys;
    heaviest := k;
    if keys != {k} {
      var rest := SomeIsHeaviest(keys - {k});
      heaviest := if Weight(rest) >= Weight(k) then rest else k;
    }
  }

  /** Keys that come back as the same set came back one by one. */
  lemma SameKeysAreFixed(keys: set<string>)
    requires Image(ThereAndBack, keys) == keys
    ensures forall k <- keys :: ThereAndBack(k) == k
  {
    hide ThereAndBack;
    var moved := set k <- keys | ThereAndBack(k) != k;
    if moved != {} {
      var heaviest := SomeIsHeaviest(moved);
      assert heaviest in Image(ThereAndBack, keys);
      var j :| j in keys && ThereAndBack(j) == heaviest;
      assert j in moved <==> ThereAndBack(j) != j;
      MovedKeyIsLighter(j);
    }
    forall k <- keys ensures ThereAndBack(k) == k { assert k !in moved; }
  }

  lemma MovedKeyIsLighter(key: string)
    ensures ThereAndBack(key) != key ==> Weight(ThereAndBack(key)) < Weight(key)
  {
    TripLosesWeight(' ', key);
  }

  lemma SnakeThenCamelKeys(keys: set<string>)
    ensures Image(ToCamelCaseKey, Image(ToSnakeCaseKey, keys)) == Image(ThereAndBack, keys)
  {
    hide ToSnakeCaseKey, ToCamelCaseKey;
    var snake := Image(ToSnakeCaseKey, keys);
    forall k <- keys ensures ThereAndBack(k) in Image(ToCamelCaseKey, snake) { assert ToSnakeCaseKey(k) in snake; }
    forall x <- snake ensures ToCamelCaseKey(x) in Image(ThereAndBack, keys) {
      var k :| k in keys && x == ToSnakeCaseKey(k);
      assert ToCamelCaseKey(x) == ThereAndBack(k);
    }
  }

  /** The keys of an object after the trip. */
  lemma {:induction false} KeysAfterTrip(leq: (string, string) -> bool, fields: seq<Field>)
    requires Sorting.TotalOrder(leq)
    ensures var snake := FromEntries(TransformFields(fields, ToSnakeCaseKey));
            Keys(FromEntries(TransformFields(SortedFields(leq, snake), ToCamelCaseKey)))
              == Image(ThereAndBack, Keys(fields))
  {
    hide ToSnakeCaseKey, ToCamelCaseKey, TransformFields, FromEntries, SortedFields, ThereAndBack, SortValues, Image;
    var snake := FromEntries(TransformFields(fields, ToSnakeCaseKey));
    RenamedKeys(fields, ToSnakeCaseKey);
    SortedFieldsFacts(leq, snake);
    SameKeys(snake, SortValues(leq, snake));
    assert Keys(SortedFields(leq, snake)) == Keys(SortValues(leq, snake));
    RenamedKeys(SortedFields(leq, snake), ToCamelCaseKey);
    SnakeThenCamelKeys(Keys(fields));
  }

  /** With camel-case keys, the trip takes each field on its own. */
  lemma {:induction false} FieldAfterTrip(leq: (string, string) -> bool, fields: seq<Field>, i: nat)
    requires Sorting.TotalOrder(leq) && DistinctKeys(fields) && i < |fields|
    requires forall j :: 0 <= j < |fields| ==> IsCamelKey(fields[j].key)
    ensures DecodePayload(EncodePayload(leq, Obj(fields))).Obj?
    ensures Field(fields[i].key, DecodePayload(EncodePayload(leq, fields[i].value)))
              in DecodePayload(EncodePayload(leq, Obj(fields))).fields
  {
    hide ToSnakeCaseKey, ToCamelCaseKey, IsCamelKey, SortedFields, TransformFields, FromEntries, SortValues, DistinctKeys;
    NoCollisions(fields);
    var snake := TransformFields(fields, ToSnakeCaseKey);
    ObjectSorts(leq, snake);
    var sorted := SortedFields(leq, snake);
    SortedFieldsFacts(leq, snake);
    CamelStaysApart(leq, fields, sorted);
    FromEntriesKeepsExactly(TransformFields(sorted, ToCamelCaseKey));
    FieldIsRenamed(leq, fields, sorted, i);
  }

  lemma {:induction false} FieldIsRenamed(leq: (string, string) -> bool, fields: seq<Field>, sorted: seq<Field>, i: nat)
    requires i < |fields| && IsCamelKey(fields[i].key)
    requires forall f :: f in sorted <==> f in SortValues(leq, TransformFields(fields, ToSnakeCaseKey))
    ensures Field(fields[i].key, DecodePayload(EncodePayload(leq, fields[i].value)))
              in TransformFields(sorted, ToCamelCaseKey)
  {
    hide ToSnakeCaseKey, ToCamelCaseKey, IsCamelKey, TransformKeys, SortJson, TransformFields, SortValues;
    var field := SortValues(leq, TransformFields(fields, ToSnakeCaseKey))[i];
    assert field in sorted;
    var j :| 0 <= j < |sorted| && sorted[j] == field;
    KeyRoundTripExactly(fields[i].key);
    assert TransformFields(sorted, ToCamelCaseKey)[j]
        == Field(fields[i].key, DecodePayload(EncodePayload(leq, fields[i].value)));
  }

  lemma {:induction false} CamelStaysApart(leq: (string, string) -> bool, fields: seq<Field>, sorted: seq<Field>)
    requires DistinctKeys(sorted) && forall j :: 0 <= j < |fields| ==> IsCamelKey(fields[j].key)
    requires forall f :: f in sorted <==> f in SortValues(leq, TransformFields(fields, ToSnakeCaseKey))
    ensures DistinctKeys(TransformFields(sorted, ToCamelCaseKey))
  {
    hide ToSnakeCaseKey, ToCamelCaseKey, IsCamelKey, SortJson, TransformKeys;
    var values := SortValues(leq, TransformFields(fields, ToSnakeCaseKey));
    forall i | 0 <= i < |sorted| ensures ToSnakeCaseKey(ToCamelCaseKey(sorted[i].key)) == sorted[i].key {
      assert sorted[i] in values;
      var j :| 0 <= j < |values| && values[j] == sorted[i];
      KeyRoundTripExactly(fields[j].key);
    }
  }

  /** A payload comes back with the same content exactly when all its keys, at every depth, are in camel case. */
  lemma {:induction false} PayloadRoundTripExactly(leq: (string, string) -> bool, payload: Json)
    requires Sorting.TotalOrder(leq) && IsJsonValue(payload)
    ensures SameValue(DecodePayload(EncodePayload(leq, payload)), payload) <==> HasCamelKeys(payload)
    decreases payload
  {
    hide IsCamelKey, ToSnakeCaseKey, ToCamelCaseKey, Sorting.Sort;
    if HasCamelKeys(payload) { PayloadRoundTrip(leq, payload); }
    if SameValue(DecodePayload(EncodePayload(leq, payload)), payload) {
      match payload
      case Arr(items) =>
        forall i | 0 <= i < |items| ensures HasCamelKeys(items[i]) {
          PayloadRoundTripExactly(leq, items[i]);
          var there := EncodePayload(leq, payload);
          assert DecodePayload(there).items[i] == DecodePayload(EncodePayload(leq, items[i]));
        }
      case Obj(fields) =>
        ObjectNeedsCamelKeys(leq, fields);
        forall i | 0 <= i < |fields| ensures HasCamelKeys(fields[i].value) {
          PayloadRoundTripExactly(leq, fields[i].value);
        }
      case _ =>
    }
  }

  lemma ObjectNeedsCamelKeys(leq: (string, string) -> bool, fields: seq<Field>)
    requires Sorting.TotalOrder(leq) && DistinctKeys(fields)
    requires SameValue(DecodePayload(EncodePayload(leq, Obj(fields))), Obj(fields))
    ensures forall i :: 0 <= i < |fields| ==>
              IsCamelKey(fields[i].key) && SameValue(DecodePayload(EncodePayload(leq, fields[i].value)), fields[i].value)
  {
    hide IsCamelKey, ToSnakeCaseKey, ToCamelCaseKey, SortedFields;
    var snake := FromEntries(TransformFields(fields, ToSnakeCaseKey));
    ObjectSorts(leq, snake);
    KeysAfterTrip(leq, fields);
    SameKeysAreFixed(Keys(fields));
    forall i | 0 <= i < |fields| ensures IsCamelKey(fields[i].key) {
      assert fields[i] in fields && fields[i].key in Keys(fields);
      KeyRoundTripExactly(fields[i].key);
    }
    forall i | 0 <= i < |fields|
      ensures SameValue(DecodePayload(EncodePayload(leq, fields[i].value)), fields[i].value)
    {
      FieldAfterTrip(leq, fields, i);
    }
  }
}
