/**
  Key transforms and key order of free-form JSON payloads (packages/json/src/codec.ts): camel case in memory, sorted
  snake case on disk.  Keys are ASCII here.
 */
module JsonKeys {
  import opened Wrappers
  import opened JsonValues

  // ---------- Keys ----------

  predicate IsUpper(c: char) { 'A' <= c <= 'Z' }

  predicate IsLowerOrDigit(c: char) { 'a' <= c <= 'z' || '0' <= c <= '9' }

  function ToLower(c: char): char {
    if IsUpper(c) then ((c as int) + 32) as char else c
  }

  function ToUpper(c: char): char {
    if 'a' <= c <= 'z' then ((c as int) - 32) as char else c
  }

  /** `toSnakeCaseKey` on the part of a key that follows the character `before`. */
  function SnakeAfter(before: char, s: string): string
    decreases |s|
  {
    if s == "" then ""
    else if IsUpper(s[0]) && IsLowerOrDigit(before) then ['_', ToLower(s[0])] + SnakeAfter(s[0], s[1..])
    else [ToLower(s[0])] + SnakeAfter(s[0], s[1..])
  }

  function ToSnakeCaseKey(key: string): string {
    SnakeAfter(' ', key)
  }

  function ToCamelCaseKey(key: string): string {
    if key == "" then ""
    else if |key| > 1 && key[0] == '_' && IsLowerOrDigit(key[1]) then [ToUpper(key[1])] + ToCamelCaseKey(key[2..])
    else [key[0]] + ToCamelCaseKey(key[1..])
  }

  /**
    Every capital follows a lower-case letter or digit, and no underscore precedes one.  (An underscore before a capital
    is excluded by the first half.)
   */
  predicate IsCamelKey(key: string) {
    && (forall i :: 0 <= i < |key| && IsUpper(key[i]) ==> i > 0 && IsLowerOrDigit(key[i - 1]))
    && (forall i :: 0 <= i < |key| - 1 && key[i] == '_' ==> !IsLowerOrDigit(key[i + 1]))
  }

  predicate IsCamelAfter(before: char, s: string)
    decreases |s|
  {
    s == "" ||
    (&& (IsUpper(s[0]) ==> IsLowerOrDigit(before))
     && (s[0] == '_' && |s| > 1 ==> !IsLowerOrDigit(s[1]))
     && IsCamelAfter(s[0], s[1..]))
  }

  function Previous(before: char, s: string, i: nat): char
    requires i < |s|
  {
    if i == 0 then before else s[i - 1]
  }

  predicate CapitalsFollow(before: char, s: string) {
    forall i :: 0 <= i < |s| && IsUpper(s[i]) ==> IsLowerOrDigit(Previous(before, s, i))
  }

  predicate UnderscoresEnd(s: string) {
    forall i :: 0 <= i < |s| - 1 && s[i] == '_' ==> !IsLowerOrDigit(s[i + 1])
  }

  lemma CapitalsStep(before: char, c: char, t: string)
    ensures CapitalsFollow(before, [c] + t) <==> (IsUpper(c) ==> IsLowerOrDigit(before)) && CapitalsFollow(c, t)
  {
    var s := [c] + t;
    if CapitalsFollow(before, s) {
      assert IsUpper(s[0]) ==> IsLowerOrDigit(Previous(before, s, 0));
      forall i | 0 <= i < |t| && IsUpper(t[i]) ensures IsLowerOrDigit(Previous(c, t, i)) {
        assert IsUpper(s[i + 1]) && Previous(before, s, i + 1) == Previous(c, t, i);
      }
    } else {
      var i :| 0 <= i < |s| && IsUpper(s[i]) && !IsLowerOrDigit(Previous(before, s, i));
      assert i > 0 ==> IsUpper(t[i - 1]) && Previous(before, s, i) == Previous(c, t, i - 1);
    }
  }

  lemma UnderscoresStep(c: char, t: string)
    ensures UnderscoresEnd([c] + t) <==> (c == '_' && t != "" ==> !IsLowerOrDigit(t[0])) && UnderscoresEnd(t)
  {
    var s := [c] + t;
    if UnderscoresEnd(s) {
      assert c == '_' && t != "" ==> s[0] == '_' && s[1] == t[0];
      forall i | 0 <= i < |t| - 1 && t[i] == '_' ensures !IsLowerOrDigit(t[i + 1]) {
        assert s[i + 1] == '_' && s[(i + 1) + 1] == t[i + 1];
      }
    }
  }

  lemma {:induction false} CamelAfterExactly(before: char, s: string)
    ensures IsCamelAfter(before, s) <==> CapitalsFollow(before, s) && UnderscoresEnd(s)
    decreases |s|
  {
    if s != "" {
      hide CapitalsFollow, UnderscoresEnd;
      CamelAfterExactly(s[0], s[1..]);
      assert s == [s[0]] + s[1..];
      CapitalsStep(before, s[0], s[1..]);
      UnderscoresStep(s[0], s[1..]);
    }
  }

  predicate IsJoined(c: char, t: string) {
    c == '_' && t != "" && (IsLowerOrDigit(t[0]) || IsUpper(t[0]))
  }

  /** The trip swallows an underscore before a letter or digit... */
  lemma TripOfJoined(before: char, t: string)
    requires IsJoined('_', t)
    ensures ToCamelCaseKey(SnakeAfter(before, ['_'] + t))
              == [ToUpper(ToLower(t[0]))] + ToCamelCaseKey(SnakeAfter(t[0], t[1..]))
  {
    var after := SnakeAfter(t[0], t[1..]);
    assert (['_'] + t)[1..] == t;
    assert SnakeAfter('_', t) == [ToLower(t[0])] + after;
    var snake := SnakeAfter(before, ['_'] + t);
    assert snake == ['_', ToLower(t[0])] + after && snake[2..] == after;
  }

  /** ... and otherwise changes at most a capital that follows nothing it can be told from. */
  lemma TripOfOther(before: char, c: char, t: string)
    requires !IsJoined(c, t)
    ensures ToCamelCaseKey(SnakeAfter(before, [c] + t))
              == [if IsUpper(c) && !IsLowerOrDigit(before) then ToLower(c) else c] + ToCamelCaseKey(SnakeAfter(c, t))
  {
    var rest := SnakeAfter(c, t);
    assert ([c] + t)[1..] == t;
    if IsUpper(c) && IsLowerOrDigit(before) {
      assert SnakeAfter(before, [c] + t)[2..] == rest && ToUpper(ToLower(c)) == c;
    } else {
      var snake := SnakeAfter(before, [c] + t);
      assert snake == [ToLower(c)] + rest && snake[1..] == rest;
      assert c == '_' && t != "" ==> rest[0] == ToLower(t[0]);
    }
  }

  lemma {:induction false} RoundTripAfter(before: char, s: string)
    ensures ToCamelCaseKey(SnakeAfter(before, s)) == s <==> IsCamelAfter(before, s)
    decreases |s|
  {
    if s != "" {
      hide SnakeAfter, ToCamelCaseKey;
      var c, t := s[0], s[1..];
      assert s == [c] + t;
      if IsJoined(c, t) {
        TripOfJoined(before, t);
      } else {
        RoundTripAfter(c, t);
        TripOfOther(before, c, t);
        PrependKeeps(c, ToCamelCaseKey(SnakeAfter(c, t)), t);
      }
    }
  }

  lemma PrependKeeps(c: char, a: string, b: string)
    ensures [c] + a == [c] + b <==> a == b
  {
    assert ([c] + a)[1..] == a && ([c] + b)[1..] == b;
  }

  /** A key survives the trip to disk and back exactly when it is in camel case. */
  lemma KeyRoundTripExactly(key: string)
    ensures ToCamelCaseKey(ToSnakeCaseKey(key)) == key <==> IsCamelKey(key)
  {
    RoundTripAfter(' ', key);
    CamelAfterExactly(' ', key);
  }

  // ---------- Trees ----------

  predicate DistinctKeys(fields: seq<Field>) {
    forall i, j :: 0 <= i < j < |fields| ==> fields[i].key != fields[j].key
  }

  /** `Object.fromEntries`: a repeated key keeps its first place and takes the last value. */
  function FromEntries(fields: seq<Field>): (r: seq<Field>)
    ensures |r| <= |fields| && DistinctKeys(r) && Keys(r) == Keys(fields)
    decreases |fields|
  {
    if fields == [] then []
    else
      var rest, last := FromEntries(fields[..|fields| - 1]), fields[|fields| - 1];
      AddedKey(fields[..|fields| - 1], last);
      AddedKey(rest, last);
      assert fields == fields[..|fields| - 1] + [last];
      if last.key in Keys(rest) then Replace(rest, last) else rest + [last]
  }

  /** Fields are lost exactly when two keys meet. */
  lemma {:induction false} FromEntriesKeepsExactly(fields: seq<Field>)
    ensures |FromEntries(fields)| == |fields| <==> DistinctKeys(fields)
    ensures DistinctKeys(fields) ==> FromEntries(fields) == fields
    decreases |fields|
  {
    hide DistinctKeys, Keys, Replace;
    if fields == [] {
      NothingIsDistinct();
    } else {
      var rest, last := fields[..|fields| - 1], fields[|fields| - 1];
      FromEntriesKeepsExactly(rest);
      assert fields == rest + [last];
      AddedKey(rest, last);
    }
  }

  lemma NothingIsDistinct()
    ensures DistinctKeys([])
  {
  }

  function Keys(fields: seq<Field>): set<string> {
    set f <- fields :: f.key
  }

  lemma {:induction false} GetMeansKey(fields: seq<Field>, key: string)
    ensures Get(fields, key).Some? <==> key in Keys(fields)
    ensures Get(fields, key).Some? ==> exists i :: 0 <= i < |fields| && fields[i] == Field(key, Get(fields, key).value)
    decreases |fields|
  {
    if fields != [] {
      GetMeansKey(fields[1..], key);
      assert fields == [fields[0]] + fields[1..];
      if fields[0].key != key && Get(fields[1..], key).Some? {
        var i :| 0 <= i < |fields[1..]| && fields[1..][i] == Field(key, Get(fields, key).value);
        assert fields[i + 1] == fields[1..][i];
      } else if fields[0].key == key {
        assert fields[0] == Field(key, Get(fields, key).value);
      }
    }
  }

  lemma AddedKey(fields: seq<Field>, last: Field)
    ensures Keys(fields + [last]) == Keys(fields) + {last.key}
    ensures DistinctKeys(fields + [last]) <==> DistinctKeys(fields) && last.key !in Keys(fields)
  {
    var more := fields + [last];
    if DistinctKeys(more) {
      forall i, j | 0 <= i < j < |fields| ensures fields[i].key != fields[j].key { assert more[i].key != more[j].key; }
      forall f <- fields ensures f.key != last.key {
        var i :| 0 <= i < |fields| && fields[i] == f;
        assert more[i].key != more[|fields|].key;
      }
    } else {
      var i, j :| 0 <= i < j < |more| && more[i].key == more[j].key;
      assert j == |fields| ==> fields[i].key in Keys(fields);
    }
  }

  lemma SameKeys(a: seq<Field>, b: seq<Field>)
    requires |a| == |b| && forall i :: 0 <= i < |a| ==> a[i].key == b[i].key
    ensures Keys(a) == Keys(b)
  {
    forall key ensures key in Keys(a) <==> key in Keys(b) {
      if f :| f in a && f.key == key { var i :| 0 <= i < |a| && a[i] == f; assert b[i] in b; }
      if f :| f in b && f.key == key { var i :| 0 <= i < |b| && b[i] == f; assert a[i] in a; }
    }
  }

  function Replace(fields: seq<Field>, field: Field): (r: seq<Field>)
    ensures |r| == |fields|
    ensures forall i :: 0 <= i < |fields| ==> r[i].key == fields[i].key
    ensures Keys(r) == Keys(fields) && (DistinctKeys(fields) ==> DistinctKeys(r))
  {
    SameKeys(fields, seq(|fields|, i requires 0 <= i < |fields| => if fields[i].key == field.key then field else fields[i]));
    seq(|fields|, i requires 0 <= i < |fields| => if fields[i].key == field.key then field else fields[i])
  }

  function TransformKeys(value: Json, f: string -> string): Json
    decreases value
  {
    match value
    case Arr(items) => Arr(TransformItems(items, f))
    case Obj(fields) => Obj(FromEntries(TransformFields(fields, f)))
    case _ => value
  }

  function TransformItems(items: seq<Json>, f: string -> string): (r: seq<Json>)
    ensures |r| == |items|
    ensures forall i :: 0 <= i < |items| ==> r[i] == TransformKeys(items[i], f)
    decreases items
  {
    if items == [] then [] else [TransformKeys(items[0], f)] + TransformItems(items[1..], f)
  }

  function TransformFields(fields: seq<Field>, f: string -> string): (r: seq<Field>)
    ensures |r| == |fields|
    ensures forall i :: 0 <= i < |fields| ==> r[i] == Field(f(fields[i].key), TransformKeys(fields[i].value, f))
    decreases fields
  {
    if fields == [] then []
    else [Field(f(fields[0].key), TransformKeys(fields[0].value, f))] + TransformFields(fields[1..], f)
  }

  function ToSnake(value: Json): Json { TransformKeys(value, ToSnakeCaseKey) }

  function ToCamel(value: Json): Json { TransformKeys(value, ToCamelCaseKey) }

  /** No object has a key twice; every value the engine builds is like that. */
  predicate IsJsonValue(value: Json)
    decreases value
  {
    match value
    case Arr(items) => forall i :: 0 <= i < |items| ==> IsJsonValue(items[i])
    case Obj(fields) => DistinctKeys(fields) && forall i :: 0 <= i < |fields| ==> IsJsonValue(fields[i].value)
    case _ => true
  }

  predicate HasCamelKeys(value: Json)
    decreases value
  {
    match value
    case Arr(items) => forall i :: 0 <= i < |items| ==> HasCamelKeys(items[i])
    case Obj(fields) => forall i :: 0 <= i < |fields| ==> IsCamelKey(fields[i].key) && HasCamelKeys(fields[i].value)
    case _ => true
  }

  lemma {:induction false} TransformKeepsShape(value: Json, f: string -> string)
    ensures IsJsonValue(TransformKeys(value, f))
    decreases value
  {
    match value
    case Arr(items) =>
      forall i | 0 <= i < |items| ensures IsJsonValue(TransformKeys(items[i], f)) { TransformKeepsShape(items[i], f); }
    case Obj(fields) =>
      forall i | 0 <= i < |fields| ensures IsJsonValue(TransformKeys(fields[i].value, f)) {
        TransformKeepsShape(fields[i].value, f);
      }
      FromEntriesKeepsValues(TransformFields(fields, f));
    case _ =>
  }

  lemma {:induction false} FromEntriesKeepsValues(fields: seq<Field>)
    requires forall i :: 0 <= i < |fields| ==> IsJsonValue(fields[i].value)
    ensures forall i :: 0 <= i < |FromEntries(fields)| ==> IsJsonValue(FromEntries(fields)[i].value)
    decreases |fields|
  {
    if fields != [] { FromEntriesKeepsValues(fields[..|fields| - 1]); }
  }

  /** Camel-case siblings never collide on disk, so encoding loses no field. */
  lemma NoCollisions(fields: seq<Field>)
    requires DistinctKeys(fields) && forall i :: 0 <= i < |fields| ==> IsCamelKey(fields[i].key)
    ensures DistinctKeys(TransformFields(fields, ToSnakeCaseKey))
    ensures FromEntries(TransformFields(fields, ToSnakeCaseKey)) == TransformFields(fields, ToSnakeCaseKey)
  {
    forall i | 0 <= i < |fields| ensures ToCamelCaseKey(ToSnakeCaseKey(fields[i].key)) == fields[i].key {
      KeyRoundTripExactly(fields[i].key);
    }
    FromEntriesKeepsExactly(TransformFields(fields, ToSnakeCaseKey));
  }

  /** A payload survives the trip exactly when all its keys, at every depth, are in camel case. */
  lemma {:induction false} TreeRoundTripExactly(value: Json)
    requires IsJsonValue(value)
    ensures ToCamel(ToSnake(value)) == value <==> HasCamelKeys(value)
    decreases value
  {
    match value
    case Arr(items) =>
      forall i | 0 <= i < |items| ensures ToCamel(ToSnake(items[i])) == items[i] <==> HasCamelKeys(items[i]) {
        TreeRoundTripExactly(items[i]);
      }
    case Obj(fields) =>
      forall i | 0 <= i < |fields|
        ensures ToCamel(ToSnake(fields[i].value)) == fields[i].value <==> HasCamelKeys(fields[i].value)
      {
        TreeRoundTripExactly(fields[i].value);
      }
      FieldsRoundTripExactly(fields);
    case _ =>
  }

  lemma FieldsRoundTripExactly(fields: seq<Field>)
    requires DistinctKeys(fields)
    ensures ToCamel(ToSnake(Obj(fields))) == Obj(fields)
       <==> forall i :: 0 <= i < |fields| ==>
              IsCamelKey(fields[i].key) && ToCamel(ToSnake(fields[i].value)) == fields[i].value
  {
    hide IsCamelKey, ToSnakeCaseKey, ToCamelCaseKey, FromEntries, TransformFields;
    var snake := TransformFields(fields, ToSnakeCaseKey);
    var camel := TransformFields(FromEntries(snake), ToCamelCaseKey);
    if forall i :: 0 <= i < |fields| ==> IsCamelKey(fields[i].key) && ToCamel(ToSnake(fields[i].value)) == fields[i].value {
      NoCollisions(fields);
      forall i | 0 <= i < |fields| ensures camel[i] == fields[i] { KeyRoundTripExactly(fields[i].key); }
      assert camel == fields;
      FromEntriesKeepsExactly(camel);
    }
    if FromEntries(camel) == fields {
      NothingWasLost(fields, snake, camel);
    }
  }

  /** If the fields come back, no two of them can have met on the way, so each came back by itself. */
  lemma NothingWasLost(fields: seq<Field>, snake: seq<Field>, camel: seq<Field>)
    requires snake == TransformFields(fields, ToSnakeCaseKey)
    requires camel == TransformFields(FromEntries(snake), ToCamelCaseKey)
    requires FromEntries(camel) == fields
    ensures forall i :: 0 <= i < |fields| ==> IsCamelKey(fields[i].key) && ToCamel(ToSnake(fields[i].value)) == fields[i].value
  {
    hide IsCamelKey, ToSnakeCaseKey, ToCamelCaseKey, FromEntries, TransformFields;
    FromEntriesKeepsExactly(snake);
    FromEntriesKeepsExactly(camel);
    forall i | 0 <= i < |fields|
      ensures IsCamelKey(fields[i].key) && ToCamel(ToSnake(fields[i].value)) == fields[i].value
    {
      assert camel[i] == fields[i];
      KeyRoundTripExactly(fields[i].key);
    }
  }
}
