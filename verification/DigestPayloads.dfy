/**
  The payload of an operation digest (packages/json/src/codec.ts).  It is written like event metadata, but reading it adds
  the lists that older gate snapshots lack.
 */
module DigestPayloads {
  import opened Wrappers
  import opened JsonValues
  import opened JsonKeys
  import opened JsonOrder
  import opened JsonPayloads
  import opened JsonReencoding
  import Sorting

  // ---------- Completing a gate snapshot ----------

  /** `fields[key] = value`: a new key goes to the end. */
  function SetField(fields: seq<Field>, key: string, value: Json): seq<Field> {
    if key in Keys(fields) then Replace(fields, Field(key, value)) else fields + [Field(key, value)]
  }

  predicate HasList(fields: seq<Field>, key: string) {
    Get(fields, key).Some? && !Get(fields, key).value.Null?
  }

  /** `fields[key] ??= []`. */
  function WithList(fields: seq<Field>, key: string): seq<Field> {
    if HasList(fields, key) then fields else SetField(fields, key, Arr([]))
  }

  function WithLists(fields: seq<Field>, list: string): seq<Field> {
    WithList(WithList(fields, list), BLOCKED)
  }

  const GATE := "gateSnapshot"
  const CLOSE_GATE := "ordinaryCloseGate"
  const DUE := "dueDeferredIds"
  const UNRESOLVED := "unresolvedDeferredIds"
  const BLOCKED := "blockedConstraintIds"

  function CompletedGate(gate: seq<Field>): seq<Field> {
    var kind := StringField(Obj(gate), "kind");
    if kind == Some("start") then WithLists(gate, DUE)
    else if kind == Some("close") then WithLists(gate, UNRESOLVED)
    else if kind == Some("shutdown") then
      var close := Get(gate, CLOSE_GATE);
      if close.Some? && close.value.Obj? then SetField(gate, CLOSE_GATE, Obj(WithLists(close.value.fields, UNRESOLVED)))
      else gate
    else gate
  }

  function Completed(payload: Json): Json {
    if !payload.Obj? then payload
    else
      var gate := Get(payload.fields, GATE);
      if gate.Some? && gate.value.Obj? then Obj(SetField(payload.fields, GATE, Obj(CompletedGate(gate.value.fields))))
      else payload
  }

  /** Both lists are there. */
  predicate HasLists(fields: seq<Field>, list: string) {
    HasList(fields, list) && HasList(fields, BLOCKED)
  }

  predicate IsCompleteGate(gate: seq<Field>) {
    var kind := StringField(Obj(gate), "kind");
    if kind == Some("start") then HasLists(gate, DUE)
    else if kind == Some("close") then HasLists(gate, UNRESOLVED)
    else if kind == Some("shutdown") then
      var close := Get(gate, CLOSE_GATE);
      close.Some? && close.value.Obj? ==> HasLists(close.value.fields, UNRESOLVED)
    else true
  }

  /** The gate snapshot, if the payload has one, has the lists of its kind. */
  predicate IsComplete(payload: Json) {
    payload.Obj? ==>
      var gate := Get(payload.fields, GATE);
      gate.Some? && gate.value.Obj? ==> IsCompleteGate(gate.value.fields)
  }

  // ---------- Fields ----------

  lemma GetIsField(fields: seq<Field>, f: Field)
    requires DistinctKeys(fields) && f in fields
    ensures Get(fields, f.key) == Some(f.value)
  {
    GetMeansKey(fields, f.key);
    assert f.key in Keys(fields);
    var i :| 0 <= i < |fields| && fields[i] == Field(f.key, Get(fields, f.key).value);
    var j :| 0 <= j < |fields| && fields[j] == f;
  }

  lemma SetFieldFacts(fields: seq<Field>, key: string, value: Json)
    requires DistinctKeys(fields)
    ensures var r := SetField(fields, key, value);
            && DistinctKeys(r) && Keys(r) == Keys(fields) + {key}
            && Get(r, key) == Some(value) && forall k :: k != key ==> Get(r, k) == Get(fields, k)
  {
    hide Get, Keys;
    var r := SetField(fields, key, value);
    AddedKey(fields, Field(key, value));
    assert Field(key, value) in r by {
      if key in Keys(fields) { GetMeansKey(fields, key); }
    }
    GetIsField(r, Field(key, value));
    forall k | k != key ensures Get(r, k) == Get(fields, k) { OthersStay(fields, r, key, k); }
  }

  lemma OthersStay(fields: seq<Field>, r: seq<Field>, key: string, k: string)
    requires DistinctKeys(fields) && DistinctKeys(r) && k != key
    requires forall f: Field :: f.key != key ==> (f in r <==> f in fields)
    ensures Get(r, k) == Get(fields, k)
  {
    hide Get, Keys, DistinctKeys;
    GetMeansKey(fields, k);
    GetMeansKey(r, k);
    if Get(fields, k).Some? {
      var f := Field(k, Get(fields, k).value);
      assert f in r;
      GetIsField(r, f);
    }
    if Get(r, k).Some? {
      var f := Field(k, Get(r, k).value);
      assert f in fields;
      GetIsField(fields, f);
    }
  }

  lemma SameObjectsExactly(fs: seq<Field>, gs: seq<Field>)
    requires DistinctKeys(fs) && DistinctKeys(gs)
    ensures SameValue(Obj(fs), Obj(gs)) <==>
              && Keys(fs) == Keys(gs)
              && forall k <- Keys(fs) :: SameValue(Get(fs, k).GetOr(Null), Get(gs, k).GetOr(Null))
  {
    hide Get, DistinctKeys;
    if SameValue(Obj(fs), Obj(gs)) {
      forall k <- Keys(fs) ensures SameValue(Get(fs, k).GetOr(Null), Get(gs, k).GetOr(Null)) {
        GetMeansKey(fs, k);
        GetMeansKey(gs, k);
      }
    }
    if Keys(fs) == Keys(gs) && forall k <- Keys(fs) :: SameValue(Get(fs, k).GetOr(Null), Get(gs, k).GetOr(Null)) {
      forall i, j | 0 <= i < |fs| && 0 <= j < |gs| && fs[i].key == gs[j].key ensures SameValue(fs[i].value, gs[j].value) {
        GetIsField(fs, fs[i]);
        GetIsField(gs, gs[j]);
        assert fs[i].key in Keys(fs);
      }
    }
  }

  lemma SameField(fs: seq<Field>, gs: seq<Field>, k: string)
    requires DistinctKeys(fs) && DistinctKeys(gs) && SameValue(Obj(fs), Obj(gs))
    ensures Get(fs, k).Some? <==> Get(gs, k).Some?
    ensures Get(fs, k).Some? ==> SameValue(Get(fs, k).value, Get(gs, k).value)
  {
    hide Get, DistinctKeys, SameValue;
    SameObjectsExactly(fs, gs);
    GetMeansKey(fs, k);
    GetMeansKey(gs, k);
  }

  lemma FieldIsValue(fields: seq<Field>, k: string)
    requires IsJsonValue(Obj(fields))
    ensures DistinctKeys(fields) && (Get(fields, k).Some? ==> IsJsonValue(Get(fields, k).value))
  {
    GetMeansKey(fields, k);
  }

  lemma WithListsFacts(fields: seq<Field>, list: string)
    requires DistinctKeys(fields) && list != BLOCKED
    ensures var r := WithLists(fields, list);
            && DistinctKeys(r) && Keys(r) == Keys(fields) + {list, BLOCKED} && HasLists(r, list)
            && (forall k :: k !in {list, BLOCKED} ==> Get(r, k) == Get(fields, k))
            && (forall k :: k in {list, BLOCKED} ==>
                  Get(r, k) == Some(if HasList(fields, k) then Get(fields, k).value else Arr([])))
    ensures HasLists(fields, list) ==> WithLists(fields, list) == fields
  {
    hide SetField, Get, Keys, DistinctKeys;
    forall k ensures HasList(fields, k) ==> k in Keys(fields) { GetMeansKey(fields, k); }
    SetFieldFacts(fields, list, Arr([]));
    var once := WithList(fields, list);
    forall k ensures HasList(once, k) ==> k in Keys(once) { GetMeansKey(once, k); }
    SetFieldFacts(once, BLOCKED, Arr([]));
  }

  /** `??= []`: what is missing or null becomes the empty list. */
  function Filled(value: Option<Json>): Option<Json> {
    if value == None || value == Some(Null) then Some(Arr([])) else value
  }

  /** The lists are filled, and every other field is as it was. */
  ghost predicate HasFilled(after: seq<Field>, before: seq<Field>, lists: set<string>) {
    forall key :: Get(after, key) == if key in lists then Filled(Get(before, key)) else Get(before, key)
  }

  lemma ListsAreFilled(fields: seq<Field>, list: string)
    requires DistinctKeys(fields) && list != BLOCKED
    ensures HasFilled(WithLists(fields, list), fields, {list, "blockedConstraintIds"})
  {
    hide Get, WithLists, Keys;
    WithListsFacts(fields, list);
    forall k ensures HasList(fields, k) <==> Filled(Get(fields, k)) == Get(fields, k) && Get(fields, k) != None {
    }
  }

  /**
    What reading makes of a gate snapshot: the two lists of a start or of a close gate are filled, those of the close gate
    inside a shutdown gate as well, and nothing else changes.
   */
  lemma GateIsFilled(gate: seq<Field>)
    requires IsJsonValue(Obj(gate))
    ensures StringField(Obj(gate), "kind") == Some("start") ==>
              HasFilled(CompletedGate(gate), gate, {"dueDeferredIds", "blockedConstraintIds"})
    ensures StringField(Obj(gate), "kind") == Some("close") ==>
              HasFilled(CompletedGate(gate), gate, {"unresolvedDeferredIds", "blockedConstraintIds"})
    ensures forall close: seq<Field> ::
              StringField(Obj(gate), "kind") == Some("shutdown") && Get(gate, "ordinaryCloseGate") == Some(Obj(close)) ==>
                exists filled: seq<Field> ::
                  && HasFilled(filled, close, {"unresolvedDeferredIds", "blockedConstraintIds"})
                  && Get(CompletedGate(gate), "ordinaryCloseGate") == Some(Obj(filled))
                  && forall key :: key != "ordinaryCloseGate" ==> Get(CompletedGate(gate), key) == Get(gate, key)
    ensures StringField(Obj(gate), "kind") !in {Some("start"), Some("close"), Some("shutdown")} ==> CompletedGate(gate) == gate
  {
    hide HasFilled, WithLists;
    var kind := StringField(Obj(gate), "kind");
    assert DistinctKeys(gate);
    ListsAreFilled(gate, DUE);
    ListsAreFilled(gate, UNRESOLVED);
    forall close: seq<Field> | kind == Some("shutdown") && Get(gate, "ordinaryCloseGate") == Some(Obj(close))
      ensures exists filled: seq<Field> ::
                && HasFilled(filled, close, {"unresolvedDeferredIds", "blockedConstraintIds"})
                && Get(CompletedGate(gate), "ordinaryCloseGate") == Some(Obj(filled))
                && forall key :: key != "ordinaryCloseGate" ==> Get(CompletedGate(gate), key) == Get(gate, key)
    {
      FieldIsValue(gate, "ordinaryCloseGate");
      assert DistinctKeys(close) by { FieldIsValueObj(Obj(close)); }
      ListsAreFilled(close, UNRESOLVED);
      SetFieldFacts(gate, CLOSE_GATE, Obj(WithLists(close, UNRESOLVED)));
      var filled := WithLists(close, UNRESOLVED);
      assert CompletedGate(gate) == SetField(gate, CLOSE_GATE, Obj(filled));
    }
  }

  /** Only the gate snapshot of a payload changes, and only if it is an object. */
  lemma PayloadIsFilled(payload: Json)
    requires IsJsonValue(payload)
    ensures payload.Obj? && (exists gate :: Get(payload.fields, "gateSnapshot") == Some(Obj(gate))) ==>
              && Completed(payload).Obj?
              && Get(Completed(payload).fields, "gateSnapshot")
                 == Some(Obj(CompletedGate(Get(payload.fields, "gateSnapshot").value.fields)))
              && forall key :: key != "gateSnapshot" ==> Get(Completed(payload).fields, key) == Get(payload.fields, key)
    ensures !(payload.Obj? && exists gate :: Get(payload.fields, "gateSnapshot") == Some(Obj(gate))) ==> Completed(payload) == payload
  {
    hide CompletedGate, Get;
    if payload.Obj? {
      var gate := Get(payload.fields, GATE);
      if gate.Some? && gate.value.Obj? {
        assert gate == Some(Obj(gate.value.fields));
        SetFieldFacts(payload.fields, GATE, Obj(CompletedGate(gate.value.fields)));
      }
    }
  }

  lemma SetFieldToItself(fields: seq<Field>, key: string)
    requires DistinctKeys(fields) && Get(fields, key).Some?
    ensures SetField(fields, key, Get(fields, key).value) == fields
  {
    hide Get;
    GetMeansKey(fields, key);
    var value := Get(fields, key).value;
    var i :| 0 <= i < |fields| && fields[i] == Field(key, value);
    assert forall j :: 0 <= j < |fields| && fields[j].key == key ==> j == i;
  }

  /** Nothing is added to a complete payload. */
  lemma CompleteStays(payload: Json)
    requires IsJsonValue(payload) && IsComplete(payload)
    ensures Completed(payload) == payload
  {
    hide SetField, Get, WithLists;
    if payload.Obj? && Get(payload.fields, GATE).Some? && Get(payload.fields, GATE).value.Obj? {
      FieldIsValue(payload.fields, GATE);
      CompleteGateStays(Get(payload.fields, GATE).value.fields);
      SetFieldToItself(payload.fields, GATE);
    }
  }

  lemma CompleteGateStays(gate: seq<Field>)
    requires IsJsonValue(Obj(gate)) && IsCompleteGate(gate)
    ensures CompletedGate(gate) == gate
  {
    hide SetField, Get, WithLists;
    FieldIsValue(gate, CLOSE_GATE);
    WithListsFacts(gate, DUE);
    WithListsFacts(gate, UNRESOLVED);
    var close := Get(gate, CLOSE_GATE);
    if close.Some? && close.value.Obj? {
      WithListsFacts(close.value.fields, UNRESOLVED);
      SetFieldToItself(gate, CLOSE_GATE);
    }
  }

  // ---------- The trip to disk and back, field by field ----------

  function Trip(leq: (string, string) -> bool, value: Json): Json {
    DecodePayload(EncodePayload(leq, value))
  }

  lemma TripIsValue(leq: (string, string) -> bool, value: Json)
    ensures IsJsonValue(Trip(leq, value))
  {
    TransformKeepsShape(EncodePayload(leq, value), ToCamelCaseKey);
  }

  lemma TripKeepsKind(leq: (string, string) -> bool, value: Json)
    ensures Trip(leq, value).Obj? <==> value.Obj?
    ensures Trip(leq, value).Arr? <==> value.Arr?
    ensures !value.Obj? && !value.Arr? ==> Trip(leq, value) == value
  {
  }

  lemma TripKeys(leq: (string, string) -> bool, fields: seq<Field>)
    requires Sorting.TotalOrder(leq)
    ensures Trip(leq, Obj(fields)).Obj? && Keys(Trip(leq, Obj(fields)).fields) == Image(ThereAndBack, Keys(fields))
  {
    hide TransformFields, FromEntries, SortedFields;
    KeysAfterTrip(leq, fields);
    ObjectSorts(leq, FromEntries(TransformFields(fields, ToSnakeCaseKey)));
  }

  /** If no key got lost, nor any was added but camel-case ones, each field made the trip on its own. */
  lemma FieldsTravelAlone(leq: (string, string) -> bool, fields: seq<Field>, added: set<string>)
    requires Sorting.TotalOrder(leq) && DistinctKeys(fields) && forall k <- added :: IsCamelKey(k)
    requires Trip(leq, Obj(fields)).Obj? && Keys(Trip(leq, Obj(fields)).fields) + added == Keys(fields)
    ensures Keys(Trip(leq, Obj(fields)).fields) == Keys(fields)
    ensures forall k <- Keys(fields) ::
              IsCamelKey(k) && Get(Trip(leq, Obj(fields)).fields, k) == Some(Trip(leq, Get(fields, k).GetOr(Null)))
  {
    hide Trip, Get, IsCamelKey, ThereAndBack, Keys, DistinctKeys;
    TripKeys(leq, fields);
    forall k <- added ensures k in Image(ThereAndBack, Keys(fields)) {
      KeyRoundTripExactly(k);
      ThereAndBackIs(k);
      assert k in Keys(fields);
    }
    assert Image(ThereAndBack, Keys(fields)) == Keys(fields);
    SameKeysAreFixed(Keys(fields));
    forall k <- Keys(fields) ensures IsCamelKey(k) { KeyRoundTripExactly(k); ThereAndBackIs(k); }
    forall k <- Keys(fields)
      ensures Get(Trip(leq, Obj(fields)).fields, k) == Some(Trip(leq, Get(fields, k).GetOr(Null)))
    {
      CamelFieldTravelsAlone(leq, fields, k);
    }
  }

  lemma ThereAndBackIs(k: string)
    ensures ThereAndBack(k) == ToCamelCaseKey(ToSnakeCaseKey(k))
  {
  }

  lemma CamelFieldTravelsAlone(leq: (string, string) -> bool, fields: seq<Field>, k: string)
    requires Sorting.TotalOrder(leq) && DistinctKeys(fields) && k in Keys(fields) && forall c <- Keys(fields) :: IsCamelKey(c)
    ensures Trip(leq, Obj(fields)).Obj?
    ensures Get(Trip(leq, Obj(fields)).fields, k) == Some(Trip(leq, Get(fields, k).GetOr(Null)))
  {
    hide Get, IsCamelKey, DistinctKeys, EncodePayload, DecodePayload, IsJsonValue;
    GetMeansKey(fields, k);
    var i :| 0 <= i < |fields| && fields[i] == Field(k, Get(fields, k).value);
    forall j | 0 <= j < |fields| ensures IsCamelKey(fields[j].key) { assert fields[j] in fields && fields[j].key in Keys(fields); }
    FieldAfterTrip(leq, fields, i);
    TripIsValue(leq, Obj(fields));
    TripKeepsKind(leq, Obj(fields));
    var there := Trip(leq, Obj(fields)).fields;
    FieldIsValueObj(Trip(leq, Obj(fields)));
    GetIsField(there, Field(k, Trip(leq, fields[i].value)));
  }

  lemma FieldIsValueObj(value: Json)
    requires IsJsonValue(value) && value.Obj?
    ensures DistinctKeys(value.fields)
  {
  }

  // ---------- A payload that comes back completed was complete ----------

  lemma DueIsCamel()
    ensures IsCamelKey(DUE)
  {
    assert |DUE| == 14;
    forall i | 0 <= i < |DUE| ensures DUE[i] != '_' && (IsUpper(DUE[i]) ==> i in {3, 11}) {
    }
    assert DUE[2] == 'e' && DUE[10] == 'd';
  }

  lemma UnresolvedIsCamel()
    ensures IsCamelKey(UNRESOLVED)
  {
    assert |UNRESOLVED| == 21;
    forall i | 0 <= i < |UNRESOLVED| ensures UNRESOLVED[i] != '_' && (IsUpper(UNRESOLVED[i]) ==> i in {10, 18}) {
    }
    assert UNRESOLVED[9] == 'd' && UNRESOLVED[17] == 'd';
  }

  lemma BlockedIsCamel()
    ensures IsCamelKey(BLOCKED)
  {
    assert |BLOCKED| == 20;
    forall i | 0 <= i < |BLOCKED| ensures BLOCKED[i] != '_' && (IsUpper(BLOCKED[i]) ==> i in {7, 17}) {
    }
    assert BLOCKED[6] == 'd' && BLOCKED[16] == 't';
  }

  lemma ListNamesAreCamel()
    ensures IsCamelKey(DUE) && IsCamelKey(UNRESOLVED) && IsCamelKey(BLOCKED)
  {
    hide IsCamelKey;
    DueIsCamel();
    UnresolvedIsCamel();
    BlockedIsCamel();
  }

  /** Two lists that were not added. */
  lemma ListsWereThere(leq: (string, string) -> bool, fields: seq<Field>, list: string)
    requires Sorting.TotalOrder(leq) && IsJsonValue(Obj(fields)) && list in {DUE, UNRESOLVED}
    requires Trip(leq, Obj(fields)).Obj? && SameValue(Obj(WithLists(Trip(leq, Obj(fields)).fields, list)), Obj(fields))
    ensures HasLists(Trip(leq, Obj(fields)).fields, list)
  {
    hide Trip, Get, WithLists, IsCamelKey, SameValue, IsJsonValue, Keys, DistinctKeys;
    var there := Trip(leq, Obj(fields)).fields;
    TripIsValue(leq, Obj(fields));
    FieldIsValueObj(Trip(leq, Obj(fields)));
    FieldIsValueObj(Obj(fields));
    WithListsFacts(there, list);
    SameObjectsExactly(WithLists(there, list), fields);
    ListNamesAreCamel();
    FieldsTravelAlone(leq, fields, {list, BLOCKED});
    forall k | k in {list, BLOCKED} ensures HasList(there, k) {
      SameField(WithLists(there, list), fields, k);
      TripKeepsKind(leq, Get(fields, k).GetOr(Null));
      NullIsOnlyNull(Get(WithLists(there, list), k).value, Get(fields, k).GetOr(Null));
    }
  }

  lemma NullIsOnlyNull(a: Json, b: Json)
    requires SameValue(a, b)
    ensures a.Null? <==> b.Null?
    ensures a.Obj? <==> b.Obj?
    ensures a.Str? || b.Str? ==> a == b
  {
  }

  lemma GateWasComplete(leq: (string, string) -> bool, gate: seq<Field>)
    requires Sorting.TotalOrder(leq) && IsJsonValue(Obj(gate))
    requires Trip(leq, Obj(gate)).Obj? && SameValue(Obj(CompletedGate(Trip(leq, Obj(gate)).fields)), Obj(gate))
    ensures IsCompleteGate(Trip(leq, Obj(gate)).fields)
  {
    hide Trip, Get, WithLists, IsCamelKey, SameValue, IsJsonValue, Keys, DistinctKeys, SetField;
    var there := Trip(leq, Obj(gate)).fields;
    var kind := StringField(Obj(there), "kind");
    if kind == Some("start") {
      ListsWereThere(leq, gate, DUE);
    } else if kind == Some("close") {
      ListsWereThere(leq, gate, UNRESOLVED);
    } else if kind == Some("shutdown") && Get(there, CLOSE_GATE).Some? && Get(there, CLOSE_GATE).value.Obj? {
      CloseGateWasComplete(leq, gate);
    }
  }

  lemma CloseGateWasComplete(leq: (string, string) -> bool, gate: seq<Field>)
    requires Sorting.TotalOrder(leq) && IsJsonValue(Obj(gate)) && Trip(leq, Obj(gate)).Obj?
    requires var there := Trip(leq, Obj(gate)).fields; var close := Get(there, CLOSE_GATE);
             && close.Some? && close.value.Obj?
             && SameValue(Obj(SetField(there, CLOSE_GATE, Obj(WithLists(close.value.fields, UNRESOLVED)))), Obj(gate))
    ensures HasLists(Get(Trip(leq, Obj(gate)).fields, CLOSE_GATE).value.fields, UNRESOLVED)
  {
    hide Trip, Get, WithLists, IsCamelKey, SameValue, IsJsonValue, Keys, DistinctKeys, SetField, HasLists;
    var there := Trip(leq, Obj(gate)).fields;
    var close := Get(there, CLOSE_GATE).value;
    var set' := SetField(there, CLOSE_GATE, Obj(WithLists(close.fields, UNRESOLVED)));
    TripIsValue(leq, Obj(gate));
    FieldIsValueObj(Trip(leq, Obj(gate)));
    FieldIsValueObj(Obj(gate));
    SetFieldFacts(there, CLOSE_GATE, Obj(WithLists(close.fields, UNRESOLVED)));
    GetMeansKey(there, CLOSE_GATE);
    SameObjectsExactly(set', gate);
    FieldsTravelAlone(leq, gate, {});
    SameField(set', gate, CLOSE_GATE);
    var was := Get(gate, CLOSE_GATE).value;
    TripKeepsKind(leq, was);
    FieldIsValue(gate, CLOSE_GATE);
    assert was == Obj(was.fields);
    ListsWereThere(leq, was.fields, UNRESOLVED);
  }

  lemma {:induction false} PayloadWasComplete(leq: (string, string) -> bool, payload: Json)
    requires Sorting.TotalOrder(leq) && IsJsonValue(payload) && SameValue(Completed(Trip(leq, payload)), payload)
    ensures IsComplete(Trip(leq, payload))
  {
    hide Trip, Get, IsCamelKey, SameValue, IsJsonValue, Keys, DistinctKeys, SetField, IsCompleteGate, CompletedGate;
    TripKeepsKind(leq, payload);
    var there := Trip(leq, payload);
    if payload.Obj? && Get(there.fields, GATE).Some? && Get(there.fields, GATE).value.Obj? {
      var gate := Get(there.fields, GATE).value;
      var set' := SetField(there.fields, GATE, Obj(CompletedGate(gate.fields)));
      assert payload == Obj(payload.fields);
      TripIsValue(leq, payload);
      FieldIsValueObj(there);
      FieldIsValueObj(payload);
      SetFieldFacts(there.fields, GATE, Obj(CompletedGate(gate.fields)));
      GetMeansKey(there.fields, GATE);
      SameObjectsExactly(set', payload.fields);
      FieldsTravelAlone(leq, payload.fields, {});
      SameField(set', payload.fields, GATE);
      var was := Get(payload.fields, GATE).value;
      TripKeepsKind(leq, was);
      FieldIsValue(payload.fields, GATE);
      assert was == Obj(was.fields);
      GateWasComplete(leq, was.fields);
    }
  }

  // ---------- Completeness is a matter of content ----------

  lemma SameFieldFacts(fs: seq<Field>, gs: seq<Field>, k: string)
    requires IsJsonValue(Obj(fs)) && IsJsonValue(Obj(gs)) && SameValue(Obj(fs), Obj(gs))
    ensures Get(fs, k).Some? <==> Get(gs, k).Some?
    ensures Get(fs, k).Some? ==>
              && SameValue(Get(fs, k).value, Get(gs, k).value)
              && (Get(fs, k).value.Obj? <==> Get(gs, k).value.Obj?) && (Get(fs, k).value.Null? <==> Get(gs, k).value.Null?)
              && IsJsonValue(Get(fs, k).value) && IsJsonValue(Get(gs, k).value)
    ensures HasList(fs, k) <==> HasList(gs, k)
    ensures StringField(Obj(fs), k) == StringField(Obj(gs), k)
  {
    hide Get, SameValue, IsJsonValue;
    FieldIsValue(fs, k);
    FieldIsValue(gs, k);
    SameField(fs, gs, k);
    if Get(fs, k).Some? { NullIsOnlyNull(Get(fs, k).value, Get(gs, k).value); }
  }

  lemma CompleteGatesAgree(fs: seq<Field>, gs: seq<Field>)
    requires IsJsonValue(Obj(fs)) && IsJsonValue(Obj(gs)) && SameValue(Obj(fs), Obj(gs))
    ensures IsCompleteGate(fs) <==> IsCompleteGate(gs)
  {
    hide Get, SameValue, IsJsonValue, HasList, StringField;
    SameFieldFacts(fs, gs, "kind");
    SameFieldFacts(fs, gs, DUE);
    SameFieldFacts(fs, gs, UNRESOLVED);
    SameFieldFacts(fs, gs, BLOCKED);
    SameFieldFacts(fs, gs, CLOSE_GATE);
    var f, g := Get(fs, CLOSE_GATE), Get(gs, CLOSE_GATE);
    if f.Some? && f.value.Obj? {
      assert f.value == Obj(f.value.fields) && g.value == Obj(g.value.fields);
      SameFieldFacts(f.value.fields, g.value.fields, UNRESOLVED);
      SameFieldFacts(f.value.fields, g.value.fields, BLOCKED);
    }
  }

  lemma CompletePayloadsAgree(a: Json, b: Json)
    requires IsJsonValue(a) && IsJsonValue(b) && SameValue(a, b)
    ensures IsComplete(a) <==> IsComplete(b)
  {
    hide Get, SameValue, IsJsonValue, IsCompleteGate;
    NullIsOnlyNull(a, b);
    if a.Obj? {
      assert a == Obj(a.fields) && b == Obj(b.fields);
      SameFieldFacts(a.fields, b.fields, GATE);
      var f, g := Get(a.fields, GATE), Get(b.fields, GATE);
      if f.Some? && f.value.Obj? {
        assert f.value == Obj(f.value.fields) && g.value == Obj(g.value.fields);
        CompleteGatesAgree(f.value.fields, g.value.fields);
      }
    }
  }

  // ---------- Round trip and re-encoding ----------

  function DecodeDigestPayload(written: Json): Json {
    Completed(DecodePayload(written))
  }

  /** A digest payload comes back if and only if its keys are in camel case and its gate snapshot has its lists. */
  lemma DigestRoundTripExactly(leq: (string, string) -> bool, payload: Json)
    requires Sorting.TotalOrder(leq) && IsJsonValue(payload)
    ensures SameValue(DecodeDigestPayload(EncodePayload(leq, payload)), payload) <==> HasCamelKeys(payload) && IsComplete(payload)
  {
    hide SameValue, IsJsonValue, HasCamelKeys, IsComplete, Completed, EncodePayload, DecodePayload;
    var there := Trip(leq, payload);
    TripIsValue(leq, payload);
    PayloadRoundTripExactly(leq, payload);
    if SameValue(Completed(there), payload) { PayloadWasComplete(leq, payload); }
    if IsComplete(there) { CompleteStays(there); }
    if SameValue(there, payload) { CompletePayloadsAgree(there, payload); }
  }

  lemma SetFieldIsValue(fields: seq<Field>, key: string, value: Json)
    requires IsJsonValue(Obj(fields)) && IsJsonValue(value)
    ensures IsJsonValue(Obj(SetField(fields, key, value)))
  {
    hide Get;
    FieldIsValueObj(Obj(fields));
    SetFieldFacts(fields, key, value);
  }

  lemma WithListsIsValue(fields: seq<Field>, list: string)
    requires IsJsonValue(Obj(fields))
    ensures IsJsonValue(Obj(WithLists(fields, list)))
  {
    hide SetField, HasList, IsJsonValue;
    EmptyListIsValue();
    SetFieldIsValue(fields, list, Arr([]));
    SetFieldIsValue(WithList(fields, list), BLOCKED, Arr([]));
  }

  lemma EmptyListIsValue()
    ensures IsJsonValue(Arr([]))
  {
  }

  lemma CompletedIsValue(payload: Json)
    requires IsJsonValue(payload)
    ensures IsJsonValue(Completed(payload))
  {
    hide SetField, WithLists, Get, IsJsonValue, CompletedGate;
    if payload.Obj? && Get(payload.fields, GATE).Some? && Get(payload.fields, GATE).value.Obj? {
      var gate := Get(payload.fields, GATE).value;
      assert payload == Obj(payload.fields) && gate == Obj(gate.fields);
      FieldIsValue(payload.fields, GATE);
      CompletedGateIsValue(gate.fields);
      SetFieldIsValue(payload.fields, GATE, Obj(CompletedGate(gate.fields)));
    }
  }

  lemma CompletedGateIsValue(gate: seq<Field>)
    requires IsJsonValue(Obj(gate))
    ensures IsJsonValue(Obj(CompletedGate(gate)))
  {
    hide SetField, WithLists, Get, IsJsonValue;
    WithListsIsValue(gate, DUE);
    WithListsIsValue(gate, UNRESOLVED);
    FieldIsValue(gate, CLOSE_GATE);
    var close := Get(gate, CLOSE_GATE);
    if close.Some? && close.value.Obj? {
      assert close.value == Obj(close.value.fields);
      WithListsIsValue(close.value.fields, UNRESOLVED);
      SetFieldIsValue(gate, CLOSE_GATE, Obj(WithLists(close.value.fields, UNRESOLVED)));
    }
  }

  /** Every payload is written in written form. */
  lemma EncodedIsWritten(leq: (string, string) -> bool, payload: Json)
    requires Sorting.TotalOrder(leq) && IsJsonValue(payload)
    ensures IsWrittenForm(leq, EncodePayload(leq, payload))
  {
    TransformKeepsShape(payload, ToSnakeCaseKey);
    SnakeTreeIsLower(payload);
    SortedIsWritten(leq, ToSnake(payload));
  }

  /**
    A stored digest payload is written as it was once it has been read if and only if it is in written form, its keys are
    stable, and its gate snapshot has its lists.
   */
  lemma DigestReencodesExactly(leq: (string, string) -> bool, written: Json)
    requires Sorting.TotalOrder(leq)
    ensures EncodePayload(leq, DecodeDigestPayload(written)) == written
       <==> IsWrittenForm(leq, written) && HasStableKeys(written) && IsComplete(DecodePayload(written))
  {
    hide SameValue, IsJsonValue, HasStableKeys, IsComplete, Completed, EncodePayload, DecodePayload, IsWrittenForm;
    var read := DecodePayload(written);
    var completed := Completed(read);
    assert IsJsonValue(read) by { DecodedIsValue(written); }
    CompletedIsValue(read);
    if EncodePayload(leq, completed) == written {
      EncodedIsWritten(leq, completed);
      assert Trip(leq, completed) == read;
      SameAsItself(completed);
      PayloadWasComplete(leq, completed);
    }
    if IsComplete(read) { CompleteStays(read); }
    if IsWrittenForm(leq, written) { TreeReencodesExactly(leq, written); }
  }

  lemma DecodedIsValue(written: Json)
    ensures IsJsonValue(DecodePayload(written))
  {
    TransformKeepsShape(written, ToCamelCaseKey);
  }

  lemma {:induction false} SameAsItself(a: Json)
    requires IsJsonValue(a)
    ensures SameValue(a, a)
    decreases a
  {
    match a
    case Arr(xs) => forall i | 0 <= i < |xs| ensures SameValue(xs[i], xs[i]) { SameAsItself(xs[i]); }
    case Obj(fs) => forall i | 0 <= i < |fs| ensures SameValue(fs[i].value, fs[i].value) { SameAsItself(fs[i].value); }
    case _ =>
  }

  /** A gate snapshot from before the lists were introduced gains them. */
  lemma OldGateGainsLists()
    ensures var old' := Obj([Field(GATE, Obj([Field("kind", Str("start"))]))]);
            Completed(old') == Obj([Field(GATE, Obj([Field("kind", Str("start")), Field(DUE, Arr([])), Field(BLOCKED, Arr([]))]))])
            && !IsComplete(old')
  {
    var kind := Field("kind", Str("start"));
    assert Keys([kind]) == {"kind"};
    AddedKey([kind], Field(DUE, Arr([])));
    var due := Field(DUE, Arr([]));
    assert ([kind] + [due])[1..] == [due];
    assert Get([kind], DUE) == None && Get([due], BLOCKED) == None && Get([kind] + [due], BLOCKED) == None;
    var fields := [Field(GATE, Obj([kind]))];
    assert Keys(fields) == {GATE} && Get(fields, GATE) == Some(Obj([kind]));
    assert CompletedGate([kind]) == [kind, Field(DUE, Arr([])), Field(BLOCKED, Arr([]))];
  }
}
