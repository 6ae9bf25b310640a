/**
  Composite tools (packages/mcp/src/index.ts): one tool whose `oneOf` schema selects a branch by `operation`, and whose
  handler forwards the rest of the input to that branch.
 */
module CompositeTool {
  import opened Wrappers
  import opened JsonValues
  import opened SchemaValidation
  import JsonKeys

  const OPERATION := "operation"

  datatype Branch = Branch(action: string, inputSchema: Json)

  function OperationSchema(action: string): Json {
    Obj([Field("type", Str("string")), Field("const", Str(action)),
         Field("description", Str("Select the " + action + " workflow."))])
  }

  function StringItems(items: seq<Json>): (strings: seq<Json>)
    ensures forall x :: x in strings <==> x in items && x.Str?
  {
    if items == [] then []
    else
      var rest, last := StringItems(items[..|items| - 1]), items[|items| - 1];
      assert forall x :: x in items <==> x in items[..|items| - 1] || x == last;
      if last.Str? then rest + [last] else rest
  }

  function ComposedProperties(branch: Branch): seq<Field>
    requires branch.inputSchema.Obj?
  {
    JsonKeys.FromEntries([Field(OPERATION, OperationSchema(branch.action))] + Properties(branch.inputSchema))
  }

  function ComposedRequired(branch: Branch): seq<Json>
    requires branch.inputSchema.Obj?
  {
    [Str(OPERATION)] + StringItems(Items(branch.inputSchema, "required").GetOr([]))
  }

  /** The branch's schema with `properties` and `required` overridden; a property of the branch wins over the selector. */
  function Compose(branch: Branch): (schema: Json)
    requires branch.inputSchema.Obj?
    ensures schema.Obj?
  {
    Obj(JsonKeys.FromEntries(branch.inputSchema.fields
        + [Field("properties", Obj(ComposedProperties(branch))), Field("required", Arr(ComposedRequired(branch)))]))
  }

  function CompositeSchema(branches: seq<Branch>): Json
    requires forall i :: 0 <= i < |branches| ==> branches[i].inputSchema.Obj?
  {
    Obj([Field("oneOf", Arr(seq(|branches|, i requires 0 <= i < |branches| => Compose(branches[i]))))])
  }

  /** `{ ...input }` without `operation`. */
  function Forwarded(fields: seq<Field>): (r: seq<Field>)
    ensures forall f :: f in r <==> f in fields && f.key != OPERATION
  {
    if fields == [] then []
    else
      var rest, last := Forwarded(fields[..|fields| - 1]), fields[|fields| - 1];
      assert forall f :: f in fields <==> f in fields[..|fields| - 1] || f == last;
      if last.key == OPERATION then rest else rest + [last]
  }

  /** An object schema without alternatives of its own that does not require `operation`. */
  predicate IsPlain(schema: Json) {
    && schema.Obj? && JsonKeys.DistinctKeys(schema.fields)
    && Get(schema.fields, "type") == Some(Str("object"))
    && Items(schema, "anyOf").None? && Items(schema, "oneOf").None?
    && JsonKeys.DistinctKeys(Properties(schema)) && Str(OPERATION) !in Items(schema, "required").GetOr([])
  }

  /** What a value of `operation` has to meet: the branch's own property of that name, if it declares one. */
  function Selector(branch: Branch): Json
    requires branch.inputSchema.Obj?
  {
    Get(Properties(branch.inputSchema), OPERATION).GetOr(OperationSchema(branch.action))
  }

  predicate DeclaresOperation(branch: Branch)
    requires branch.inputSchema.Obj?
  {
    Get(Properties(branch.inputSchema), OPERATION).Some?
  }

  // ---------- Reading composed objects ----------

  lemma {:induction false} GetOfSnoc(fields: seq<Field>, last: Field, key: string)
    ensures Get(fields + [last], key)
         == if Get(fields, key).Some? then Get(fields, key) else if last.key == key then Some(last.value) else None
    decreases |fields|
  {
    if fields == [] {
      assert [] + [last] == [last];
    } else {
      GetOfSnoc(fields[1..], last, key);
      assert (fields + [last])[1..] == fields[1..] + [last];
    }
  }

  lemma {:induction false} GetOfReplace(fields: seq<Field>, field: Field, key: string)
    ensures Get(JsonKeys.Replace(fields, field), key)
         == if key == field.key && Get(fields, key).Some? then Some(field.value) else Get(fields, key)
    decreases |fields|
  {
    if fields != [] {
      GetOfReplace(fields[1..], field, key);
      assert JsonKeys.Replace(fields, field)[1..] == JsonKeys.Replace(fields[1..], field);
    }
  }

  /** In a spread the later of two values of one key wins. */
  lemma GetOfSpread(fields: seq<Field>, last: Field, key: string)
    ensures Get(JsonKeys.FromEntries(fields + [last]), key)
         == if key == last.key then Some(last.value) else Get(JsonKeys.FromEntries(fields), key)
  {
    var rest := JsonKeys.FromEntries(fields);
    assert (fields + [last])[..|fields + [last]| - 1] == fields;
    JsonKeys.GetMeansKey(rest, last.key);
    GetOfReplace(rest, last, key);
    GetOfSnoc(rest, last, key);
  }

  lemma ComposedMembers(branch: Branch, key: string)
    requires branch.inputSchema.Obj? && JsonKeys.DistinctKeys(branch.inputSchema.fields)
    ensures Get(Compose(branch).fields, key)
         == if key == "properties" then Some(Obj(ComposedProperties(branch)))
            else if key == "required" then Some(Arr(ComposedRequired(branch)))
            else Get(branch.inputSchema.fields, key)
  {
    hide ComposedProperties, ComposedRequired, JsonKeys.FromEntries;
    var fields := branch.inputSchema.fields;
    var properties, required := Field("properties", Obj(ComposedProperties(branch))), Field("required", Arr(ComposedRequired(branch)));
    assert fields + [properties, required] == fields + [properties] + [required];
    GetOfSpread(fields + [properties], required, key);
    GetOfSpread(fields, properties, key);
    JsonKeys.FromEntriesKeepsExactly(fields);
  }

  /** What comes after the first field of a spread wins over it. */
  lemma {:induction false} GetOfSpreadOver(first: Field, own: seq<Field>, key: string)
    requires JsonKeys.DistinctKeys(own)
    ensures Get(JsonKeys.FromEntries([first] + own), key)
         == if Get(own, key).Some? then Get(own, key) else if key == first.key then Some(first.value) else None
    decreases |own|
  {
    if own == [] {
      assert [first] + own == [] + [first];
      GetOfSpread([], first, key);
    } else {
      var rest, last := own[..|own| - 1], own[|own| - 1];
      GetOfSpreadOver(first, rest, key);
      assert own == rest + [last] && [first] + own == ([first] + rest) + [last];
      GetOfSpread([first] + rest, last, key);
      GetOfSnoc(rest, last, key);
      JsonKeys.AddedKey(rest, last);
      JsonKeys.GetMeansKey(rest, key);
    }
  }

  lemma ComposedPropertiesAre(branch: Branch, key: string)
    requires IsPlain(branch.inputSchema)
    ensures JsonKeys.DistinctKeys(ComposedProperties(branch))
    ensures Get(ComposedProperties(branch), key)
         == if key == OPERATION then Some(Selector(branch)) else Get(Properties(branch.inputSchema), key)
  {
    hide Get, JsonKeys.FromEntries, JsonKeys.DistinctKeys;
    GetOfSpreadOver(Field(OPERATION, OperationSchema(branch.action)), Properties(branch.inputSchema), key);
  }

  lemma {:induction false} ForwardedGet(fields: seq<Field>, key: string)
    ensures Get(Forwarded(fields), key) == if key == OPERATION then None else Get(fields, key)
    decreases |fields|
  {
    if fields != [] {
      var rest, last := fields[..|fields| - 1], fields[|fields| - 1];
      ForwardedGet(rest, key);
      assert fields == rest + [last];
      GetOfSnoc(rest, last, key);
      GetOfSnoc(Forwarded(rest), last, key);
    }
  }

  // ---------- One branch ----------

  lemma OperationSchemaAccepts(action: string, value: Json)
    ensures Accepts(OperationSchema(action), value) <==> value == Str(action)
  {
    var schema := OperationSchema(action);
    assert Get(schema.fields[1..], "const") == Some(Str(action));
    forall key | key !in {"type", "const", "description"} ensures Get(schema.fields, key) == None {
      assert schema.fields[1..][1..][1..] == [];
      assert Get(schema.fields[1..][1..], key) == None;
    }
    assert Get(schema.fields, "type") == Some(Str("string"));
  }

  ghost predicate ArePresent(required: seq<Json>, value: Json)
    requires value.Obj?
  {
    forall field <- required :: field.Str? ==> HasKey(value, field.s)
  }

  lemma RequiredListSplits(own: seq<Json>, all: seq<Json>, fields: seq<Field>)
    requires Str(OPERATION) !in own && all == [Str(OPERATION)] + StringItems(own)
    ensures ArePresent(all, Obj(fields)) <==> HasKey(Obj(fields), OPERATION) && ArePresent(own, Obj(Forwarded(fields)))
  {
    hide Get, Forwarded, StringItems;
    assert forall x :: x in all <==> x == Str(OPERATION) || (x in own && x.Str?);
    forall x <- own | x.Str? ensures HasKey(Obj(Forwarded(fields)), x.s) <==> HasKey(Obj(fields), x.s) {
      ForwardedGet(fields, x.s);
    }
  }

  lemma RequiredSplits(branch: Branch, fields: seq<Field>)
    requires IsPlain(branch.inputSchema)
    ensures RequiredOk(Compose(branch), Obj(fields))
       <==> HasKey(Obj(fields), OPERATION) && RequiredOk(branch.inputSchema, Obj(Forwarded(fields)))
  {
    hide Get, Compose, IsPlain, Forwarded, HasKey;
    PlainParts(branch.inputSchema);
    ComposedMembers(branch, "required");
    var own := Items(branch.inputSchema, "required").GetOr([]);
    RequiredListSplits(own, ComposedRequired(branch), fields);
    assert ArePresent(own, Obj(Forwarded(fields))) <==> RequiredOk(branch.inputSchema, Obj(Forwarded(fields)));
    assert Items(Compose(branch), "required") == Some(ComposedRequired(branch));
  }

  lemma PlainParts(schema: Json)
    requires IsPlain(schema)
    ensures schema.Obj? && JsonKeys.DistinctKeys(schema.fields) && JsonKeys.DistinctKeys(Properties(schema))
    ensures Str(OPERATION) !in Items(schema, "required").GetOr([])
    ensures Member(schema, "type") == Some(Str("object"))
    ensures Items(schema, "anyOf").None? && Items(schema, "oneOf").None?
  {
  }

  lemma AdditionalSplits(branch: Branch, fields: seq<Field>)
    requires IsPlain(branch.inputSchema)
    ensures NothingAdditional(Compose(branch), Obj(fields))
       <==> NothingAdditional(branch.inputSchema, Obj(Forwarded(fields)))
  {
    hide Compose, IsPlain, Forwarded;
    PlainParts(branch.inputSchema);
    ComposedMembers(branch, "additionalProperties");
    ComposedMembers(branch, "properties");
    hide Get, ComposedProperties;
    var own := Properties(branch.inputSchema);
    assert Properties(Compose(branch)) == ComposedProperties(branch);
    forall key ensures Get(Properties(Compose(branch)), key).Some? <==> key == OPERATION || Get(own, key).Some? {
      ComposedPropertiesAre(branch, key);
    }
    AllowedSplits(fields, Properties(Compose(branch)), own);
  }

  lemma AllowedSplits(fields: seq<Field>, all: seq<Field>, own: seq<Field>)
    requires forall key :: Get(all, key).Some? <==> key == OPERATION || Get(own, key).Some?
    ensures (forall f <- fields :: Get(all, f.key).Some?) <==> forall f <- Forwarded(fields) :: Get(own, f.key).Some?
  {
    hide Get, Forwarded;
  }

  ghost predicate AreAccepted(properties: seq<Field>, value: Json)
    requires value.Obj?
  {
    forall key :: Get(properties, key).Some? && Get(properties, key).value.Obj? && HasKey(value, key) ==>
      Accepts(Get(properties, key).value, Get(value.fields, key).value)
  }

  lemma {:induction false} GetOfOwnKey(fields: seq<Field>, i: nat)
    requires JsonKeys.DistinctKeys(fields) && i < |fields|
    ensures Get(fields, fields[i].key) == Some(fields[i].value)
    decreases |fields|
  {
    if i > 0 {
      assert fields[0].key != fields[i].key && fields[1..][i - 1] == fields[i];
      GetOfOwnKey(fields[1..], i - 1);
    }
  }

  lemma AreAcceptedExactly(schema: Json, value: Json)
    requires schema.Obj? && value.Obj? && JsonKeys.DistinctKeys(Properties(schema))
    ensures PropertiesOk(schema, value) <==> AreAccepted(Properties(schema), value)
  {
    hide Accepts, Get, JsonKeys.DistinctKeys;
    var properties := Properties(schema);
    if AreAccepted(properties, value) {
      forall i | 0 <= i < |properties| && properties[i].value.Obj? && HasKey(value, properties[i].key)
        ensures Accepts(properties[i].value, Get(value.fields, properties[i].key).value)
      {
        GetOfOwnKey(properties, i);
      }
    }
    if PropertiesOk(schema, value) {
      forall key | Get(properties, key).Some? && Get(properties, key).value.Obj? && HasKey(value, key)
        ensures Accepts(Get(properties, key).value, Get(value.fields, key).value)
      {
        JsonKeys.GetMeansKey(properties, key);
      }
    }
  }

  /** The input has an `operation`, and the selector of the branch accepts it. */
  ghost predicate PassesSelector(branch: Branch, value: Json)
    requires branch.inputSchema.Obj?
  {
    && value.Obj? && HasKey(value, OPERATION)
    && (Selector(branch).Obj? ==> Accepts(Selector(branch), Get(value.fields, OPERATION).value))
  }

  /** Without a property of its own, a branch is selected by its name and by nothing else. */
  lemma NameSelectsExactly(branch: Branch, value: Json)
    requires branch.inputSchema.Obj? && !DeclaresOperation(branch)
    ensures PassesSelector(branch, value) <==> value.Obj? && Get(value.fields, OPERATION) == Some(Str(branch.action))
  {
    hide Accepts, Get;
    if value.Obj? && HasKey(value, OPERATION) { OperationSchemaAccepts(branch.action, Get(value.fields, OPERATION).value); }
  }

  lemma PropertiesSplit(branch: Branch, fields: seq<Field>)
    requires IsPlain(branch.inputSchema) && HasKey(Obj(fields), OPERATION)
    ensures PropertiesOk(Compose(branch), Obj(fields))
       <==> PassesSelector(branch, Obj(fields)) && PropertiesOk(branch.inputSchema, Obj(Forwarded(fields)))
  {
    hide Accepts, Compose, IsPlain, Forwarded, Get, PropertiesOk, ComposedProperties, JsonKeys.DistinctKeys, Selector;
    PlainParts(branch.inputSchema);
    ComposedMembers(branch, "properties");
    ComposedPropertiesAre(branch, OPERATION);
    var own, all := Properties(branch.inputSchema), Properties(Compose(branch));
    AreAcceptedExactly(Compose(branch), Obj(fields));
    AreAcceptedExactly(branch.inputSchema, Obj(Forwarded(fields)));
    ForwardedGet(fields, OPERATION);
    forall key | key != OPERATION
      ensures Get(all, key) == Get(own, key) && Get(Forwarded(fields), key) == Get(fields, key)
    {
      ComposedPropertiesAre(branch, key);
      ForwardedGet(fields, key);
    }
    assert Get(all, OPERATION) == Some(Selector(branch));
  }

  /** What a plain object schema says about a value. */
  lemma ObjectSchemaAccepts(schema: Json, value: Json)
    requires schema.Obj? && Member(schema, "type") == Some(Str("object"))
    requires Items(schema, "anyOf").None? && Items(schema, "oneOf").None?
    ensures Accepts(schema, value)
       <==> && value.Obj? && Items(schema, "enum").None? && Member(schema, "const").None?
            && RequiredOk(schema, value) && NothingAdditional(schema, value) && PropertiesOk(schema, value)
  {
    hide Get, RequiredOk, NothingAdditional, PropertiesOk;
    if value.Obj? { ObjectsAreNeverListed(schema, value); }
  }

  /** An object never equals a listed constant, so `enum` and `const` only accept it by being absent. */
  lemma ObjectsAreNeverListed(schema: Json, value: Json)
    requires schema.Obj? && value.Obj?
    ensures EnumOk(schema, value) <==> Items(schema, "enum").None?
    ensures ConstOk(schema, value) <==> Member(schema, "const").None?
  {
  }

  /** The composed branch accepts an input exactly when its selector does and the branch accepts the rest. */
  lemma BranchAcceptsExactly(branch: Branch, value: Json)
    requires IsPlain(branch.inputSchema)
    ensures Accepts(Compose(branch), value)
       <==> PassesSelector(branch, value) && Accepts(branch.inputSchema, Obj(Forwarded(value.fields)))
  {
    hide Compose, IsPlain, Forwarded, Get, RequiredOk, NothingAdditional, PropertiesOk, Accepts, Selector;
    PlainParts(branch.inputSchema);
    var composed := Compose(branch);
    forall key | key in {"type", "anyOf", "oneOf", "enum", "const"}
      ensures Member(composed, key) == Member(branch.inputSchema, key)
    {
      ComposedMembers(branch, key);
    }
    ObjectSchemaAccepts(composed, value);
    if value.Obj? {
      ObjectSchemaAccepts(branch.inputSchema, Obj(Forwarded(value.fields)));
      RequiredSplits(branch, value.fields);
      AdditionalSplits(branch, value.fields);
      if HasKey(value, OPERATION) { PropertiesSplit(branch, value.fields); }
      assert value == Obj(value.fields);
    }
  }

  // ---------- Dispatch ----------

  ghost predicate DistinctActions(branches: seq<Branch>) {
    forall i, j :: 0 <= i < j < |branches| ==> branches[i].action != branches[j].action
  }

  ghost predicate ArePlain(branches: seq<Branch>) {
    forall i :: 0 <= i < |branches| ==> IsPlain(branches[i].inputSchema)
  }

  /** The selector of branch `i` accepts the input and that branch accepts the rest. */
  ghost predicate Selects(branches: seq<Branch>, i: nat, value: Json)
    requires i < |branches| && branches[i].inputSchema.Obj?
  {
    PassesSelector(branches[i], value) && Accepts(branches[i].inputSchema, Obj(Forwarded(value.fields)))
  }

  /** One branch alone is selected. */
  ghost predicate SelectsOne(branches: seq<Branch>, value: Json)
    requires forall i :: 0 <= i < |branches| ==> branches[i].inputSchema.Obj?
  {
    && (exists i :: 0 <= i < |branches| && Selects(branches, i, value))
    && forall i, j :: 0 <= i < j < |branches| ==> !(Selects(branches, i, value) && Selects(branches, j, value))
  }

  /** No branch declares an `operation` of its own. */
  ghost predicate NobodyDeclares(branches: seq<Branch>)
    requires forall i :: 0 <= i < |branches| ==> branches[i].inputSchema.Obj?
  {
    forall i :: 0 <= i < |branches| ==> !DeclaresOperation(branches[i])
  }

  /** The input's `operation` is the name of a branch. */
  ghost predicate NamesBranch(branches: seq<Branch>, value: Json) {
    value.Obj? && exists i :: 0 <= i < |branches| && Get(value.fields, OPERATION) == Some(Str(branches[i].action))
  }

  lemma PlainBranchesAreObjects(branches: seq<Branch>)
    requires ArePlain(branches)
    ensures forall i :: 0 <= i < |branches| ==> branches[i].inputSchema.Obj?
  {
    hide IsPlain;
    forall i | 0 <= i < |branches| ensures branches[i].inputSchema.Obj? { PlainParts(branches[i].inputSchema); }
  }

  /** Validation of a composite input succeeds exactly when one branch alone is selected. */
  lemma CompositeAcceptsExactly(branches: seq<Branch>, value: Json)
    requires ArePlain(branches)
    ensures Accepts(CompositeSchema(branches), value) <==> SelectsOne(branches, value)
  {
    hide IsPlain, Compose, Forwarded, Get, PassesSelector, Accepts;
    PlainBranchesAreObjects(branches);
    var candidates := seq(|branches|, i requires 0 <= i < |branches| => Compose(branches[i]));
    var schema := CompositeSchema(branches);
    assert Items(schema, "oneOf") == Some(candidates) && Items(schema, "anyOf").None? by { OneOfIsAlone(Arr(candidates)); }
    forall i | 0 <= i < |branches| ensures Accepts(candidates[i], value) <==> Selects(branches, i, value) {
      BranchAcceptsExactly(branches[i], value);
    }
    assert Accepts(schema, value) <==> OneOfOk(schema, candidates, value) by { OneOfSchemaAccepts(schema, candidates, value); }
  }

  /** Where no branch declares an `operation`, that is the branch the input names, and it accepts the rest. */
  lemma NamedBranchAcceptsExactly(branches: seq<Branch>, value: Json)
    requires ArePlain(branches) && DistinctActions(branches) && NobodyDeclares(branches)
    ensures Accepts(CompositeSchema(branches), value)
       <==> exists i :: 0 <= i < |branches| && value.Obj? && Get(value.fields, OPERATION) == Some(Str(branches[i].action))
                        && Accepts(branches[i].inputSchema, Obj(Forwarded(value.fields)))
  {
    hide IsPlain, Compose, Forwarded, Get, Selects, Accepts, CompositeSchema;
    PlainBranchesAreObjects(branches);
    CompositeAcceptsExactly(branches, value);
    NamedBranchIsSelected(branches, value);
  }

  lemma NamedBranchIsSelected(branches: seq<Branch>, value: Json)
    requires (forall i :: 0 <= i < |branches| ==> branches[i].inputSchema.Obj?) && NobodyDeclares(branches)
    ensures forall i :: 0 <= i < |branches| ==>
              (Selects(branches, i, value) <==>
               value.Obj? && Get(value.fields, OPERATION) == Some(Str(branches[i].action))
               && Accepts(branches[i].inputSchema, Obj(Forwarded(value.fields))))
    ensures DistinctActions(branches) ==>
              forall i, j :: 0 <= i < j < |branches| ==> !(Selects(branches, i, value) && Selects(branches, j, value))
  {
    hide Get, PassesSelector, Accepts, Forwarded;
    forall i | 0 <= i < |branches|
      ensures PassesSelector(branches[i], value) <==> value.Obj? && Get(value.fields, OPERATION) == Some(Str(branches[i].action))
    {
      NameSelectsExactly(branches[i], value);
    }
  }

  lemma OneOfIsAlone(candidates: Json)
    ensures Get([Field("oneOf", candidates)], "oneOf") == Some(candidates)
    ensures Get([Field("oneOf", candidates)], "anyOf") == None
  {
    assert [Field("oneOf", candidates)][1..] == [];
  }

  lemma OneOfSchemaAccepts(schema: Json, candidates: seq<Json>, value: Json)
    requires schema.Obj? && Items(schema, "anyOf").None? && Items(schema, "oneOf") == Some(candidates)
    ensures Accepts(schema, value) <==> OneOfOk(schema, candidates, value)
  {
  }

  datatype DispatchError = InvalidInput(issues: seq<Issue>) | UnknownOperation

  /** `new Map(...)`: of two branches with one action the later wins. */
  function BranchByAction(branches: seq<Branch>): map<string, Branch> {
    if branches == [] then map[]
    else
      var last := branches[|branches| - 1];
      BranchByAction(branches[..|branches| - 1])[last.action := last]
  }

  lemma {:induction false} BranchByActionFinds(branches: seq<Branch>)
    requires DistinctActions(branches)
    ensures forall i :: 0 <= i < |branches| ==>
              branches[i].action in BranchByAction(branches) && BranchByAction(branches)[branches[i].action] == branches[i]
    decreases |branches|
  {
    if branches != [] { BranchByActionFinds(branches[..|branches| - 1]); }
  }

  /**
    Validation and dispatch of one call.  A validated input reaches the unknown-operation error exactly when its `operation`
    is the name of no branch, which the selector of a branch that declares its own may let pass.  Otherwise it goes to the
    branch it names, and where none declares its own, that branch accepts what is forwarded to it.
   */
  method Call(branches: seq<Branch>, input: Json) returns (r: Result<(Branch, Json), DispatchError>)
    requires ArePlain(branches) && DistinctActions(branches)
    ensures r.Failure? && r.error.InvalidInput? <==> !SelectsOne(branches, input)
    ensures r == Failure(UnknownOperation) <==> SelectsOne(branches, input) && !NamesBranch(branches, input)
    ensures NobodyDeclares(branches) ==> r != Failure(UnknownOperation)
    ensures r.Success? ==>
              && r.value.0 in branches && r.value.0.inputSchema.Obj? && input.Obj?
              && Get(input.fields, OPERATION) == Some(Str(r.value.0.action)) && r.value.1 == Obj(Forwarded(input.fields))
              && (NobodyDeclares(branches) ==> Accepts(r.value.0.inputSchema, r.value.1))
  {
    hide IsPlain, Compose, Forwarded, Get, Accepts, CompositeSchema, PassesSelector;
    PlainBranchesAreObjects(branches);
    assert CompositeSchema(branches).Obj? by { CompositeIsObject(branches); }
    var issues := Validate(CompositeSchema(branches), input, []);
    CompositeAcceptsExactly(branches, input);
    if issues != [] { return Failure(InvalidInput(issues)); }
    ghost var chosen :| 0 <= chosen < |branches| && Selects(branches, chosen, input);
    assert input.Obj? by { SelectedIsObject(branches[chosen], input); }
    BranchByActionFinds(branches);
    BranchByActionHolds(branches);
    var byAction := BranchByAction(branches);
    var operation := StringField(input, OPERATION);
    if NobodyDeclares(branches) { NamedBranchIsSelected(branches, input); }
    if operation.None? || operation.value !in byAction { return Failure(UnknownOperation); }
    return Success((byAction[operation.value], Obj(Forwarded(input.fields))));
  }

  lemma SelectedIsObject(branch: Branch, value: Json)
    requires branch.inputSchema.Obj? && PassesSelector(branch, value)
    ensures value.Obj?
  {
  }

  lemma {:induction false} BranchByActionHolds(branches: seq<Branch>)
    ensures forall action <- BranchByAction(branches) ::
              BranchByAction(branches)[action] in branches && BranchByAction(branches)[action].action == action
    decreases |branches|
  {
    if branches != [] {
      var rest, last := branches[..|branches| - 1], branches[|branches| - 1];
      BranchByActionHolds(rest);
      assert forall branch :: branch in branches <==> branch in rest || branch == last;
    }
  }

  lemma CompositeIsObject(branches: seq<Branch>)
    requires forall i :: 0 <= i < |branches| ==> branches[i].inputSchema.Obj?
    ensures CompositeSchema(branches).Obj?
  {
  }

  /** A branch that itself requires `operation` refuses everything that can be forwarded to it. */
  lemma OwnOperationIsNeverForwarded(schema: Json, fields: seq<Field>)
    requires schema.Obj? && Member(schema, "type") == Some(Str("object"))
    requires Items(schema, "anyOf").None? && Items(schema, "oneOf").None?
    requires Str(OPERATION) in Items(schema, "required").GetOr([])
    ensures !Accepts(schema, Obj(Forwarded(fields)))
  {
    hide Get, Forwarded;
    ObjectSchemaAccepts(schema, Obj(Forwarded(fields)));
    ForwardedGet(fields, OPERATION);
    assert !HasKey(Obj(Forwarded(fields)), Str(OPERATION).s);
  }
}
