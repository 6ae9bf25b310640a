/**
  The JSON Schema subset of the tool boundary (packages/mcp/src/schema-validation.ts).  `Accepts` says what a schema
  means; the validator collects issues and reports none exactly for the accepted values.  Schemas and values have no
  inherited fields here.
 */
module SchemaValidation {
  import opened Wrappers
  import opened JsonValues

  /** The member of an object, with the fact that it is a part of it. */
  function Member(json: Json, key: string): (found: Option<Json>)
    requires json.Obj?
    ensures found == Get(json.fields, key)
    ensures found.Some? ==> found.value < json
  {
    var i := IndexOf(json.fields, key);
    if i.None? then None else Some(json.fields[i.value].value)
  }

  function IndexOf(fields: seq<Field>, key: string): (i: Option<nat>)
    ensures i.Some? ==> i.value < |fields| && fields[i.value].key == key && Get(fields, key) == Some(fields[i.value].value)
    ensures i.None? ==> Get(fields, key) == None
  {
    if fields == [] then None
    else if fields[0].key == key then Some(0)
    else
      var rest := IndexOf(fields[1..], key);
      if rest.None? then None else Some(rest.value + 1)
  }

  function Items(json: Json, key: string): (items: Option<seq<Json>>)
    requires json.Obj?
    ensures items.Some? ==> forall i :: 0 <= i < |items.value| ==> items.value[i] < json
  {
    var found := Member(json, key);
    if found.Some? && found.value.Arr? then Some(found.value.items) else None
  }

  /** `Object.is` on parsed values: two objects or arrays are never the same one. */
  predicate Is(a: Json, b: Json) {
    a == b && !a.Obj? && !a.Arr?
  }

  predicate IsInteger(value: Json) {
    value.Num? && value.n.Floor as real == value.n
  }

  predicate HasType(expected: string, value: Json) {
    match expected
    case "object" => value.Obj?
    case "array" => value.Arr?
    case "string" => value.Str?
    case "integer" => IsInteger(value)
    case "boolean" => value.Bool?
    case "null" => value.Null?
    case _ => false
  }

  predicate TypeOk(schema: Json, value: Json)
    requires schema.Obj?
  {
    var expected := Member(schema, "type");
    expected.Some? && expected.value.Str? ==> HasType(expected.value.s, value)
  }

  predicate EnumOk(schema: Json, value: Json)
    requires schema.Obj?
  {
    var allowed := Items(schema, "enum");
    allowed.Some? ==> exists i :: 0 <= i < |allowed.value| && Is(allowed.value[i], value)
  }

  predicate ConstOk(schema: Json, value: Json)
    requires schema.Obj?
  {
    var constant := Member(schema, "const");
    constant.Some? ==> Is(constant.value, value)
  }

  predicate BoundsOk(schema: Json, value: Json)
    requires schema.Obj?
  {
    var minimum, maximum := Member(schema, "minimum"), Member(schema, "maximum");
    && (minimum.Some? && minimum.value.Num? && value.Num? ==> minimum.value.n <= value.n)
    && (maximum.Some? && maximum.value.Num? && value.Num? ==> value.n <= maximum.value.n)
  }

  predicate HasKey(value: Json, key: string)
    requires value.Obj?
  {
    Get(value.fields, key).Some?
  }

  /** The property schemas, as (name, schema) pairs; empty unless `properties` is an object. */
  function Properties(schema: Json): (properties: seq<Field>)
    requires schema.Obj?
    ensures forall i :: 0 <= i < |properties| ==> properties[i].value < schema
  {
    var found := Member(schema, "properties");
    if found.Some? && found.value.Obj? then found.value.fields else []
  }

  /** Entries of `required` that are not strings are ignored. */
  predicate RequiredOk(schema: Json, value: Json)
    requires schema.Obj? && value.Obj?
  {
    var required := Items(schema, "required").GetOr([]);
    forall field <- required :: field.Str? ==> HasKey(value, field.s)
  }

  predicate IsClosed(schema: Json)
    requires schema.Obj?
  {
    Member(schema, "additionalProperties") == Some(Bool(false))
  }

  predicate NothingAdditional(schema: Json, value: Json)
    requires schema.Obj? && value.Obj?
  {
    IsClosed(schema) ==> forall f <- value.fields :: Get(Properties(schema), f.key).Some?
  }

  /** Some candidate schema accepts the value. */
  predicate AnyOfOk(schema: Json, candidates: seq<Json>, value: Json)
    requires schema.Obj? && forall i :: 0 <= i < |candidates| ==> candidates[i] < schema
    decreases schema, 0
  {
    exists i :: 0 <= i < |candidates| && candidates[i].Obj? && Accepts(candidates[i], value)
  }

  /** Exactly one candidate schema accepts the value: section 10.2.1.3 of JSON Schema Core draft 2020-12. */
  predicate OneOfOk(schema: Json, candidates: seq<Json>, value: Json)
    requires schema.Obj? && forall i :: 0 <= i < |candidates| ==> candidates[i] < schema
    decreases schema, 0
  {
    && (exists i :: 0 <= i < |candidates| && candidates[i].Obj? && Accepts(candidates[i], value))
    && (forall i, j :: 0 <= i < j < |candidates| && candidates[i].Obj? && candidates[j].Obj? ==>
          !(Accepts(candidates[i], value) && Accepts(candidates[j], value)))
  }

  /** Every property schema accepts its property, where the value has it. */
  predicate PropertiesOk(schema: Json, value: Json)
    requires schema.Obj? && value.Obj?
    decreases schema, 0
  {
    var properties := Properties(schema);
    forall i :: 0 <= i < |properties| && properties[i].value.Obj? ==>
      (HasKey(value, properties[i].key) ==> Accepts(properties[i].value, Get(value.fields, properties[i].key).value))
  }

  predicate ItemsOk(schema: Json, value: Json)
    requires schema.Obj? && value.Arr?
    decreases schema, 0
  {
    var items := Member(schema, "items");
    items.Some? && items.value.Obj? ==> forall i :: 0 <= i < |value.items| ==> Accepts(items.value, value.items[i])
  }

  /** What a schema means. */
  predicate Accepts(schema: Json, value: Json)
    requires schema.Obj?
    decreases schema, 1
  {
    var anyOf, oneOf := Items(schema, "anyOf"), Items(schema, "oneOf");
    if anyOf.Some? then AnyOfOk(schema, anyOf.value, value)
    else if oneOf.Some? then OneOfOk(schema, oneOf.value, value)
    else
      && TypeOk(schema, value) && EnumOk(schema, value) && ConstOk(schema, value) && BoundsOk(schema, value)
      && (Member(schema, "type") == Some(Str("object")) && value.Obj? ==>
            RequiredOk(schema, value) && NothingAdditional(schema, value) && PropertiesOk(schema, value))
      && (Member(schema, "type") == Some(Str("array")) && value.Arr? ==> ItemsOk(schema, value))
  }

  // ---------- The validator ----------

  datatype Segment = Key(name: string) | Index(at: nat)

  datatype Reason = NoAllowedSchema | NotExactlyOne(matched: nat) | WrongType | NotInEnum | NotConstant | FieldMissing
                  | FieldNotAllowed | TooSmall | TooLarge

  datatype Issue = Issue(path: seq<Segment>, reason: Reason)

  ghost predicate Below(path: seq<Segment>, issues: seq<Issue>) {
    forall issue <- issues :: path <= issue.path
  }

  lemma BelowChild(path: seq<Segment>, segment: Segment, issues: seq<Issue>)
    requires Below(path + [segment], issues)
    ensures Below(path, issues)
  {
    forall issue <- issues ensures path <= issue.path {
      assert path <= path + [segment] <= issue.path;
    }
  }

  /** Every `const` property that the value has, it has with that constant. */
  predicate MatchesPresentConstDiscriminators(schema: Json, value: Json)
    requires schema.Obj? && value.Obj?
  {
    var properties := Properties(schema);
    forall i :: 0 <= i < |properties| ==>
      var property := properties[i].value;
      property.Obj? && Member(property, "const").Some? && HasKey(value, properties[i].key) ==>
        Is(Member(property, "const").value, Get(value.fields, properties[i].key).value)
  }

  // ---------- Which issues there are ----------

  /** How many of the first `n` candidates accept the value. */
  function Accepting(candidates: seq<Json>, n: nat, value: Json): nat
    requires n <= |candidates|
  {
    if n == 0 then 0
    else
      var last := candidates[n - 1];
      Accepting(candidates, n - 1, value) + (if last.Obj? && Accepts(last, value) then 1 else 0)
  }

  /** The candidate whose `const` properties all fit what the value has of them. */
  predicate IsNearMiss(candidates: seq<Json>, k: nat, value: Json) {
    && k < |candidates| && candidates[k].Obj? && value.Obj?
    && MatchesPresentConstDiscriminators(candidates[k], value)
  }

  lemma NearMissMeans(candidates: seq<Json>, k: nat, value: Json)
    requires k < |candidates|
    ensures IsNearMiss(candidates, k, value) <==>
              candidates[k].Obj? && value.Obj? && MatchesPresentConstDiscriminators(candidates[k], value)
  {
  }

  function NearMisses(candidates: seq<Json>, n: nat, value: Json): nat
    requires n <= |candidates|
  {
    if n == 0 then 0 else NearMisses(candidates, n - 1, value) + (if IsNearMiss(candidates, n - 1, value) then 1 else 0)
  }

  ghost predicate IsOnlyNearMiss(candidates: seq<Json>, k: nat, value: Json) {
    IsNearMiss(candidates, k, value) && forall j :: IsNearMiss(candidates, j, value) ==> j == k
  }

  lemma {:induction false} CountedNearMisses(candidates: seq<Json>, n: nat, value: Json)
    requires n <= |candidates|
    ensures NearMisses(candidates, n, value) == 0 <==> forall j :: 0 <= j < n ==> !IsNearMiss(candidates, j, value)
    ensures NearMisses(candidates, n, value) == 1 <==>
              exists k :: 0 <= k < n && IsNearMiss(candidates, k, value)
                          && forall j :: 0 <= j < n && IsNearMiss(candidates, j, value) ==> j == k
    decreases n
  {
    hide IsNearMiss;
    if n > 0 {
      CountedNearMisses(candidates, n - 1, value);
      if IsNearMiss(candidates, n - 1, value) && NearMisses(candidates, n - 1, value) == 0 {
        assert forall j :: 0 <= j < n && IsNearMiss(candidates, j, value) ==> j == n - 1;
      }
    }
  }

  lemma OnlyNearMissExactly(candidates: seq<Json>, value: Json)
    ensures NearMisses(candidates, |candidates|, value) == 1 <==> exists k :: IsOnlyNearMiss(candidates, k, value)
    ensures NearMisses(candidates, |candidates|, value) == 1 ==>
              forall j, k :: IsNearMiss(candidates, j, value) && IsNearMiss(candidates, k, value) ==> j == k
  {
    CountedNearMisses(candidates, |candidates|, value);
    assert forall j: nat :: IsNearMiss(candidates, j, value) ==> j < |candidates|;
    hide IsNearMiss;
    if NearMisses(candidates, |candidates|, value) == 1 {
      var k :| 0 <= k < |candidates| && IsNearMiss(candidates, k, value)
               && forall j :: 0 <= j < |candidates| && IsNearMiss(candidates, j, value) ==> j == k;
      assert IsOnlyNearMiss(candidates, k, value);
    }
    if k :| IsOnlyNearMiss(candidates, k, value) {
      assert IsNearMiss(candidates, k, value);
    }
  }

  lemma {:induction false} CountedCandidates(candidates: seq<Json>, n: nat, value: Json)
    requires n <= |candidates|
    ensures Accepting(candidates, n, value) == 0 <==>
              forall j :: 0 <= j < n && candidates[j].Obj? ==> !Accepts(candidates[j], value)
    ensures Accepting(candidates, n, value) == 1 <==>
              && (exists j :: 0 <= j < n && candidates[j].Obj? && Accepts(candidates[j], value))
              && forall j, k :: 0 <= j < k < n && candidates[j].Obj? && candidates[k].Obj? ==>
                   !(Accepts(candidates[j], value) && Accepts(candidates[k], value))
    decreases n
  {
    hide Accepts;
    if n > 0 { CountedCandidates(candidates, n - 1, value); }
  }

  lemma OneIsAccepted(schema: Json, oneOf: seq<Json>, value: Json)
    requires schema.Obj? && Items(schema, "oneOf") == Some(oneOf)
    ensures OneOfOk(schema, oneOf, value) <==> Accepting(oneOf, |oneOf|, value) == 1
  {
    hide Accepts;
    CountedCandidates(oneOf, |oneOf|, value);
  }

  /**
    What is wrong with a value, and where.  A value of the wrong type has no other fault; a value that matches none of
    several alternatives has the faults of the only near miss, if there is one; and those of a property or an item lie
    below it.
   */
  ghost predicate IsFault(schema: Json, value: Json, path: seq<Segment>, issue: Issue)
    requires schema.Obj?
    decreases schema, 1
  {
    var anyOf, oneOf := Items(schema, "anyOf"), Items(schema, "oneOf");
    if anyOf.Some? then issue == Issue(path, NoAllowedSchema) && !AnyOfOk(schema, anyOf.value, value)
    else if oneOf.Some? then
      var matched := Accepting(oneOf.value, |oneOf.value|, value);
      && matched != 1
      && if matched == 0 && exists k :: IsOnlyNearMiss(oneOf.value, k, value)
         then exists k :: 0 <= k < |oneOf.value| && oneOf.value[k].Obj? && IsOnlyNearMiss(oneOf.value, k, value)
                          && IsFault(oneOf.value[k], value, path, issue)
         else issue == Issue(path, NotExactlyOne(matched))
    else if !TypeOk(schema, value) then issue == Issue(path, WrongType)
    else
      || (issue == Issue(path, NotInEnum) && !EnumOk(schema, value))
      || (issue == Issue(path, NotConstant) && !ConstOk(schema, value))
      || (Member(schema, "type") == Some(Str("object")) && value.Obj? && IsObjectFault(schema, value, path, issue))
      || (Member(schema, "type") == Some(Str("array")) && value.Arr? && IsItemFault(schema, value, path, issue))
      || (issue == Issue(path, TooSmall) && IsTooSmall(schema, value))
      || (issue == Issue(path, TooLarge) && IsTooLarge(schema, value))
  }

  ghost predicate IsTooSmall(schema: Json, value: Json)
    requires schema.Obj?
  {
    exists bound :: Member(schema, "minimum") == Some(Num(bound)) && value.Num? && value.n < bound
  }

  ghost predicate IsTooLarge(schema: Json, value: Json)
    requires schema.Obj?
  {
    exists bound :: Member(schema, "maximum") == Some(Num(bound)) && value.Num? && bound < value.n
  }

  ghost predicate IsMissing(schema: Json, value: Json, path: seq<Segment>, issue: Issue)
    requires schema.Obj? && value.Obj?
  {
    exists name ::
      Str(name) in Items(schema, "required").GetOr([]) && Get(value.fields, name).None? && issue == Issue(path + [Key(name)], FieldMissing)
  }

  ghost predicate IsNotAllowed(schema: Json, value: Json, path: seq<Segment>, issue: Issue)
    requires schema.Obj? && value.Obj?
  {
    exists f <- value.fields ::
      IsClosed(schema) && Get(Properties(schema), f.key).None? && issue == Issue(path + [Key(f.key)], FieldNotAllowed)
  }

  ghost predicate IsObjectFault(schema: Json, value: Json, path: seq<Segment>, issue: Issue)
    requires schema.Obj? && value.Obj?
    decreases schema, 0, 1
  {
    || IsMissing(schema, value, path, issue)
    || IsNotAllowed(schema, value, path, issue)
    || exists i :: 0 <= i < |Properties(schema)| && IsPropertyFault(schema, i, value, path, issue)
  }

  ghost predicate IsPropertyFault(schema: Json, i: nat, value: Json, path: seq<Segment>, issue: Issue)
    requires schema.Obj? && value.Obj? && i < |Properties(schema)|
    decreases schema, 0, 0
  {
    var property := Properties(schema)[i];
    && property.value.Obj? && HasKey(value, property.key)
    && IsFault(property.value, Get(value.fields, property.key).value, path + [Key(property.key)], issue)
  }

  ghost predicate IsItemFault(schema: Json, value: Json, path: seq<Segment>, issue: Issue)
    requires schema.Obj? && value.Arr?
    decreases schema, 0
  {
    var items := Member(schema, "items");
    && items.Some? && items.value.Obj?
    && exists i :: 0 <= i < |value.items| && IsFault(items.value, value.items[i], path + [Index(i)], issue)
  }

  /** `validateValueAgainstSchema`: the issues are empty exactly for an accepted value, all lie at or below `path`, and
      they are exactly the faults of the value. */
  method Validate(schema: Json, value: Json, path: seq<Segment>) returns (issues: seq<Issue>)
    requires schema.Obj?
    ensures issues == [] <==> Accepts(schema, value)
    ensures Below(path, issues)
    ensures forall issue :: issue in issues <==> IsFault(schema, value, path, issue)
    decreases schema, 3
  {
    hide AnyOfOk, OneOfOk, PropertiesOk, ItemsOk, TypeOk, EnumOk, ConstOk, RequiredOk, NothingAdditional, Get, Items, Member;
    var anyOf := Items(schema, "anyOf");
    if anyOf.Some? {
      issues := ValidateAnyOf(schema, anyOf.value, value, path);
      return;
    }
    var oneOf := Items(schema, "oneOf");
    if oneOf.Some? {
      issues := ValidateOneOf(schema, oneOf.value, value, path);
      return;
    }
    if !TypeOk(schema, value) { return [Issue(path, WrongType)]; }
    issues := [];
    if !EnumOk(schema, value) { issues := issues + [Issue(path, NotInEnum)]; }
    if !ConstOk(schema, value) { issues := issues + [Issue(path, NotConstant)]; }
    if Member(schema, "type") == Some(Str("object")) && value.Obj? {
      var more := ValidateObject(schema, value, path);
      issues := issues + more;
    }
    if Member(schema, "type") == Some(Str("array")) && value.Arr? {
      var more := ValidateItems(schema, value, path);
      issues := issues + more;
    }
    var minimum, maximum := Member(schema, "minimum"), Member(schema, "maximum");
    if minimum.Some? && minimum.value.Num? && value.Num? && value.n < minimum.value.n {
      issues := issues + [Issue(path, TooSmall)];
    }
    if maximum.Some? && maximum.value.Num? && value.Num? && value.n > maximum.value.n {
      issues := issues + [Issue(path, TooLarge)];
    }
  }

  /** The first match is enough. */
  method ValidateAnyOf(schema: Json, anyOf: seq<Json>, value: Json, path: seq<Segment>) returns (issues: seq<Issue>)
    requires schema.Obj? && Items(schema, "anyOf") == Some(anyOf)
    ensures Below(path, issues)
    ensures issues == [] <==> AnyOfOk(schema, anyOf, value)
    ensures issues == [] || issues == [Issue(path, NoAllowedSchema)]
    decreases schema, 2
  {
    hide Accepts, Get;
    for i := 0 to |anyOf|
      invariant forall j :: 0 <= j < i && anyOf[j].Obj? ==> !Accepts(anyOf[j], value)
    {
      if anyOf[i].Obj? {
        var candidate := Validate(anyOf[i], value, path);
        if candidate == [] { return []; }
      }
    }
    return [Issue(path, NoAllowedSchema)];
  }

  /** All candidates are tried; one match is needed, and a near miss is reported in its own words. */
  method ValidateOneOf(schema: Json, oneOf: seq<Json>, value: Json, path: seq<Segment>) returns (issues: seq<Issue>)
    requires schema.Obj? && Items(schema, "oneOf") == Some(oneOf)
    ensures Below(path, issues)
    ensures issues == [] <==> OneOfOk(schema, oneOf, value)
    ensures var matched := Accepting(oneOf, |oneOf|, value);
            if matched == 1 then issues == []
            else if matched == 0 && exists k :: IsOnlyNearMiss(oneOf, k, value) then
              forall k :: 0 <= k < |oneOf| && oneOf[k].Obj? && IsOnlyNearMiss(oneOf, k, value) ==>
                forall issue :: issue in issues <==> IsFault(oneOf[k], value, path, issue)
            else issues == [Issue(path, NotExactlyOne(matched))]
    decreases schema, 2
  {
    hide Accepts, MatchesPresentConstDiscriminators, Get, IsFault, IsNearMiss, OneOfOk;
    var matchCount, nearMisses, nearMiss := 0, 0, [];
    ghost var near: nat := 0;
    for i := 0 to |oneOf|
      invariant matchCount == Accepting(oneOf, i, value) && nearMisses == NearMisses(oneOf, i, value)
      invariant nearMisses > 0 && matchCount == 0 ==> nearMiss != [] && Below(path, nearMiss)
      invariant nearMisses > 0 ==>
                  near < i && IsNearMiss(oneOf, near, value) && oneOf[near].Obj?
                  && forall issue :: issue in nearMiss <==> IsFault(oneOf[near], value, path, issue)
    {
      NearMissMeans(oneOf, i, value);
      if oneOf[i].Obj? {
        var candidate := Validate(oneOf[i], value, path);
        if candidate == [] {
          matchCount := matchCount + 1;
        }
        if value.Obj? && MatchesPresentConstDiscriminators(oneOf[i], value) {
          nearMisses, nearMiss, near := nearMisses + 1, candidate, i;
        }
      }
    }
    OneIsAccepted(schema, oneOf, value);
    OnlyNearMissExactly(oneOf, value);
    if matchCount == 1 { return []; }
    if matchCount == 0 && nearMisses == 1 { return nearMiss; }
    return [Issue(path, NotExactlyOne(matchCount))];
  }

  method ValidateObject(schema: Json, value: Json, path: seq<Segment>) returns (issues: seq<Issue>)
    requires schema.Obj? && value.Obj?
    ensures Below(path, issues)
    ensures issues == [] <==> RequiredOk(schema, value) && NothingAdditional(schema, value) && PropertiesOk(schema, value)
    ensures forall issue :: issue in issues <==> IsObjectFault(schema, value, path, issue)
    decreases schema, 2
  {
    hide Accepts, Get, RequiredOk, IsFault, IsMissing, IsPropertyFault, PropertiesOk;
    issues := RequiredIssues(schema, value, path);
    if IsClosed(schema) {
      var more := AdditionalIssues(schema, value, path);
      issues := issues + more;
    }
    var more := PropertyIssues(schema, value, path);
    issues := issues + more;
  }

  method PropertyIssues(schema: Json, value: Json, path: seq<Segment>) returns (issues: seq<Issue>)
    requires schema.Obj? && value.Obj?
    ensures Below(path, issues) && (issues == [] <==> PropertiesOk(schema, value))
    ensures forall issue :: issue in issues <==> exists i :: 0 <= i < |Properties(schema)| && IsPropertyFault(schema, i, value, path, issue)
    decreases schema, 1
  {
    hide Accepts, Get, IsFault, IsPropertyFault;
    issues := [];
    for i := 0 to |Properties(schema)|
      invariant Below(path, issues)
      invariant issues == [] <==> forall j :: 0 <= j < i ==> PropertyIsOk(schema, j, value)
      invariant forall issue :: issue in issues <==> exists j :: 0 <= j < i && IsPropertyFault(schema, j, value, path, issue)
    {
      var more := OnePropertyIssues(schema, i, value, path);
      assert forall issue :: (exists j :: 0 <= j < i + 1 && IsPropertyFault(schema, j, value, path, issue)) <==>
          (exists j :: 0 <= j < i && IsPropertyFault(schema, j, value, path, issue)) || IsPropertyFault(schema, i, value, path, issue);
      issues := issues + more;
    }
    PropertiesOneByOne(schema, value);
  }

  lemma PropertiesOneByOne(schema: Json, value: Json)
    requires schema.Obj? && value.Obj?
    ensures PropertiesOk(schema, value) <==> forall i :: 0 <= i < |Properties(schema)| ==> PropertyIsOk(schema, i, value)
  {
    hide Accepts, Get;
    var properties := Properties(schema);
    if forall i :: 0 <= i < |properties| ==> PropertyIsOk(schema, i, value) {
      forall i | 0 <= i < |properties| && properties[i].value.Obj? && HasKey(value, properties[i].key)
        ensures Accepts(properties[i].value, Get(value.fields, properties[i].key).value)
      {
        assert PropertyIsOk(schema, i, value);
      }
    }
  }

  predicate PropertyIsOk(schema: Json, i: nat, value: Json)
    requires schema.Obj? && value.Obj? && i < |Properties(schema)|
  {
    var property := Properties(schema)[i];
    property.value.Obj? && HasKey(value, property.key) ==> Accepts(property.value, Get(value.fields, property.key).value)
  }

  /** The issues of one property, if the value has it. */
  method OnePropertyIssues(schema: Json, i: nat, value: Json, path: seq<Segment>) returns (issues: seq<Issue>)
    requires schema.Obj? && value.Obj? && i < |Properties(schema)|
    ensures Below(path, issues) && (issues == [] <==> PropertyIsOk(schema, i, value))
    ensures forall issue :: issue in issues <==> IsPropertyFault(schema, i, value, path, issue)
    decreases schema, 0
  {
    hide Accepts, Get, IsFault;
    var property := Properties(schema)[i];
    if !HasKey(value, property.key) || !property.value.Obj? { return []; }
    issues := Validate(property.value, Get(value.fields, property.key).value, path + [Key(property.key)]);
    BelowChild(path, Key(property.key), issues);
  }

  method RequiredIssues(schema: Json, value: Json, path: seq<Segment>) returns (issues: seq<Issue>)
    requires schema.Obj? && value.Obj?
    ensures Below(path, issues) && (issues == [] <==> RequiredOk(schema, value))
    ensures forall issue :: issue in issues <==> IsMissing(schema, value, path, issue)
  {
    hide Get;
    var required := Items(schema, "required").GetOr([]);
    issues := [];
    for i := 0 to |required|
      invariant Below(path, issues)
      invariant issues == [] <==> forall field <- required[..i] :: field.Str? ==> HasKey(value, field.s)
      invariant forall issue :: issue in issues <==>
                  exists name :: Str(name) in required[..i] && Get(value.fields, name).None? && issue == Issue(path + [Key(name)], FieldMissing)
    {
      assert required[..i + 1] == required[..i] + [required[i]];
      if required[i].Str? && !HasKey(value, required[i].s) {
        issues := issues + [Issue(path + [Key(required[i].s)], FieldMissing)];
      }
    }
    assert required[..|required|] == required;
  }

  method AdditionalIssues(schema: Json, value: Json, path: seq<Segment>) returns (issues: seq<Issue>)
    requires schema.Obj? && value.Obj? && IsClosed(schema)
    ensures Below(path, issues) && (issues == [] <==> NothingAdditional(schema, value))
    ensures forall issue :: issue in issues <==> IsNotAllowed(schema, value, path, issue)
  {
    hide Get;
    issues := [];
    for i := 0 to |value.fields|
      invariant Below(path, issues)
      invariant issues == [] <==> forall f <- value.fields[..i] :: Get(Properties(schema), f.key).Some?
      invariant forall issue :: issue in issues <==>
                  exists f <- value.fields[..i] :: Get(Properties(schema), f.key).None? && issue == Issue(path + [Key(f.key)], FieldNotAllowed)
    {
      assert value.fields[..i + 1] == value.fields[..i] + [value.fields[i]];
      if Get(Properties(schema), value.fields[i].key).None? {
        issues := issues + [Issue(path + [Key(value.fields[i].key)], FieldNotAllowed)];
      }
    }
    assert value.fields[..|value.fields|] == value.fields;
  }

  method ValidateItems(schema: Json, value: Json, path: seq<Segment>) returns (issues: seq<Issue>)
    requires schema.Obj? && value.Arr?
    ensures Below(path, issues)
    ensures issues == [] <==> ItemsOk(schema, value)
    ensures forall issue :: issue in issues <==> IsItemFault(schema, value, path, issue)
    decreases schema, 2
  {
    hide Accepts, Get, IsFault;
    issues := [];
    var items := Member(schema, "items");
    if items.None? || !items.value.Obj? { return; }
    for i := 0 to |value.items|
      invariant Below(path, issues)
      invariant issues == [] <==> forall j :: 0 <= j < i ==> Accepts(items.value, value.items[j])
      invariant forall issue :: issue in issues <==>
                  exists j :: 0 <= j < i && IsFault(items.value, value.items[j], path + [Index(j)], issue)
    {
      var more := Validate(items.value, value.items[i], path + [Index(i)]);
      BelowChild(path, Index(i), more);
      issues := issues + more;
    }
  }
}
