/** What each keyword of a tool schema means on its own (packages/mcp/src/schema-validation.ts). */
module SchemaKeywords {
  import opened Wrappers
  import opened JsonValues
  import opened SchemaValidation

  lemma GetOfOne(f: Field, key: string)
    ensures Get([f], key) == if f.key == key then Some(f.value) else None
  {
    assert [f][1..] == [];
  }

  lemma GetOfTwo(f: Field, g: Field, key: string)
    ensures Get([f, g], key) == if f.key == key then Some(f.value) else if g.key == key then Some(g.value) else None
  {
    assert [f, g][1..] == [g];
    GetOfOne(g, key);
  }

  /** A schema without keywords accepts everything. */
  lemma EmptySchema(value: Json)
    ensures Accepts(Obj([]), value)
  {
  }

  function AsReal(whole: int): real {
    whole as real
  }

  ghost predicate IsWhole(n: real) {
    exists whole :: AsReal(whole) == n
  }

  /** `type`: a number is an integer when it has no fraction, null is no object, and an unknown type accepts nothing. */
  lemma TypeKeyword(name: string, value: Json)
    ensures Accepts(Obj([Field("type", Str(name))]), value) <==>
              || (name == "object" && value.Obj?)
              || (name == "array" && value.Arr?)
              || (name == "string" && value.Str?)
              || (name == "boolean" && value.Bool?)
              || (name == "null" && value == Null)
              || (name == "integer" && value.Num? && IsWhole(value.n))
  {
    var f := Field("type", Str(name));
    forall key ensures Get([f], key) == if key == "type" then Some(Str(name)) else None { GetOfOne(f, key); }
    if value.Num? {
      assert value.n == value.n.Floor as real ==> AsReal(value.n.Floor) == value.n;
      if whole :| AsReal(whole) == value.n { assert value.n.Floor == whole; }
    }
  }

  /** `const`: a value that is neither an object nor an array can only be itself, and those never match. */
  lemma ConstKeyword(constant: Json, value: Json)
    ensures Accepts(Obj([Field("const", constant)]), value) <==> value == constant && !value.Obj? && !value.Arr?
  {
    var f := Field("const", constant);
    forall key ensures Get([f], key) == if key == "const" then Some(constant) else None { GetOfOne(f, key); }
  }

  lemma EnumKeyword(allowed: seq<Json>, value: Json)
    ensures Accepts(Obj([Field("enum", Arr(allowed))]), value) <==> value in allowed && !value.Obj? && !value.Arr?
  {
    var f := Field("enum", Arr(allowed));
    forall key ensures Get([f], key) == if key == "enum" then Some(Arr(allowed)) else None { GetOfOne(f, key); }
    assert Items(Obj([f]), "enum") == Some(allowed);
  }

  /** Both bounds are inclusive, and say nothing about what is no number. */
  lemma BoundsKeywords(low: real, high: real, value: Json)
    ensures Accepts(Obj([Field("minimum", Num(low)), Field("maximum", Num(high))]), value) <==>
              (value.Num? ==> low <= value.n && value.n <= high)
  {
    var f, g := Field("minimum", Num(low)), Field("maximum", Num(high));
    forall key ensures Get([f, g], key) == if key == "minimum" then Some(Num(low)) else if key == "maximum" then Some(Num(high)) else None {
      GetOfTwo(f, g, key);
    }
  }

  lemma RequiredMeans(schema: Json, required: seq<Json>, value: Json)
    requires schema.Obj? && value.Obj? && Items(schema, "required") == Some(required)
    ensures RequiredOk(schema, value) <==> forall name :: Str(name) in required ==> Get(value.fields, name).Some?
  {
    hide Get, Items;
    if RequiredOk(schema, value) {
      forall name | Str(name) in required ensures Get(value.fields, name).Some? { assert HasKey(value, Str(name).s); }
    }
    if forall name :: Str(name) in required ==> Get(value.fields, name).Some? {
      forall field <- required | field.Str? ensures HasKey(value, field.s) { assert Str(field.s) in required; }
    }
  }

  lemma PropertiesMean(schema: Json, properties: seq<Field>, value: Json)
    requires schema.Obj? && value.Obj? && Properties(schema) == properties
    requires forall i :: 0 <= i < |properties| ==> properties[i].value.Obj?
    ensures PropertiesOk(schema, value) <==>
              forall i :: 0 <= i < |properties| && Get(value.fields, properties[i].key).Some? ==>
                Accepts(properties[i].value, Get(value.fields, properties[i].key).value)
  {
    hide Get, Accepts, Properties;
  }

  /**
    An object schema: all required names are there, no other than the declared ones if it is closed, and every declared
    property that is there is accepted.
   */
  lemma ObjectKeywords(schema: Json, properties: seq<Field>, required: seq<Json>, value: Json)
    requires schema.Obj? && (forall i :: 0 <= i < |properties| ==> properties[i].value.Obj?)
    requires Get(schema.fields, "type") == Some(Str("object"))
    requires Get(schema.fields, "required") == Some(Arr(required)) && Get(schema.fields, "properties") == Some(Obj(properties))
    requires forall key :: key in {"anyOf", "oneOf", "enum", "const", "minimum", "maximum"} ==> Get(schema.fields, key).None?
    ensures Accepts(schema, value) <==>
              && value.Obj?
              && (forall name :: Str(name) in required ==> Get(value.fields, name).Some?)
              && (Get(schema.fields, "additionalProperties") == Some(Bool(false)) ==>
                    forall f <- value.fields :: Get(properties, f.key).Some?)
              && (forall i :: 0 <= i < |properties| && Get(value.fields, properties[i].key).Some? ==>
                    Accepts(properties[i].value, Get(value.fields, properties[i].key).value))
  {
    hide Get, RequiredOk, PropertiesOk;
    assert Items(schema, "required") == Some(required) && Properties(schema) == properties;
    assert Items(schema, "anyOf").None? && Items(schema, "oneOf").None? && Items(schema, "enum").None?;
    assert Accepts(schema, value) <==>
           value.Obj? && RequiredOk(schema, value) && NothingAdditional(schema, value) && PropertiesOk(schema, value);
    hide Accepts;
    if value.Obj? {
      RequiredMeans(schema, required, value);
      PropertiesMean(schema, properties, value);
    }
  }

  lemma ArrayKeywords(items: Json, value: Json)
    requires items.Obj?
    ensures Accepts(Obj([Field("type", Str("array")), Field("items", items)]), value) <==>
              value.Arr? && forall i :: 0 <= i < |value.items| ==> Accepts(items, value.items[i])
  {
    var f, g := Field("type", Str("array")), Field("items", items);
    var schema := Obj([f, g]);
    forall key ensures Get([f, g], key) == if key == "type" then Some(Str("array")) else if key == "items" then Some(items) else None {
      GetOfTwo(f, g, key);
    }
    assert Member(schema, "items") == Some(items) && Member(schema, "type") == Some(Str("array"));
    assert Items(schema, "anyOf").None? && Items(schema, "oneOf").None? && Items(schema, "enum").None?;
    if value.Arr? { assert ItemsOk(schema, value) <==> forall i :: 0 <= i < |value.items| ==> Accepts(items, value.items[i]); }
  }

  /** `anyOf` decides alone, and candidates that are no schemas do not count. */
  lemma AnyOfKeyword(candidates: seq<Json>, rest: Field, value: Json)
    ensures Accepts(Obj([Field("anyOf", Arr(candidates)), rest]), value) <==>
              exists i :: 0 <= i < |candidates| && candidates[i].Obj? && Accepts(candidates[i], value)
  {
    var f := Field("anyOf", Arr(candidates));
    var schema := Obj([f, rest]);
    GetOfTwo(f, rest, "anyOf");
    assert Items(schema, "anyOf") == Some(candidates);
    assert AnyOfOk(schema, candidates, value) <==>
           exists i :: 0 <= i < |candidates| && candidates[i].Obj? && Accepts(candidates[i], value);
  }

  lemma OneOfKeyword(candidates: seq<Json>, rest: Field, value: Json)
    requires rest.key != "anyOf"
    ensures Accepts(Obj([Field("oneOf", Arr(candidates)), rest]), value) <==>
              exists i :: 0 <= i < |candidates| && candidates[i].Obj? && Accepts(candidates[i], value)
                && forall j :: 0 <= j < |candidates| && candidates[j].Obj? && j != i ==> !Accepts(candidates[j], value)
  {
    var f := Field("oneOf", Arr(candidates));
    var schema := Obj([f, rest]);
    GetOfTwo(f, rest, "oneOf");
    GetOfTwo(f, rest, "anyOf");
    assert Items(schema, "oneOf") == Some(candidates) && Items(schema, "anyOf").None?;
    assert Accepts(schema, value) <==> OneOfOk(schema, candidates, value);
  }

  /** A near miss among alternatives: every declared constant of a property that the value has is the one it has. */
  lemma NearMissExactly(candidates: seq<Json>, k: nat, value: Json)
    requires k < |candidates| && candidates[k].Obj? && value.Obj?
    ensures IsNearMiss(candidates, k, value) <==>
              forall property <- Properties(candidates[k]), constant ::
                property.value.Obj? && Get(property.value.fields, "const") == Some(constant) && Get(value.fields, property.key).Some? ==>
                  Get(value.fields, property.key) == Some(constant) && !constant.Obj? && !constant.Arr?
  {
    hide Get;
  }
}
