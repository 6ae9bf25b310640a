/** JSON values.  An object keeps its fields in insertion order, as the source's engine does. */
module JsonValues {
  import opened Wrappers

  datatype Json = Null | Bool(b: bool) | Num(n: real) | Str(s: string) | Arr(items: seq<Json>) | Obj(fields: seq<Field>)

  datatype Field = Field(key: string, value: Json)

  /** `object[key]`: the value of the field, if the object has it. */
  function Get(fields: seq<Field>, key: string): Option<Json> {
    if fields == [] then None
    else if fields[0].key == key then Some(fields[0].value)
    else Get(fields[1..], key)
  }

  /** The value of a field that must be a string; anything else reads as absent. */
  function StringField(json: Json, key: string): Option<string> {
    if json.Obj? then
      var found := Get(json.fields, key);
      if found.Some? && found.value.Str? then Some(found.value.s) else None
    else None
  }
}
