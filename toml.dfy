/** The TOML value tree (`toml::Value`) that every configuration source is
    parsed into, and the decoding rules serde applies when a value is turned
    into one of the typed configuration records. Scalars the core never
    inspects (floats, datetimes) are opaque tags. */
module Toml {
  import opened Results

  datatype Value =
    | Str(s: string)
    | Integer(i: int)
    | Boolean(b: bool)
    | Float(floatTag: int)
    | Datetime(datetimeTag: int)
    | Array(items: seq<Value>)
    | Table(entries: map<string, Value>)

  const EmptyTable: Value := Table(map[])

  /** Why decoding or parsing failed. Parser messages are opaque. */
  datatype Error =
    | ParseError(message: string)
    | ExpectedTable
    | UnknownFields(fields: set<string>)
    | InvalidType(field: string)
    | MissingField(field: string)
    | IoError(kind: string)

  /** `v.get(key)`: a lookup that only a table can answer. */
  function Get(v: Value, key: string): (r: Option<Value>)
    ensures r.Some? <==> v.Table? && key in v.entries
    ensures r.Some? ==> r.value == v.entries[key]
  {
    if v.Table? && key in v.entries then Some(v.entries[key]) else None
  }

  /** `v.get("name").and_then(Value::as_str)`: the identity used to
      correlate array elements during a merge. */
  function NameOf(v: Value): (r: Option<string>)
    ensures r.Some? <==> v.Table? && "name" in v.entries && v.entries["name"].Str?
    ensures r.Some? ==> v.entries["name"] == Str(r.value)
  {
    match Get(v, "name")
    case Some(Str(s)) => Some(s)
    case _ => None
  }

  predicate IsStringArray(v: Value) {
    v.Array? && forall i :: 0 <= i < |v.items| ==> v.items[i].Str?
  }

  function Strings(v: Value): (r: seq<string>)
    requires IsStringArray(v)
    ensures |r| == |v.items| && forall i :: 0 <= i < |r| ==> v.items[i] == Str(r[i])
  {
    seq(|v.items|, i requires 0 <= i < |v.items| => v.items[i].s)
  }

  function StringArray(ss: seq<string>): (r: Value)
    ensures IsStringArray(r) && Strings(r) == ss
  {
    Array(seq(|ss|, i requires 0 <= i < |ss| => Str(ss[i])))
  }

  // Field decoders for a struct marked `#[serde(default)]`: an absent key
  // takes the field's default, a present key must hold the right type.

  function FieldString(m: map<string, Value>, key: string, default: string): Result<string, Error> {
    if key !in m then Ok(default)
    else if m[key].Str? then Ok(m[key].s)
    else Err(InvalidType(key))
  }

  function FieldBool(m: map<string, Value>, key: string, default: bool): Result<bool, Error> {
    if key !in m then Ok(default)
    else if m[key].Boolean? then Ok(m[key].b)
    else Err(InvalidType(key))
  }

  function FieldStrings(m: map<string, Value>, key: string): Result<seq<string>, Error> {
    if key !in m then Ok([])
    else if IsStringArray(m[key]) then Ok(Strings(m[key]))
    else Err(InvalidType(key))
  }

  /** An `Option<String>` field: absent is `None`, a string is `Some`. */
  function FieldOptString(m: map<string, Value>, key: string): Result<Option<string>, Error> {
    if key !in m then Ok(None)
    else if m[key].Str? then Ok(Some(m[key].s))
    else Err(InvalidType(key))
  }

  /** `deny_unknown_fields`: every key must name a field. */
  function CheckKnown(m: map<string, Value>, fields: set<string>): (r: Result<(), Error>)
    ensures r.Ok? <==> m.Keys <= fields
    ensures r.Err? ==> r.error == UnknownFields(m.Keys - fields)
  {
    if m.Keys <= fields then Ok(()) else Err(UnknownFields(m.Keys - fields))
  }
}
