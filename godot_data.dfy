/** The generic document model of Godot's text resource format (`.tres`):
    values, fields, property assignments, tags and whole files. */
module GodotData {
  import opened Common

  /** An f64. Finite values are kept as the exact decimal they were written as: the
      rounding of `str::parse::<f64>` to the nearest binary double is not modelled. */
  datatype F64 = Finite(x: real) | Infinity | NegInfinity | NaN

  datatype Vector2i = Vec2i(x: i64, y: i64)

  /** A colour: four components, or the literal `#RRGGBB[AA]` text kept verbatim. */
  datatype Color = Rgba(r: F64, g: F64, b: F64, a: F64) | Html(text: string)

  /** The closed set of literal and reference values the format supports. */
  datatype Value =
    | Bool(b: bool)
    | Null
    | Integer(i: i64)
    | Double(d: F64)
    | String(s: string)
    | StringName(s: string)
    | Color(color: Color)
    | Vector2i(v: Vector2i)
    | SubResource(id: string)
    | ExtResource(id: string)

  /** An inline `identifier=value` pair of a tag header. */
  datatype Field = Field(identifier: string, value: Value)

  /** A `path = value` property line following a tag header. */
  datatype TagAssign = TagAssign(assign: string, value: Value)

  /** A bracketed `[name field=value ...]` header with its trailing property lines. */
  datatype Tag = Tag(name: string, fields: seq<Field>, assigns: seq<TagAssign>)

  /** A parsed file: the header tag and the body tags in file order. */
  datatype GodotFile = GodotFile(header: Tag, tags: seq<Tag>)

  /** No field before index `i` has identifier `key`. */
  ghost predicate FirstAt(fields: seq<Field>, key: string, i: nat)
    requires i <= |fields|
  {
    forall j :: 0 <= j < i ==> fields[j].identifier != key
  }

  /** `fields.iter().find(|f| f.identifier == key)`: the first field with that identifier. */
  function FindField(fields: seq<Field>, key: string): (r: Option<Field>)
    ensures r.Some? <==> exists i :: 0 <= i < |fields| && fields[i].identifier == key
    ensures r.Some? ==> r.value in fields && r.value.identifier == key
    ensures r.Some? ==> exists i :: 0 <= i < |fields| && fields[i] == r.value && FirstAt(fields, key, i)
  {
    if fields == [] then None
    else if fields[0].identifier == key then Some(fields[0])
    else
      var r := FindField(fields[1..], key);
      assert r.Some? ==> exists i :: 1 <= i < |fields| && fields[i] == r.value && FirstAt(fields, key, i) by {
        if r.Some? {
          var i :| 0 <= i < |fields[1..]| && fields[1..][i] == r.value && FirstAt(fields[1..], key, i);
          assert fields[i + 1] == r.value;
          forall j | 0 <= j < i + 1 ensures fields[j].identifier != key {
            if j > 0 { assert fields[j] == fields[1..][j - 1]; }
          }
        }
      }
      r
  }
}
