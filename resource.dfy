/** The tile-set resource the tool reads from and writes back to a Godot project, and
    the schema check that turns a parsed `.tres` document into it. Each `init_from_*`
    loop is proved equal to a declarative description of the documents it accepts. */
module Resource {
  import opened Common
  import G = GodotData

  /** The external `Texture2D` resource holding the tile sheet image. */
  datatype TextureResource = TextureResource(uid: string, path: string, id: string)

  /** The terrain on each of the six sides of a hexagonal tile, when there is one. */
  datatype PeeringBit = PeeringBit(
    bottomRightSide: Option<u32>,
    bottomSide: Option<u32>,
    bottomLeftSide: Option<u32>,
    topLeftSide: Option<u32>,
    topSide: Option<u32>,
    topRightSide: Option<u32>)

  /** `PeeringBit::default()`: no side has a terrain. */
  const NoPeering := PeeringBit(None, None, None, None, None, None)

  /** A tile of the atlas: its cell and, for terrain tiles, its set, terrain and sides. */
  datatype Tile = Tile(
    position: G.Vector2i,
    terrainSet: Option<u32>,
    terrain: Option<u32>,
    terrainsPeeringBit: PeeringBit)

  datatype TileSetAtlasSource = TileSetAtlasSource(
    id: string,
    texture: string,
    textureRegionSize: G.Vector2i,
    tiles: seq<Tile>)

  datatype TileSetResource = TileSetResource(
    uid: string,
    textureResource: TextureResource,
    tileSetAtlasSource: TileSetAtlasSource)

  // ----- Declarative description of the accepted documents -----

  /** Some field of `fields` is named `key`. */
  predicate HasField(fields: seq<G.Field>, key: string) {
    exists i :: 0 <= i < |fields| && fields[i].identifier == key
  }

  /** The string held by the last field named `key`, or `""` when there is none: what a
      loop that overwrites the value at every such field ends with. */
  function LastString(fields: seq<G.Field>, key: string): string
    decreases |fields|
  {
    if fields == [] then ""
    else
      var f := fields[|fields| - 1];
      if f.identifier == key && f.value.String? then f.value.s
      else LastString(fields[..|fields| - 1], key)
  }

  /** A field the `ext_resource` tag may carry: `type`, `uid`, `path` or `id`, a
      string, and `"Texture2D"` when it is the type. */
  predicate TextureFieldOk(f: G.Field) {
    f.value.String? &&
    (f.identifier == "type" || f.identifier == "uid" || f.identifier == "path" || f.identifier == "id") &&
    (f.identifier == "type" ==> f.value.s == "Texture2D")
  }

  /** The texture resource an `ext_resource` tag describes, if it is well formed: all
      fields allowed, a type present, and the last `uid`, `path` and `id` non-empty. */
  function TextureFromTag(tag: G.Tag): Result<TextureResource> {
    var fs := tag.fields;
    var t := TextureResource(LastString(fs, "uid"), LastString(fs, "path"), LastString(fs, "id"));
    if (forall i :: 0 <= i < |fs| ==> TextureFieldOk(fs[i])) && HasField(fs, "type") &&
       t.uid != "" && t.path != "" && t.id != ""
    then Ok(t)
    else Err(Schema)
  }

  /** A field the `sub_resource` tag may carry: `type` or `id`, a string, and
      `"TileSetAtlasSource"` when it is the type. */
  predicate AtlasFieldOk(f: G.Field) {
    f.value.String? &&
    (f.identifier == "type" || f.identifier == "id") &&
    (f.identifier == "type" ==> f.value.s == "TileSetAtlasSource")
  }

  /** An assign of the `sub_resource` tag: a `texture` must be an `ExtResource`; any
      other path is ignored. */
  predicate AtlasAssignOk(a: G.TagAssign) {
    a.assign == "texture" ==> a.value.ExtResource?
  }

  /** The resource id of the last `texture` assign, or `""` when there is none. */
  function LastTexture(assigns: seq<G.TagAssign>): string
    decreases |assigns|
  {
    if assigns == [] then ""
    else
      var a := assigns[|assigns| - 1];
      if a.assign == "texture" && a.value.ExtResource? then a.value.id
      else LastTexture(assigns[..|assigns| - 1])
  }

  /** The atlas source a `sub_resource` tag describes, if it is well formed. Its region
      size and tiles are not read: they start as (0, 0) and empty. */
  function AtlasFromTag(tag: G.Tag): Result<TileSetAtlasSource> {
    var fs := tag.fields;
    var id := LastString(fs, "id");
    var texture := LastTexture(tag.assigns);
    if (forall i :: 0 <= i < |fs| ==> AtlasFieldOk(fs[i])) &&
       (forall i :: 0 <= i < |tag.assigns| ==> AtlasAssignOk(tag.assigns[i])) &&
       HasField(fs, "type") && id != "" && texture != ""
    then Ok(TileSetAtlasSource(id, texture, G.Vec2i(0, 0), []))
    else Err(Schema)
  }

  /** The body tags named `name`, in file order. */
  function Named(tags: seq<G.Tag>, name: string): seq<G.Tag>
    decreases |tags|
  {
    if tags == [] then []
    else Named(tags[..|tags| - 1], name) + (if tags[|tags| - 1].name == name then [tags[|tags| - 1]] else [])
  }

  /** The tag names a tile-set resource file may contain. */
  predicate KnownTag(tag: G.Tag) {
    tag.name == "ext_resource" || tag.name == "sub_resource" || tag.name == "resource"
  }

  /** The two resources the body tags describe, if they are a valid body: only known
      tags, and exactly one well-formed `ext_resource` and one well-formed
      `sub_resource` among them (any number of `resource` tags). */
  function BodyFromTags(tags: seq<G.Tag>): Result<(TextureResource, TileSetAtlasSource)> {
    var ext := Named(tags, "ext_resource");
    var sub := Named(tags, "sub_resource");
    if (forall i :: 0 <= i < |tags| ==> KnownTag(tags[i])) &&
       |ext| == 1 && |sub| == 1 && TextureFromTag(ext[0]).Ok? && AtlasFromTag(sub[0]).Ok?
    then Ok((TextureFromTag(ext[0]).value, AtlasFromTag(sub[0]).value))
    else Err(Schema)
  }

  /** The resource a parsed file describes, if it is one: a `gd_resource` header whose
      first `uid` field is a string, and a valid body. */
  function ResourceFromFile(file: G.GodotFile): Result<TileSetResource> {
    if file.header.name != "gd_resource" then Err(Schema)
    else
      var uidField := G.FindField(file.header.fields, "uid");
      if uidField.None? || !uidField.value.value.String? then Err(Schema)
      else
        var body :- BodyFromTags(file.tags);
        Ok(TileSetResource(uidField.value.value.s, body.0, body.1))
  }

  // ----- Lemmas about the description -----

  lemma HasFieldSnoc(fields: seq<G.Field>, i: nat, key: string)
    requires i < |fields|
    ensures HasField(fields[..i + 1], key) <==> HasField(fields[..i], key) || fields[i].identifier == key
  {
    assert fields[..i + 1][i] == fields[i];
    if HasField(fields[..i + 1], key) && fields[i].identifier != key {
      var j :| 0 <= j < i + 1 && fields[..i + 1][j].identifier == key;
      assert fields[..i][j] == fields[..i + 1][j];
    }
    if HasField(fields[..i], key) {
      var j :| 0 <= j < i && fields[..i][j].identifier == key;
      assert fields[..i + 1][j] == fields[..i][j];
    }
  }

  lemma LastStringSnoc(fields: seq<G.Field>, i: nat, key: string)
    requires i < |fields|
    ensures LastString(fields[..i + 1], key) ==
      if fields[i].identifier == key && fields[i].value.String? then fields[i].value.s
      else LastString(fields[..i], key)
  {
    assert fields[..i + 1][..i] == fields[..i];
  }

  lemma LastTextureSnoc(assigns: seq<G.TagAssign>, i: nat)
    requires i < |assigns|
    ensures LastTexture(assigns[..i + 1]) ==
      if assigns[i].assign == "texture" && assigns[i].value.ExtResource? then assigns[i].value.id
      else LastTexture(assigns[..i])
  {
    assert assigns[..i + 1][..i] == assigns[..i];
  }

  lemma NamedSnoc(tags: seq<G.Tag>, i: nat, name: string)
    requires i < |tags|
    ensures Named(tags[..i + 1], name) ==
      Named(tags[..i], name) + (if tags[i].name == name then [tags[i]] else [])
  {
    assert tags[..i + 1][..i] == tags[..i];
  }

  /** The tags with a given name in a prefix of the file come first among all of them. */
  lemma {:induction false} NamedPrefix(tags: seq<G.Tag>, k: nat, name: string)
    requires k <= |tags|
    ensures Named(tags[..k], name) <= Named(tags, name)
    decreases |tags|
  {
    if k < |tags| {
      var init := tags[..|tags| - 1];
      assert tags[..k] == init[..k];
      NamedPrefix(init, k, name);
    } else {
      assert tags[..k] == tags;
    }
  }

  lemma {:induction false} NamedAppend(a: seq<G.Tag>, b: seq<G.Tag>, name: string)
    ensures Named(a + b, name) == Named(a, name) + Named(b, name)
    decreases |b|
  {
    if b == [] {
      assert a + b == a;
    } else {
      var b' := b[..|b| - 1];
      assert (a + b)[..|a + b| - 1] == a + b';
      NamedAppend(a, b', name);
    }
  }

  /** Two tags of the same name make that name's list at least two long. */
  lemma TwoNamed(tags: seq<G.Tag>, i: nat, j: nat, name: string)
    requires i < j < |tags| && tags[i].name == name && tags[j].name == name
    ensures |Named(tags, name)| >= 2
  {
    NamedSnoc(tags, i, name);
    NamedSnoc(tags, j, name);
    assert tags[..j][..i + 1] == tags[..i + 1];
    NamedPrefix(tags[..j], i + 1, name);
    NamedPrefix(tags, j + 1, name);
  }

  /** A second `ext_resource` or a second `sub_resource` is rejected, wherever it is. */
  lemma DuplicateResourceRejected(file: G.GodotFile, i: nat, j: nat)
    requires i < j < |file.tags| && file.tags[i].name == file.tags[j].name
    requires file.tags[i].name == "ext_resource" || file.tags[i].name == "sub_resource"
    ensures ResourceFromFile(file).Err?
  {
    TwoNamed(file.tags, i, j, file.tags[i].name);
  }

  /** A tag with any name other than the three known ones is rejected. */
  lemma UnknownTagRejected(file: G.GodotFile, i: nat)
    requires i < |file.tags| && !KnownTag(file.tags[i])
    ensures ResourceFromFile(file).Err?
  {
  }

  /** A file without an `ext_resource`, or without a `sub_resource`, is rejected. */
  lemma MissingResourceRejected(file: G.GodotFile, name: string)
    requires name == "ext_resource" || name == "sub_resource"
    requires forall i :: 0 <= i < |file.tags| ==> file.tags[i].name != name
    ensures ResourceFromFile(file).Err?
  {
    NamedNone(file.tags, name);
  }

  lemma {:induction false} NamedNone(tags: seq<G.Tag>, name: string)
    requires forall i :: 0 <= i < |tags| ==> tags[i].name != name
    ensures Named(tags, name) == []
    decreases |tags|
  {
    if tags != [] {
      NamedNone(tags[..|tags| - 1], name);
    }
  }

  lemma NamedInsert(tags: seq<G.Tag>, k: nat, extra: G.Tag, name: string)
    requires k <= |tags| && extra.name != name
    ensures Named(tags[..k] + [extra] + tags[k..], name) == Named(tags, name)
  {
    assert tags == tags[..k] + tags[k..];
    assert Named([extra], name) == [] by {
      assert [extra][..0] == [];
    }
    NamedAppend(tags[..k] + [extra], tags[k..], name);
    NamedAppend(tags[..k], [extra], name);
    NamedAppend(tags[..k], tags[k..], name);
  }

  lemma KnownInsert(tags: seq<G.Tag>, k: nat, extra: G.Tag)
    requires k <= |tags| && KnownTag(extra)
    ensures var more := tags[..k] + [extra] + tags[k..];
      (forall i :: 0 <= i < |more| ==> KnownTag(more[i])) <==> (forall i :: 0 <= i < |tags| ==> KnownTag(tags[i]))
  {
    var more := tags[..k] + [extra] + tags[k..];
    if forall i :: 0 <= i < |tags| ==> KnownTag(tags[i]) {
      forall i | 0 <= i < |more| ensures KnownTag(more[i]) {
        if i < k { assert more[i] == tags[i]; }
        else if i > k { assert more[i] == tags[i - 1]; }
      }
    }
    if forall i :: 0 <= i < |more| ==> KnownTag(more[i]) {
      forall i | 0 <= i < |tags| ensures KnownTag(tags[i]) {
        if i < k { assert more[i] == tags[i]; } else { assert more[i + 1] == tags[i]; }
      }
    }
  }

  /** `resource` tags are ignored: adding one anywhere in the body changes nothing. */
  lemma ResourceTagIgnored(file: G.GodotFile, k: nat, extra: G.Tag)
    requires k <= |file.tags| && extra.name == "resource"
    ensures ResourceFromFile(file.(tags := file.tags[..k] + [extra] + file.tags[k..])) == ResourceFromFile(file)
  {
    NamedInsert(file.tags, k, extra, "ext_resource");
    NamedInsert(file.tags, k, extra, "sub_resource");
    KnownInsert(file.tags, k, extra);
    assert BodyFromTags(file.tags[..k] + [extra] + file.tags[k..]) == BodyFromTags(file.tags);
  }

  /** A later `uid`, `path` or `id` field overwrites an earlier one. */
  lemma TextureLastFieldWins(tag: G.Tag, key: string, v: string)
    requires key == "uid" || key == "path" || key == "id"
    requires TextureFromTag(tag).Ok? && v != ""
    ensures var t := TextureFromTag(tag).value;
      TextureFromTag(tag.(fields := tag.fields + [G.Field(key, G.String(v))])) ==
        Ok(if key == "uid" then t.(uid := v) else if key == "path" then t.(path := v) else t.(id := v))
  {
    var fs := tag.fields;
    var more := fs + [G.Field(key, G.String(v))];
    assert more[..|fs|] == fs;
    assert forall i :: 0 <= i < |more| ==> TextureFieldOk(more[i]) by {
      forall i | 0 <= i < |more| ensures TextureFieldOk(more[i]) {
        if i < |fs| { assert more[i] == fs[i]; }
      }
    }
    assert HasField(more, "type") by {
      var j :| 0 <= j < |fs| && fs[j].identifier == "type";
      assert more[j] == fs[j];
    }
  }

  /** Assigns other than `texture` do not affect the atlas source read from a tag. */
  lemma AtlasOtherAssignIgnored(tag: G.Tag, a: G.TagAssign)
    requires a.assign != "texture"
    ensures AtlasFromTag(tag.(assigns := tag.assigns + [a])) == AtlasFromTag(tag)
  {
    var more := tag.assigns + [a];
    assert more[..|tag.assigns|] == tag.assigns;
    assert (forall i :: 0 <= i < |more| ==> AtlasAssignOk(more[i])) <==>
           (forall i :: 0 <= i < |tag.assigns| ==> AtlasAssignOk(tag.assigns[i])) by {
      if forall i :: 0 <= i < |tag.assigns| ==> AtlasAssignOk(tag.assigns[i]) {
        forall i | 0 <= i < |more| ensures AtlasAssignOk(more[i]) {
          if i < |tag.assigns| { assert more[i] == tag.assigns[i]; }
        }
      }
      if forall i :: 0 <= i < |more| ==> AtlasAssignOk(more[i]) {
        forall i | 0 <= i < |tag.assigns| ensures AtlasAssignOk(tag.assigns[i]) {
          assert more[i] == tag.assigns[i];
        }
      }
    }
  }

  /** A resource is read only from a `gd_resource` header whose first `uid` field is a
      string, and it keeps that uid. */
  lemma HeaderChecked(file: G.GodotFile)
    requires ResourceFromFile(file).Ok?
    ensures file.header.name == "gd_resource"
    ensures var u := G.FindField(file.header.fields, "uid");
      u.Some? && u.value.value.String? && ResourceFromFile(file).value.uid == u.value.value.s
  {
  }

  /** A field of the `ext_resource` tag other than a string `type`, `uid`, `path` or
      `id`, or a `type` other than `"Texture2D"`, makes the tag invalid. */
  lemma TextureFieldRejected(tag: G.Tag, i: nat)
    requires i < |tag.fields| && !TextureFieldOk(tag.fields[i])
    ensures TextureFromTag(tag).Err?
  {
  }

  /** An empty `uid`, `path` or `id` counts as missing, even after a non-empty one. */
  lemma EmptyValueMissing(tag: G.Tag, key: string)
    requires key == "uid" || key == "path" || key == "id"
    ensures TextureFromTag(tag.(fields := tag.fields + [G.Field(key, G.String(""))])).Err?
  {
    var more := tag.fields + [G.Field(key, G.String(""))];
    assert more[..|more| - 1] == tag.fields;
    assert LastString(more, key) == "";
  }

  /** Without a `texture` assign the atlas tag is invalid. */
  lemma {:induction false} NoTextureAssign(assigns: seq<G.TagAssign>)
    requires forall i :: 0 <= i < |assigns| ==> assigns[i].assign != "texture"
    ensures LastTexture(assigns) == ""
    decreases |assigns|
  {
    if assigns != [] {
      var init := assigns[..|assigns| - 1];
      assert forall i :: 0 <= i < |init| ==> init[i] == assigns[i];
      NoTextureAssign(init);
    }
  }

  lemma AtlasNeedsTexture(tag: G.Tag)
    requires forall i :: 0 <= i < |tag.assigns| ==> tag.assigns[i].assign != "texture"
    ensures AtlasFromTag(tag).Err?
  {
    NoTextureAssign(tag.assigns);
  }

  /** A `texture` assign that is not an `ExtResource` makes the atlas tag invalid. */
  lemma AtlasTextureKind(tag: G.Tag, i: nat)
    requires i < |tag.assigns| && tag.assigns[i].assign == "texture" && !tag.assigns[i].value.ExtResource?
    ensures AtlasFromTag(tag).Err?
  {
    assert !AtlasAssignOk(tag.assigns[i]);
  }

  // ----- The source's loops -----

  /** `TextureResource::init_from_tag`. */
  method TextureInitFromTag(tag: G.Tag) returns (r: Result<TextureResource>)
    ensures r == TextureFromTag(tag)
  {
    var fields := tag.fields;
    var foundType := false;
    var resource := TextureResource("", "", "");
    var i := 0;
    while i < |fields|
      invariant 0 <= i <= |fields|
      invariant forall j :: 0 <= j < i ==> TextureFieldOk(fields[j])
      invariant foundType == HasField(fields[..i], "type")
      invariant resource == TextureResource(LastString(fields[..i], "uid"),
                                            LastString(fields[..i], "path"),
                                            LastString(fields[..i], "id"))
    {
      var field := fields[i];
      HasFieldSnoc(fields, i, "type");
      LastStringSnoc(fields, i, "uid");
      LastStringSnoc(fields, i, "path");
      LastStringSnoc(fields, i, "id");
      if field.identifier == "type" {
        if !field.value.String? || field.value.s != "Texture2D" {
          assert !TextureFieldOk(fields[i]);
          return Err(Schema);
        }
        foundType := true;
      } else if field.identifier == "uid" {
        if !field.value.String? {
          assert !TextureFieldOk(fields[i]);
          return Err(Schema);
        }
        resource := resource.(uid := field.value.s);
      } else if field.identifier == "path" {
        if !field.value.String? {
          assert !TextureFieldOk(fields[i]);
          return Err(Schema);
        }
        resource := resource.(path := field.value.s);
      } else if field.identifier == "id" {
        if !field.value.String? {
          assert !TextureFieldOk(fields[i]);
          return Err(Schema);
        }
        resource := resource.(id := field.value.s);
      } else {
        assert !TextureFieldOk(fields[i]);
        return Err(Schema);
      }
      i := i + 1;
    }
    assert fields[..i] == fields;
    if !foundType || resource.uid == [] || resource.path == [] || resource.id == [] {
      return Err(Schema);
    }
    return Ok(resource);
  }

  /** `TileSetAtlasSource::init_from_tag`: the field loop, then the assign loop. */
  method AtlasInitFromTag(tag: G.Tag) returns (r: Result<TileSetAtlasSource>)
    ensures r == AtlasFromTag(tag)
  {
    var fields := tag.fields;
    var foundType := false;
    var id := "";
    var i := 0;
    while i < |fields|
      invariant 0 <= i <= |fields|
      invariant forall j :: 0 <= j < i ==> AtlasFieldOk(fields[j])
      invariant foundType == HasField(fields[..i], "type")
      invariant id == LastString(fields[..i], "id")
    {
      var field := fields[i];
      HasFieldSnoc(fields, i, "type");
      LastStringSnoc(fields, i, "id");
      if field.identifier == "type" {
        if !field.value.String? || field.value.s != "TileSetAtlasSource" {
          assert !AtlasFieldOk(fields[i]);
          return Err(Schema);
        }
        foundType := true;
      } else if field.identifier == "id" {
        if !field.value.String? {
          assert !AtlasFieldOk(fields[i]);
          return Err(Schema);
        }
        id := field.value.s;
      } else {
        assert !AtlasFieldOk(fields[i]);
        return Err(Schema);
      }
      i := i + 1;
    }
    assert fields[..i] == fields;
    var assigns := tag.assigns;
    var texture := "";
    var k := 0;
    while k < |assigns|
      invariant 0 <= k <= |assigns|
      invariant forall j :: 0 <= j < k ==> AtlasAssignOk(assigns[j])
      invariant texture == LastTexture(assigns[..k])
    {
      var assign := assigns[k];
      LastTextureSnoc(assigns, k);
      if assign.assign == "texture" {
        if !assign.value.ExtResource? {
          assert !AtlasAssignOk(assigns[k]);
          return Err(Schema);
        }
        texture := assign.value.id;
      }
      k := k + 1;
    }
    assert assigns[..k] == assigns;
    if !foundType || id == [] || texture == [] {
      return Err(Schema);
    }
    return Ok(TileSetAtlasSource(id, texture, G.Vec2i(0, 0), []));
  }

  /** What the tag loop's slot for `ext_resource` holds after the tags `seen`. */
  predicate TextureSlot(seen: seq<G.Tag>, slot: Option<TextureResource>) {
    var ext := Named(seen, "ext_resource");
    |ext| <= 1 && (slot.None? <==> ext == []) && (ext != [] ==> TextureFromTag(ext[0]) == Ok(slot.value))
  }

  /** What the tag loop's slot for `sub_resource` holds after the tags `seen`. */
  predicate AtlasSlot(seen: seq<G.Tag>, slot: Option<TileSetAtlasSource>) {
    var sub := Named(seen, "sub_resource");
    |sub| <= 1 && (slot.None? <==> sub == []) && (sub != [] ==> AtlasFromTag(sub[0]) == Ok(slot.value))
  }

  /** A tag whose name is not `name` leaves that name's list as it was. */
  lemma NamedSkip(tags: seq<G.Tag>, i: nat, name: string)
    requires i < |tags| && tags[i].name != name
    ensures Named(tags[..i + 1], name) == Named(tags[..i], name)
  {
    NamedSnoc(tags, i, name);
  }

  /** A tag named `name`: it joins that name's list, and the list of the whole file is
      longer than that of the tags before it, with this tag first when it is the first. */
  lemma NamedHit(tags: seq<G.Tag>, i: nat, name: string)
    requires i < |tags| && tags[i].name == name
    ensures Named(tags[..i + 1], name) == Named(tags[..i], name) + [tags[i]]
    ensures |Named(tags, name)| >= |Named(tags[..i], name)| + 1
    ensures Named(tags[..i], name) == [] ==> Named(tags, name)[0] == tags[i]
  {
    NamedSnoc(tags, i, name);
    NamedPrefix(tags, i + 1, name);
  }

  lemma TextureSlotSkip(tags: seq<G.Tag>, i: nat, slot: Option<TextureResource>)
    requires i < |tags| && tags[i].name != "ext_resource" && TextureSlot(tags[..i], slot)
    ensures TextureSlot(tags[..i + 1], slot)
  {
    NamedSkip(tags, i, "ext_resource");
  }

  lemma AtlasSlotSkip(tags: seq<G.Tag>, i: nat, slot: Option<TileSetAtlasSource>)
    requires i < |tags| && tags[i].name != "sub_resource" && AtlasSlot(tags[..i], slot)
    ensures AtlasSlot(tags[..i + 1], slot)
  {
    NamedSkip(tags, i, "sub_resource");
  }

  /** The first `ext_resource`: a well-formed one fills the slot, any other makes the
      whole body invalid. */
  lemma TextureSlotFill(tags: seq<G.Tag>, i: nat)
    requires i < |tags| && tags[i].name == "ext_resource" && TextureSlot(tags[..i], None)
    ensures TextureFromTag(tags[i]).Ok? ==> TextureSlot(tags[..i + 1], Some(TextureFromTag(tags[i]).value))
    ensures TextureFromTag(tags[i]).Err? ==> BodyFromTags(tags).Err?
  {
    NamedHit(tags, i, "ext_resource");
  }

  lemma AtlasSlotFill(tags: seq<G.Tag>, i: nat)
    requires i < |tags| && tags[i].name == "sub_resource" && AtlasSlot(tags[..i], None)
    ensures AtlasFromTag(tags[i]).Ok? ==> AtlasSlot(tags[..i + 1], Some(AtlasFromTag(tags[i]).value))
    ensures AtlasFromTag(tags[i]).Err? ==> BodyFromTags(tags).Err?
  {
    NamedHit(tags, i, "sub_resource");
  }

  /** A second `ext_resource` or `sub_resource` makes the body invalid. */
  lemma SlotTaken(tags: seq<G.Tag>, i: nat, name: string)
    requires i < |tags| && tags[i].name == name && |Named(tags[..i], name)| == 1
    requires name == "ext_resource" || name == "sub_resource"
    ensures BodyFromTags(tags).Err?
  {
    NamedHit(tags, i, name);
  }

  /** One turn of the tag loop of `TileSetResource::init_from_file`: the tag at `i`
      either fills its slot, is ignored, or ends the loop with an error. */
  method ReadTag(tags: seq<G.Tag>, i: nat, texture: Option<TextureResource>, atlas: Option<TileSetAtlasSource>)
    returns (r: Result<(Option<TextureResource>, Option<TileSetAtlasSource>)>)
    requires i < |tags| && TextureSlot(tags[..i], texture) && AtlasSlot(tags[..i], atlas)
    ensures r.Ok? ==> KnownTag(tags[i]) && TextureSlot(tags[..i + 1], r.value.0) && AtlasSlot(tags[..i + 1], r.value.1)
    ensures r.Err? ==> BodyFromTags(tags) == Err(r.error)
  {
    var tag := tags[i];
    if tag.name == "ext_resource" {
      if texture.Some? {
        SlotTaken(tags, i, "ext_resource");
        return Err(Schema);
      }
      TextureSlotFill(tags, i);
      var t := TextureInitFromTag(tag);
      if t.Err? {
        return Err(t.error);
      }
      AtlasSlotSkip(tags, i, atlas);
      return Ok((Some(t.value), atlas));
    } else if tag.name == "sub_resource" {
      if atlas.Some? {
        SlotTaken(tags, i, "sub_resource");
        return Err(Schema);
      }
      AtlasSlotFill(tags, i);
      var a := AtlasInitFromTag(tag);
      if a.Err? {
        return Err(a.error);
      }
      TextureSlotSkip(tags, i, texture);
      return Ok((texture, Some(a.value)));
    } else if tag.name == "resource" {
      TextureSlotSkip(tags, i, texture);
      AtlasSlotSkip(tags, i, atlas);
      return Ok((texture, atlas));
    }
    assert !KnownTag(tags[i]);
    return Err(Schema);
  }

  /** The tag loop of `TileSetResource::init_from_file`, which fills one slot per
      resource kind and then requires both to be filled. */
  method ReadTags(tags: seq<G.Tag>) returns (r: Result<(TextureResource, TileSetAtlasSource)>)
    ensures r == BodyFromTags(tags)
  {
    var texture: Option<TextureResource> := None;
    var atlas: Option<TileSetAtlasSource> := None;
    var i := 0;
    while i < |tags|
      invariant 0 <= i <= |tags|
      invariant forall j :: 0 <= j < i ==> KnownTag(tags[j])
      invariant TextureSlot(tags[..i], texture) && AtlasSlot(tags[..i], atlas)
    {
      var step := ReadTag(tags, i, texture, atlas);
      if step.Err? {
        return Err(step.error);
      }
      texture, atlas := step.value.0, step.value.1;
      i := i + 1;
    }
    assert tags[..i] == tags;
    if texture.None? || atlas.None? {
      return Err(Schema);
    }
    return Ok((texture.value, atlas.value));
  }

  /** `TileSetResource::init_from_file`: the header checks, then the tag loop. */
  method InitFromFile(file: G.GodotFile) returns (r: Result<TileSetResource>)
    ensures r == ResourceFromFile(file)
  {
    if file.header.name != "gd_resource" {
      return Err(Schema);
    }
    var uidField := G.FindField(file.header.fields, "uid");
    if uidField.None? || !uidField.value.value.String? {
      return Err(Schema);
    }
    var body := ReadTags(file.tags);
    if body.Err? {
      return Err(body.error);
    }
    return Ok(TileSetResource(uidField.value.value.s, body.value.0, body.value.1));
  }
}
