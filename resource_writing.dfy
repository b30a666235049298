/** The inverse direction of the resource mapper: the tags `print_to_file` builds from
    a tile-set resource, and the document it writes. */
module ResourceWriting {
  import opened Common
  import opened Decimal
  import G = GodotData
  import C = Config
  import opened Resource
  import Writer
  import GrammarSpec

  // ----- The per-tile block of the atlas tag -----

  /** `format!("{}:{}/0", x, y)`: the property path of a tile's first entry. */
  function TilePath(tile: Tile): string {
    DecimalString(tile.position.x as int) + ":" + DecimalString(tile.position.y as int) + "/0"
  }

  /** The entry `{path}{suffix} = v` when there is a value, nothing otherwise. */
  function Entry(path: string, suffix: string, v: Option<u32>): (r: seq<G.TagAssign>)
    ensures |r| == if v.Some? then 1 else 0
  {
    if v.Some? then [G.TagAssign(path + suffix, G.Integer(v.value as int as i64))] else []
  }

  /** The entries `append_assigns` adds for a tile: `{x}:{y}/0 = 0`, then one entry per
      value the tile has, in the fixed order terrain set, terrain, and the sides
      bottom right, bottom, bottom left, top left, top, top right. */
  function TileAssigns(tile: Tile): seq<G.TagAssign> {
    var path := TilePath(tile);
    var p := tile.terrainsPeeringBit;
    [G.TagAssign(path, G.Integer(0))] +
    Entry(path, "/terrain_set", tile.terrainSet) +
    Entry(path, "/terrain", tile.terrain) +
    Entry(path, "/terrains_peering_bit/bottom_right_side", p.bottomRightSide) +
    Entry(path, "/terrains_peering_bit/bottom_side", p.bottomSide) +
    Entry(path, "/terrains_peering_bit/bottom_left_side", p.bottomLeftSide) +
    Entry(path, "/terrains_peering_bit/top_left_side", p.topLeftSide) +
    Entry(path, "/terrains_peering_bit/top_side", p.topSide) +
    Entry(path, "/terrains_peering_bit/top_right_side", p.topRightSide)
  }

  /** How many of a tile's eight optional values are there. */
  function ValueCount(tile: Tile): nat {
    var p := tile.terrainsPeeringBit;
    (if tile.terrainSet.Some? then 1 else 0) + (if tile.terrain.Some? then 1 else 0) +
    (if p.bottomRightSide.Some? then 1 else 0) + (if p.bottomSide.Some? then 1 else 0) +
    (if p.bottomLeftSide.Some? then 1 else 0) + (if p.topLeftSide.Some? then 1 else 0) +
    (if p.topSide.Some? then 1 else 0) + (if p.topRightSide.Some? then 1 else 0)
  }

  /** A tile contributes one entry plus one per value it has; the first is
      `{x}:{y}/0 = 0`. */
  lemma TileAssignsCount(tile: Tile)
    ensures |TileAssigns(tile)| == 1 + ValueCount(tile)
    ensures TileAssigns(tile)[0] == G.TagAssign(TilePath(tile), G.Integer(0))
  {
  }

  /** The decimal text of an integer starts with `-` or a digit. */
  lemma DecimalStringStart(n: int)
    ensures |DecimalString(n)| > 0
    ensures DecimalString(n)[0] == '-' || '0' <= DecimalString(n)[0] <= '9'
  {
    var d := NatDigits(Abs(n));
    assert |d| > 0 && AllDigits(d);
    assert IsDigit(d[0]);
    if n < 0 {
      assert DecimalBytes(n)[0] == '-' as byte;
    } else {
      assert DecimalBytes(n)[0] == d[0];
    }
  }

  /** Every entry's path starts with `path`. */
  predicate AllUnder(assigns: seq<G.TagAssign>, path: string) {
    forall a :: a in assigns ==> path <= a.assign
  }

  lemma UnderConcat(a: seq<G.TagAssign>, b: seq<G.TagAssign>, path: string)
    requires AllUnder(a, path) && AllUnder(b, path)
    ensures AllUnder(a + b, path)
  {
  }

  lemma EntryUnder(path: string, suffix: string, v: Option<u32>)
    ensures AllUnder(Entry(path, suffix, v), path)
  {
  }

  /** All entries of a tile's block have paths that start with `{x}:{y}/0`. */
  lemma TileAssignsUnder(tile: Tile)
    ensures AllUnder(TileAssigns(tile), TilePath(tile))
  {
    var path := TilePath(tile);
    var p := tile.terrainsPeeringBit;
    var s0 := [G.TagAssign(path, G.Integer(0))];
    var e1 := Entry(path, "/terrain_set", tile.terrainSet);
    var e2 := Entry(path, "/terrain", tile.terrain);
    var e3 := Entry(path, "/terrains_peering_bit/bottom_right_side", p.bottomRightSide);
    var e4 := Entry(path, "/terrains_peering_bit/bottom_side", p.bottomSide);
    var e5 := Entry(path, "/terrains_peering_bit/bottom_left_side", p.bottomLeftSide);
    var e6 := Entry(path, "/terrains_peering_bit/top_left_side", p.topLeftSide);
    var e7 := Entry(path, "/terrains_peering_bit/top_side", p.topSide);
    var e8 := Entry(path, "/terrains_peering_bit/top_right_side", p.topRightSide);
    assert AllUnder(s0, path);
    EntryUnder(path, "/terrain_set", tile.terrainSet);
    EntryUnder(path, "/terrain", tile.terrain);
    EntryUnder(path, "/terrains_peering_bit/bottom_right_side", p.bottomRightSide);
    EntryUnder(path, "/terrains_peering_bit/bottom_side", p.bottomSide);
    EntryUnder(path, "/terrains_peering_bit/bottom_left_side", p.bottomLeftSide);
    EntryUnder(path, "/terrains_peering_bit/top_left_side", p.topLeftSide);
    EntryUnder(path, "/terrains_peering_bit/top_side", p.topSide);
    EntryUnder(path, "/terrains_peering_bit/top_right_side", p.topRightSide);
    UnderConcat(s0, e1, path);
    UnderConcat(s0 + e1, e2, path);
    UnderConcat(s0 + e1 + e2, e3, path);
    UnderConcat(s0 + e1 + e2 + e3, e4, path);
    UnderConcat(s0 + e1 + e2 + e3 + e4, e5, path);
    UnderConcat(s0 + e1 + e2 + e3 + e4 + e5, e6, path);
    UnderConcat(s0 + e1 + e2 + e3 + e4 + e5 + e6, e7, path);
    UnderConcat(s0 + e1 + e2 + e3 + e4 + e5 + e6 + e7, e8, path);
    assert TileAssigns(tile) == s0 + e1 + e2 + e3 + e4 + e5 + e6 + e7 + e8;
  }

  /** Every entry of a tile's block has a path that starts with `{x}:{y}/0`, and so is
      never the atlas tag's `texture` property. */
  lemma TileAssignsPaths(tile: Tile)
    ensures forall a :: a in TileAssigns(tile) ==> TilePath(tile) <= a.assign && a.assign != "texture"
  {
    var path := TilePath(tile);
    DecimalStringStart(tile.position.x as int);
    assert path[0] == DecimalString(tile.position.x as int)[0];
    assert "texture"[0] == 't';
    TileAssignsUnder(tile);
    forall a | a in TileAssigns(tile) ensures path <= a.assign && a.assign != "texture" {
      assert a.assign[0] == path[0];
    }
  }

  lemma AppendAssoc(a: seq<G.TagAssign>, b: seq<G.TagAssign>, c: seq<G.TagAssign>)
    ensures (a + b) + c == a + (b + c)
  {
  }

  /** One `if let Some(v) = … { assigns.push(…) }` of `append_assigns`. */
  method PushEntry(assigns: seq<G.TagAssign>, path: string, suffix: string, v: Option<u32>)
    returns (out: seq<G.TagAssign>)
    ensures out == assigns + Entry(path, suffix, v)
  {
    out := assigns;
    if v.Some? {
      out := out + [G.TagAssign(path + suffix, G.Integer(v.value as int as i64))];
    }
  }

  /** `Tile::append_assigns`: pushes the tile's entries after those already there. */
  method AppendAssigns(tile: Tile, assigns: seq<G.TagAssign>) returns (out: seq<G.TagAssign>)
    ensures out == assigns + TileAssigns(tile)
  {
    var path := TilePath(tile);
    var p := tile.terrainsPeeringBit;
    out := assigns + [G.TagAssign(path, G.Integer(0))];
    ghost var done := [G.TagAssign(path, G.Integer(0))];
    out := PushEntry(out, path, "/terrain_set", tile.terrainSet);
    AppendAssoc(assigns, done, Entry(path, "/terrain_set", tile.terrainSet));
    done := done + Entry(path, "/terrain_set", tile.terrainSet);
    out := PushEntry(out, path, "/terrain", tile.terrain);
    AppendAssoc(assigns, done, Entry(path, "/terrain", tile.terrain));
    done := done + Entry(path, "/terrain", tile.terrain);
    out := PushEntry(out, path, "/terrains_peering_bit/bottom_right_side", p.bottomRightSide);
    AppendAssoc(assigns, done, Entry(path, "/terrains_peering_bit/bottom_right_side", p.bottomRightSide));
    done := done + Entry(path, "/terrains_peering_bit/bottom_right_side", p.bottomRightSide);
    out := PushEntry(out, path, "/terrains_peering_bit/bottom_side", p.bottomSide);
    AppendAssoc(assigns, done, Entry(path, "/terrains_peering_bit/bottom_side", p.bottomSide));
    done := done + Entry(path, "/terrains_peering_bit/bottom_side", p.bottomSide);
    out := PushEntry(out, path, "/terrains_peering_bit/bottom_left_side", p.bottomLeftSide);
    AppendAssoc(assigns, done, Entry(path, "/terrains_peering_bit/bottom_left_side", p.bottomLeftSide));
    done := done + Entry(path, "/terrains_peering_bit/bottom_left_side", p.bottomLeftSide);
    out := PushEntry(out, path, "/terrains_peering_bit/top_left_side", p.topLeftSide);
    AppendAssoc(assigns, done, Entry(path, "/terrains_peering_bit/top_left_side", p.topLeftSide));
    done := done + Entry(path, "/terrains_peering_bit/top_left_side", p.topLeftSide);
    out := PushEntry(out, path, "/terrains_peering_bit/top_side", p.topSide);
    AppendAssoc(assigns, done, Entry(path, "/terrains_peering_bit/top_side", p.topSide));
    done := done + Entry(path, "/terrains_peering_bit/top_side", p.topSide);
    out := PushEntry(out, path, "/terrains_peering_bit/top_right_side", p.topRightSide);
    AppendAssoc(assigns, done, Entry(path, "/terrains_peering_bit/top_right_side", p.topRightSide));
    done := done + Entry(path, "/terrains_peering_bit/top_right_side", p.topRightSide);
    assert done == TileAssigns(tile);
  }

  // ----- The four tags of the written file -----

  /** The header: `type="TileSet"`, `load_steps=3`, `format=3`, then the stored uid. */
  function HeaderTag(res: TileSetResource): G.Tag {
    G.Tag("gd_resource", [
      G.Field("type", G.String("TileSet")),
      G.Field("load_steps", G.Integer(3)),
      G.Field("format", G.Integer(3)),
      G.Field("uid", G.String(res.uid))], [])
  }

  /** The `ext_resource` tag of the texture, with its stored uid, path and id. */
  function ImageTag(texture: TextureResource): G.Tag {
    G.Tag("ext_resource", [
      G.Field("type", G.String("Texture2D")),
      G.Field("uid", G.String(texture.uid)),
      G.Field("path", G.String(texture.path)),
      G.Field("id", G.String(texture.id))], [])
  }

  /** The blocks of all tiles, one after the other. */
  function TilesAssigns(tiles: seq<Tile>): seq<G.TagAssign>
    decreases |tiles|
  {
    if tiles == [] then [] else TilesAssigns(tiles[..|tiles| - 1]) + TileAssigns(tiles[|tiles| - 1])
  }

  /** The `sub_resource` tag of the atlas: its id, the texture reference and region
      size, then every tile's block. */
  function AtlasTag(atlas: TileSetAtlasSource): G.Tag {
    G.Tag("sub_resource", [
      G.Field("type", G.String("TileSetAtlasSource")),
      G.Field("id", G.String(atlas.id))],
      [G.TagAssign("texture", G.ExtResource(atlas.texture)),
       G.TagAssign("texture_region_size", G.Vector2i(atlas.textureRegionSize))] +
      TilesAssigns(atlas.tiles))
  }

  /** The `(0.0, 0.0, 0.0, 1.0)` colour every terrain is given. */
  const Black := G.Color(G.Rgba(G.Finite(0.0), G.Finite(0.0), G.Finite(0.0), G.Finite(1.0)))

  /** `format!("terrain_set_{i}")`. */
  function SetPath(i: nat): string {
    "terrain_set_" + DecimalString(i)
  }

  /** `format!("terrain_set_{i}/terrain_{j}")`. */
  function TerrainPath(i: nat, j: nat): string {
    SetPath(i) + "/terrain_" + DecimalString(j)
  }

  /** The `name` and `color` entries of the terrains of set `i`. */
  function TerrainsAssigns(i: nat, terrains: seq<C.TerrainConfig>): seq<G.TagAssign>
    decreases |terrains|
  {
    if terrains == [] then []
    else
      var j := |terrains| - 1;
      TerrainsAssigns(i, terrains[..j]) +
      [G.TagAssign(TerrainPath(i, j) + "/name", G.String(terrains[j].name)),
       G.TagAssign(TerrainPath(i, j) + "/color", Black)]
  }

  /** The entries of set `i`: its `mode`, then its terrains. */
  function SetAssigns(i: nat, terrainSet: C.TerrainSetConfig): seq<G.TagAssign> {
    [G.TagAssign(SetPath(i) + "/mode", G.Integer(2))] + TerrainsAssigns(i, terrainSet.terrains)
  }

  /** The entries of all terrain sets, in configuration order. */
  function SetsAssigns(sets: seq<C.TerrainSetConfig>): seq<G.TagAssign>
    decreases |sets|
  {
    if sets == [] then [] else SetsAssigns(sets[..|sets| - 1]) + SetAssigns(|sets| - 1, sets[|sets| - 1])
  }

  /** The `resource` tag: hexagonal shape, offset axis 1, the tile size, the terrain
      sets, and the atlas source as source 0. */
  function ResourceTag(atlas: TileSetAtlasSource, sets: seq<C.TerrainSetConfig>): G.Tag {
    G.Tag("resource", [],
      [G.TagAssign("tile_shape", G.Integer(3)),
       G.TagAssign("tile_offset_axis", G.Integer(1)),
       G.TagAssign("tile_size", G.Vector2i(atlas.textureRegionSize))] +
      SetsAssigns(sets) +
      [G.TagAssign("sources/0", G.SubResource(atlas.id))])
  }

  /** The number of entries the terrain sets contribute: a `mode` per set and two per
      terrain. */
  function TerrainEntryCount(sets: seq<C.TerrainSetConfig>): nat
    decreases |sets|
  {
    if sets == [] then 0 else TerrainEntryCount(sets[..|sets| - 1]) + 1 + 2 * |sets[|sets| - 1].terrains|
  }

  lemma {:induction false} TerrainsAssignsCount(i: nat, terrains: seq<C.TerrainConfig>)
    ensures |TerrainsAssigns(i, terrains)| == 2 * |terrains|
    decreases |terrains|
  {
    if terrains != [] {
      TerrainsAssignsCount(i, terrains[..|terrains| - 1]);
    }
  }

  lemma {:induction false} SetsAssignsCount(sets: seq<C.TerrainSetConfig>)
    ensures |SetsAssigns(sets)| == TerrainEntryCount(sets)
    decreases |sets|
  {
    if sets != [] {
      SetsAssignsCount(sets[..|sets| - 1]);
      TerrainsAssignsCount(|sets| - 1, sets[|sets| - 1].terrains);
    }
  }

  /** The `resource` tag has `4 + Σ(1 + 2·terrains)` entries, starts with the shape,
      offset axis and tile size and ends with source 0. */
  lemma ResourceTagShape(atlas: TileSetAtlasSource, sets: seq<C.TerrainSetConfig>)
    ensures var a := ResourceTag(atlas, sets).assigns;
      |a| == 4 + TerrainEntryCount(sets) &&
      a[0] == G.TagAssign("tile_shape", G.Integer(3)) &&
      a[1] == G.TagAssign("tile_offset_axis", G.Integer(1)) &&
      a[2] == G.TagAssign("tile_size", G.Vector2i(atlas.textureRegionSize)) &&
      a[|a| - 1] == G.TagAssign("sources/0", G.SubResource(atlas.id))
  {
    SetsAssignsCount(sets);
  }

  // ----- The builders -----

  lemma TilesStep(tiles: seq<Tile>, i: nat)
    requires i < |tiles|
    ensures TilesAssigns(tiles[..i + 1]) == TilesAssigns(tiles[..i]) + TileAssigns(tiles[i])
  {
    assert tiles[..i + 1][..i] == tiles[..i];
  }

  lemma TerrainsStep(i: nat, terrains: seq<C.TerrainConfig>, j: nat)
    requires j < |terrains|
    ensures TerrainsAssigns(i, terrains[..j + 1]) == TerrainsAssigns(i, terrains[..j]) +
      [G.TagAssign(TerrainPath(i, j) + "/name", G.String(terrains[j].name)),
       G.TagAssign(TerrainPath(i, j) + "/color", Black)]
  {
    assert terrains[..j + 1][..j] == terrains[..j];
  }

  lemma SetsStep(sets: seq<C.TerrainSetConfig>, i: nat)
    requires i < |sets|
    ensures SetsAssigns(sets[..i + 1]) == SetsAssigns(sets[..i]) + SetAssigns(i, sets[i])
  {
    assert sets[..i + 1][..i] == sets[..i];
  }

  lemma PushTwo(a: seq<G.TagAssign>, b: seq<G.TagAssign>, x: G.TagAssign, y: G.TagAssign)
    ensures a + b + [x] + [y] == a + (b + [x, y])
  {
  }

  /** The atlas tag built as `print_to_file` does: the two fixed assigns, then
      `append_assigns` for each tile in order. */
  method BuildAtlasTag(atlas: TileSetAtlasSource) returns (tag: G.Tag)
    ensures tag == AtlasTag(atlas)
  {
    var head := [G.TagAssign("texture", G.ExtResource(atlas.texture)),
                 G.TagAssign("texture_region_size", G.Vector2i(atlas.textureRegionSize))];
    var assigns := head;
    var tiles := atlas.tiles;
    var i := 0;
    while i < |tiles|
      invariant 0 <= i <= |tiles|
      invariant assigns == head + TilesAssigns(tiles[..i])
    {
      TilesStep(tiles, i);
      AppendAssoc(head, TilesAssigns(tiles[..i]), TileAssigns(tiles[i]));
      assigns := AppendAssigns(tiles[i], assigns);
      i := i + 1;
    }
    assert tiles[..i] == tiles;
    tag := G.Tag("sub_resource", [
      G.Field("type", G.String("TileSetAtlasSource")),
      G.Field("id", G.String(atlas.id))], assigns);
  }

  /** The entries of one terrain set, built by the inner loop of `print_to_file`. */
  method BuildSetAssigns(i: nat, terrainSet: C.TerrainSetConfig) returns (assigns: seq<G.TagAssign>)
    ensures assigns == SetAssigns(i, terrainSet)
  {
    var head := [G.TagAssign(SetPath(i) + "/mode", G.Integer(2))];
    assigns := head;
    var terrains := terrainSet.terrains;
    var j := 0;
    while j < |terrains|
      invariant 0 <= j <= |terrains|
      invariant assigns == head + TerrainsAssigns(i, terrains[..j])
    {
      var name := G.TagAssign(TerrainPath(i, j) + "/name", G.String(terrains[j].name));
      var color := G.TagAssign(TerrainPath(i, j) + "/color", Black);
      TerrainsStep(i, terrains, j);
      PushTwo(head, TerrainsAssigns(i, terrains[..j]), name, color);
      assigns := assigns + [name];
      assigns := assigns + [color];
      j := j + 1;
    }
    assert terrains[..j] == terrains;
  }

  /** The resource tag built as `print_to_file` does: the three fixed assigns, the
      entries of each terrain set, and source 0. */
  method BuildResourceTag(atlas: TileSetAtlasSource, sets: seq<C.TerrainSetConfig>) returns (tag: G.Tag)
    ensures tag == ResourceTag(atlas, sets)
  {
    var head := [G.TagAssign("tile_shape", G.Integer(3)),
                 G.TagAssign("tile_offset_axis", G.Integer(1)),
                 G.TagAssign("tile_size", G.Vector2i(atlas.textureRegionSize))];
    var assigns := head;
    var i := 0;
    while i < |sets|
      invariant 0 <= i <= |sets|
      invariant assigns == head + SetsAssigns(sets[..i])
    {
      var entries := BuildSetAssigns(i, sets[i]);
      SetsStep(sets, i);
      AppendAssoc(head, SetsAssigns(sets[..i]), entries);
      assigns := assigns + entries;
      i := i + 1;
    }
    assert sets[..i] == sets;
    assigns := assigns + [G.TagAssign("sources/0", G.SubResource(atlas.id))];
    tag := G.Tag("resource", [], assigns);
  }

  /** `TileSetResource::print_to_file`, with the file replaced by the bytes written to
      it: the header, then the texture, atlas and resource tags. */
  method PrintToFile(ryu: real -> seq<byte>, res: TileSetResource, config: C.Config) returns (text: seq<byte>)
    ensures text == Writer.Document(ryu, HeaderTag(res),
      [ImageTag(res.textureResource), AtlasTag(res.tileSetAtlasSource),
       ResourceTag(res.tileSetAtlasSource, config.terrainSets)])
  {
    var header := HeaderTag(res);
    var image := ImageTag(res.textureResource);
    var atlas := BuildAtlasTag(res.tileSetAtlasSource);
    var resource := BuildResourceTag(res.tileSetAtlasSource, config.terrainSets);
    text := Writer.WriteDocument(ryu, header, [image, atlas, resource]);
  }

  // ----- Reading back what is written -----

  /** The `texture` of the atlas tag's assigns is the one written first: no tile entry
      has that path. */
  lemma {:induction false} TilesAssignsNoTexture(tiles: seq<Tile>)
    ensures forall a :: a in TilesAssigns(tiles) ==> a.assign != "texture"
    decreases |tiles|
  {
    if tiles != [] {
      TilesAssignsNoTexture(tiles[..|tiles| - 1]);
      TileAssignsPaths(tiles[|tiles| - 1]);
    }
  }

  lemma {:induction false} LastTextureSkips(head: seq<G.TagAssign>, rest: seq<G.TagAssign>)
    requires forall a :: a in rest ==> a.assign != "texture"
    ensures LastTexture(head + rest) == LastTexture(head)
    decreases |rest|
  {
    if rest == [] {
      assert head + rest == head;
    } else {
      var init := rest[..|rest| - 1];
      assert (head + rest)[..|head + rest| - 1] == head + init;
      assert rest[|rest| - 1] in rest;
      assert forall a :: a in init ==> a in rest;
      LastTextureSkips(head, init);
    }
  }

  /** The `texture` read from the atlas tag is the reference written first. */
  lemma AtlasTagTexture(atlas: TileSetAtlasSource)
    ensures LastTexture(AtlasTag(atlas).assigns) == atlas.texture
    ensures forall i :: 0 <= i < |AtlasTag(atlas).assigns| ==> AtlasAssignOk(AtlasTag(atlas).assigns[i])
  {
    var head := [G.TagAssign("texture", G.ExtResource(atlas.texture)),
                 G.TagAssign("texture_region_size", G.Vector2i(atlas.textureRegionSize))];
    var rest := TilesAssigns(atlas.tiles);
    assert AtlasTag(atlas).assigns == head + rest;
    TilesAssignsNoTexture(atlas.tiles);
    LastTextureSkips(head, rest);
    assert "texture_region_size" != "texture" by {
      assert |"texture_region_size"| != |"texture"|;
    }
    assert head[..1] == [head[0]] && head[..1][..0] == [];
    assert LastTexture(head) == atlas.texture;
    AssignsOkAfter(head, rest);
  }

  /** Assigns after an acceptable front that never name `texture` keep the list acceptable. */
  lemma AssignsOkAfter(head: seq<G.TagAssign>, rest: seq<G.TagAssign>)
    requires forall i :: 0 <= i < |head| ==> AtlasAssignOk(head[i])
    requires forall a :: a in rest ==> a.assign != "texture"
    ensures forall i :: 0 <= i < |head + rest| ==> AtlasAssignOk((head + rest)[i])
  {
    forall i | 0 <= i < |head + rest| ensures AtlasAssignOk((head + rest)[i]) {
      if i >= |head| {
        assert (head + rest)[i] == rest[i - |head|];
        assert rest[i - |head|] in rest;
      }
    }
  }

  /** The atlas tag as written reads back as the atlas id and texture reference. */
  lemma AtlasTagReadsBack(atlas: TileSetAtlasSource)
    requires atlas.id != "" && atlas.texture != ""
    ensures AtlasFromTag(AtlasTag(atlas)) == Ok(TileSetAtlasSource(atlas.id, atlas.texture, G.Vec2i(0, 0), []))
  {
    var fs := AtlasTag(atlas).fields;
    AtlasTagTexture(atlas);
    assert fs[..1] == [fs[0]] && fs[..1][..0] == [];
    assert "type" != "id" by {
      assert |"type"| != |"id"|;
    }
    assert LastString(fs, "id") == atlas.id;
    assert HasField(fs, "type") by {
      assert fs[0].identifier == "type";
    }
  }

  /** The texture tag as written reads back as the stored texture. */
  lemma ImageTagReadsBack(texture: TextureResource)
    requires texture.uid != "" && texture.path != "" && texture.id != ""
    ensures TextureFromTag(ImageTag(texture)) == Ok(texture)
  {
    var fs := ImageTag(texture).fields;
    var f3, f2, f1 := fs[..3], fs[..2], fs[..1];
    assert fs[..3][..2] == f2 && fs[..2][..1] == f1 && fs[..1][..0] == [];
    assert "id" != "uid" && "id" != "path" && "path" != "uid" && "path" != "id" by {
      assert "id"[0] != "uid"[0] && "path"[0] != "id"[0] && "path"[0] != "uid"[0];
    }
    assert LastString(fs, "id") == texture.id;
    assert LastString(f3, "path") == texture.path;
    assert LastString(fs, "path") == texture.path;
    assert LastString(f2, "uid") == texture.uid;
    assert LastString(f3, "uid") == texture.uid;
    assert LastString(fs, "uid") == texture.uid;
    assert HasField(fs, "type") by {
      assert fs[0].identifier == "type";
    }
    assert forall i :: 0 <= i < |fs| ==> TextureFieldOk(fs[i]) by {
      forall i | 0 <= i < |fs| ensures TextureFieldOk(fs[i]) {
        if i == 0 { } else if i == 1 { } else if i == 2 { } else { }
      }
    }
  }

  lemma NamedOfThree(a: G.Tag, b: G.Tag, c: G.Tag, name: string)
    ensures Named([a, b, c], name) ==
      (if a.name == name then [a] else []) + (if b.name == name then [b] else []) + (if c.name == name then [c] else [])
  {
    assert [a, b, c][..2] == [a, b];
    assert [a, b][..1] == [a];
    assert [a][..0] == [];
    var na := if a.name == name then [a] else [];
    var nb := if b.name == name then [b] else [];
    assert Named([a], name) == [] + na == na;
    assert Named([a, b], name) == na + nb;
  }

  /** The header as written holds the stored uid as its first `uid` field. */
  lemma HeaderTagUid(res: TileSetResource)
    ensures G.FindField(HeaderTag(res).fields, "uid") == Some(G.Field("uid", G.String(res.uid)))
  {
    var h := HeaderTag(res).fields;
    assert h[0].identifier != "uid" && h[1].identifier != "uid" && h[2].identifier != "uid" by {
      assert |"type"| != |"uid"| && |"load_steps"| != |"uid"| && |"format"| != |"uid"|;
    }
    assert h[1..][1..][1..] == [h[3]];
  }

  /** The header as written declares format version 3, which the reader accepts. */
  lemma HeaderTagFormat(res: TileSetResource)
    ensures G.FindField(HeaderTag(res).fields, "format") == Some(G.Field("format", G.Integer(3)))
    ensures GrammarSpec.FormatAccepted(HeaderTag(res))
  {
    var h := HeaderTag(res).fields;
    assert h[0].identifier != "format" && h[1].identifier != "format" by {
      assert |"type"| != |"format"|;
      assert "load_steps"[0] != "format"[0];
    }
    assert h[1..][1..][0] == h[2];
  }

  /** The three body tags as written read back as the texture and atlas. */
  lemma PrintedBodyReadsBack(texture: TextureResource, atlas: TileSetAtlasSource, sets: seq<C.TerrainSetConfig>)
    requires texture.uid != "" && texture.path != "" && texture.id != ""
    requires atlas.id != "" && atlas.texture != ""
    ensures BodyFromTags([ImageTag(texture), AtlasTag(atlas), ResourceTag(atlas, sets)]) ==
      Ok((texture, TileSetAtlasSource(atlas.id, atlas.texture, G.Vec2i(0, 0), [])))
  {
    var image, sub, resource := ImageTag(texture), AtlasTag(atlas), ResourceTag(atlas, sets);
    ImageTagReadsBack(texture);
    AtlasTagReadsBack(atlas);
    NamedOfThree(image, sub, resource, "ext_resource");
    NamedOfThree(image, sub, resource, "sub_resource");
    assert "sub_resource" != "ext_resource" by {
      assert "sub_resource"[0] != "ext_resource"[0];
    }
    assert "resource" != "ext_resource" && "resource" != "sub_resource" by {
      assert |"resource"| != |"ext_resource"|;
    }
  }

  lemma FileFromParts(file: G.GodotFile, uid: string, texture: TextureResource, atlas: TileSetAtlasSource)
    requires file.header.name == "gd_resource"
    requires G.FindField(file.header.fields, "uid") == Some(G.Field("uid", G.String(uid)))
    requires BodyFromTags(file.tags) == Ok((texture, atlas))
    ensures ResourceFromFile(file) == Ok(TileSetResource(uid, texture, atlas))
  {
  }

  /** Reading back the tags `print_to_file` builds recovers the uid, the texture and
      the atlas id and texture reference (the atlas region size and tiles are not read
      back), provided the strings the reader requires to be non-empty are. */
  lemma PrintedTagsReadBack(res: TileSetResource, config: C.Config)
    requires var t := res.textureResource; t.uid != "" && t.path != "" && t.id != ""
    requires res.tileSetAtlasSource.id != "" && res.tileSetAtlasSource.texture != ""
    ensures var atlas := res.tileSetAtlasSource;
      ResourceFromFile(G.GodotFile(HeaderTag(res),
        [ImageTag(res.textureResource), AtlasTag(atlas), ResourceTag(atlas, config.terrainSets)])) ==
      Ok(TileSetResource(res.uid, res.textureResource, TileSetAtlasSource(atlas.id, atlas.texture, G.Vec2i(0, 0), [])))
  {
    var atlas := res.tileSetAtlasSource;
    var file := G.GodotFile(HeaderTag(res),
      [ImageTag(res.textureResource), AtlasTag(atlas), ResourceTag(atlas, config.terrainSets)]);
    HeaderTagUid(res);
    PrintedBodyReadsBack(res.textureResource, atlas, config.terrainSets);
    FileFromParts(file, res.uid, res.textureResource, TileSetAtlasSource(atlas.id, atlas.texture, G.Vec2i(0, 0), []));
  }
}
