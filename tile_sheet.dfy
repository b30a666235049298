/** The tile sheet: how large the square sheet image is made, where each tile goes in
    it, and how `res://` paths become file system paths. Pixels are not modelled. */
module TileSheet {
  import opened Common
  import G = GodotData
  import C = Config
  import opened Resource
  import opened Terrain

  // ---------------------------------------------------------------------------------
  // Godot paths

  /** Godot's project-relative path prefix. */
  const ResPrefix := "res://"

  /** How many leading characters of `s` are repetitions of `p`. */
  function Stripped(s: string, p: string): (n: nat)
    requires p != []
    ensures n <= |s| && !(p <= s[n..]) && Repeats(s[..n], p)
    decreases |s|
  {
    if p <= s then
      var m := Stripped(s[|p|..], p);
      assert s[|p|..][m..] == s[|p| + m..];
      assert s[..|p| + m][..|p|] == p;
      assert s[..|p| + m][|p|..] == s[|p|..][..m];
      |p| + m
    else
      assert s[..0] == [];
      0
  }

  /** `str::trim_start_matches`: `s` without every leading repetition of `p`. */
  function TrimStartMatches(s: string, p: string): (r: string)
    requires p != []
    ensures |r| <= |s| && r == s[|s| - |r|..]
    ensures !(p <= r)
    ensures Repeats(s[..|s| - |r|], p)
  {
    s[Stripped(s, p)..]
  }

  /** `Path::join` on Unix: an absolute path replaces the base; otherwise the two are
      joined by one `/`, unless the base is empty or already ends in `/`. */
  function PathJoin(base: string, path: string): (r: string)
    ensures path != [] && path[0] == '/' ==> r == path
    ensures |path| <= |r| && r[|r| - |path|..] == path
  {
    if path != [] && path[0] == '/' then path
    else if base == [] || base[|base| - 1] == '/' then base + path
    else base + "/" + path
  }

  /** `godot_path_to_absolute`: a `res://` path names a file of the project; any other
      path is refused. */
  function GodotPathToAbsolute(projectPath: string, godotPath: string): (r: Result<string>)
    ensures r.Err? <==> !(ResPrefix <= godotPath)
    ensures r.Err? ==> r.error == BadGodotPath
    ensures r.Ok? ==> r.value == PathJoin(projectPath, TrimStartMatches(godotPath, ResPrefix))
  {
    if !(ResPrefix <= godotPath) then Err(BadGodotPath)
    else Ok(PathJoin(projectPath, TrimStartMatches(godotPath, ResPrefix)))
  }

  /** The path inside the project is what follows the `res://` prefixes, however many
      there are. */
  lemma GodotPathStripsPrefixes(projectPath: string, prefixes: string, rest: string)
    requires Repeats(prefixes, ResPrefix) && prefixes != [] && !(ResPrefix <= rest)
    ensures GodotPathToAbsolute(projectPath, prefixes + rest) == Ok(PathJoin(projectPath, rest))
  {
    assert prefixes[..|ResPrefix|] == ResPrefix;
    assert (prefixes + rest)[..|ResPrefix|] == ResPrefix;
    TrimStartOfRepeats(prefixes, rest, ResPrefix);
  }

  lemma {:induction false} TrimStartOfRepeats(prefixes: string, rest: string, p: string)
    requires p != [] && Repeats(prefixes, p) && !(p <= rest)
    ensures TrimStartMatches(prefixes + rest, p) == rest
    decreases |prefixes|
  {
    if prefixes == [] {
      assert prefixes + rest == rest;
      assert Stripped(rest, p) == 0;
    } else {
      var s := prefixes + rest;
      assert s[..|p|] == p;
      assert s[|p|..] == prefixes[|p|..] + rest;
      TrimStartOfRepeats(prefixes[|p|..], rest, p);
      assert Stripped(s, p) == |p| + Stripped(s[|p|..], p);
    }
  }

  // ---------------------------------------------------------------------------------
  // The sheet's size

  /** The side a fixed tile needs: its cell's far corner in both directions. */
  function Need(tile: C.TileConfig, w: nat, h: nat): nat {
    Max((tile.position.0 as nat + 1) * w, (tile.position.1 as nat + 1) * h)
  }

  function Max(a: nat, b: nat): nat { if a < b then b else a }

  /** The first loop of `write_tile_set_image`: the largest side any fixed tile needs. */
  function Required(tiles: seq<C.TileConfig>, w: nat, h: nat): nat {
    if tiles == [] then 0 else Max(Required(tiles[..|tiles| - 1], w, h), Need(tiles[|tiles| - 1], w, h))
  }

  /** Every fixed tile's cell ends inside a square of the required side, and the side
      is what some tile needs (or 0 without tiles). */
  lemma {:induction false} RequiredCovers(tiles: seq<C.TileConfig>, w: nat, h: nat)
    ensures forall i :: 0 <= i < |tiles| ==> Need(tiles[i], w, h) <= Required(tiles, w, h)
    ensures Required(tiles, w, h) == 0 || exists i :: 0 <= i < |tiles| && Required(tiles, w, h) == Need(tiles[i], w, h)
  {
    if tiles != [] {
      var n := |tiles| - 1;
      RequiredCovers(tiles[..n], w, h);
      assert forall i :: 0 <= i < n ==> tiles[..n][i] == tiles[i];
    }
  }

  /** A tile's need bounds both far edges of its cell. */
  lemma NeedBounds(tile: C.TileConfig, w: nat, h: nat)
    ensures (tile.position.0 as nat + 1) * w <= Need(tile, w, h)
    ensures (tile.position.1 as nat + 1) * h <= Need(tile, w, h)
  {
  }

  /** How many tiles of side `side` fit along a sheet side of `size` (`size / side`). */
  function Fit(size: nat, side: nat): nat
    requires side > 0
  {
    size / side
  }

  /** Multiplying by the same factor keeps the order. */
  lemma {:induction false} MulMono(a: nat, b: nat, c: nat)
    requires a <= b
    ensures a * c <= b * c
  {
    if c > 0 {
      MulMono(a, b, c - 1);
      assert a * c == a * (c - 1) + a;
      assert b * c == b * (c - 1) + b;
    }
  }

  lemma FitAtMost(size: nat, side: nat)
    requires side > 0
    ensures Fit(size, side) <= size
  {
    var q := size / side;
    assert q * side <= size;
    MulMono(1, side, q);
  }

  /** The number of whole tiles a square sheet of this side holds. */
  function Cells(size: nat, w: nat, h: nat): nat
    requires w > 0 && h > 0
  {
    Fit(size, w) * Fit(size, h)
  }

  lemma DivStep(a: nat, b: nat, w: nat)
    requires 0 < w <= b
    ensures (a + b) / w >= a / w + 1
  {
    var q := a / w;
    assert q * w <= a;
    assert (q + 1) * w <= a + b;
  }

  lemma ProductGrows(p: nat, q: nat, p': nat, q': nat)
    requires p' >= p + 1 && q' >= q + 1
    ensures p' * q' > p * q
  {
    MulMono(p + 1, p', q');
    MulMono(q + 1, q', p + 1);
    assert (p + 1) * (q + 1) == p * q + p + q + 1;
  }

  /** A step of the growth loop holds strictly more tiles. */
  lemma CellsGrow(size: nat, w: nat, h: nat)
    requires w > 0 && h > 0
    ensures Cells(size + Max(w, h), w, h) > Cells(size, w, h)
  {
    DivStep(size, Max(w, h), w);
    DivStep(size, Max(w, h), h);
    ProductGrows(Fit(size, w), Fit(size, h), Fit(size + Max(w, h), w), Fit(size + Max(w, h), h));
  }

  /** The growth loop: add the larger tile side until the sheet holds `total` tiles. */
  function Grow(size: nat, w: nat, h: nat, total: nat): (r: nat)
    requires w > 0 && h > 0
    ensures r >= size && Cells(r, w, h) >= total
    ensures r == size || (r >= size + Max(w, h) && Cells(r - Max(w, h), w, h) < total)
    decreases total - Cells(size, w, h)
  {
    if Cells(size, w, h) >= total then size
    else
      CellsGrow(size, w, h);
      var r := Grow(size + Max(w, h), w, h, total);
      assert r == size + Max(w, h) ==> r - Max(w, h) == size;
      r
  }

  /** The side of the square sheet for the fixed tiles and `count` terrain tiles. */
  function SheetSize(tiles: seq<C.TileConfig>, count: nat, tileSize: (u32, u32)): nat
    requires tileSize.0 > 0 && tileSize.1 > 0
  {
    Grow(Required(tiles, tileSize.0 as nat, tileSize.1 as nat), tileSize.0 as nat, tileSize.1 as nat, |tiles| + count)
  }

  /** The sheet has room for every tile and reaches every fixed tile's cell. */
  lemma SheetSizeFits(tiles: seq<C.TileConfig>, count: nat, tileSize: (u32, u32))
    requires tileSize.0 > 0 && tileSize.1 > 0
    ensures Cells(SheetSize(tiles, count, tileSize), tileSize.0 as nat, tileSize.1 as nat) >= |tiles| + count
    ensures forall i :: 0 <= i < |tiles| ==>
      (tiles[i].position.0 as nat + 1) * tileSize.0 as nat <= SheetSize(tiles, count, tileSize) &&
      (tiles[i].position.1 as nat + 1) * tileSize.1 as nat <= SheetSize(tiles, count, tileSize)
  {
    var w, h := tileSize.0 as nat, tileSize.1 as nat;
    RequiredCovers(tiles, w, h);
    forall i | 0 <= i < |tiles|
      ensures (tiles[i].position.0 as nat + 1) * w <= SheetSize(tiles, count, tileSize)
      ensures (tiles[i].position.1 as nat + 1) * h <= SheetSize(tiles, count, tileSize)
    {
      NeedBounds(tiles[i], w, h);
    }
  }

  // ---------------------------------------------------------------------------------
  // Placement

  /** A fixed tile's cell. */
  function Pos(tile: C.TileConfig): (nat, nat) {
    (tile.position.0 as nat, tile.position.1 as nat)
  }

  /** `tiles.iter().any(|tile| tile.config.position == [x, y])`. */
  predicate Occupied(tiles: seq<C.TileConfig>, cell: (nat, nat)) {
    exists i :: 0 <= i < |tiles| && Pos(tiles[i]) == cell
  }

  /** The free cells of row `y` left of column `x`, left to right. */
  function FreeRow(tiles: seq<C.TileConfig>, x: nat, y: nat): (r: seq<(nat, nat)>)
    ensures forall i :: 0 <= i < |r| ==> r[i].0 < x && r[i].1 == y
  {
    if x == 0 then []
    else FreeRow(tiles, x - 1, y) + (if Occupied(tiles, (x - 1, y)) then [] else [(x - 1, y)])
  }

  /** Cells in row-major order: by row, then by column. */
  predicate RowMajor(a: (nat, nat), b: (nat, nat)) {
    a.1 < b.1 || (a.1 == b.1 && a.0 < b.0)
  }

  /** The free cells of the first `y` rows of `cols` columns, in row-major order: the
      `coordinates` iterator of `write_tile_set_image`. */
  function FreeCells(tiles: seq<C.TileConfig>, cols: nat, y: nat): (r: seq<(nat, nat)>)
    ensures forall i :: 0 <= i < |r| ==> r[i].0 < cols && r[i].1 < y
  {
    if y == 0 then [] else FreeCells(tiles, cols, y - 1) + FreeRow(tiles, cols, y - 1)
  }

  /** A cell is free in the first `x` columns of row `y` exactly when it is there and unoccupied. */
  lemma {:induction false} FreeRowMember(tiles: seq<C.TileConfig>, x: nat, y: nat, c: (nat, nat))
    ensures c in FreeRow(tiles, x, y) <==> c.0 < x && c.1 == y && !Occupied(tiles, c)
  {
    if x > 0 {
      FreeRowMember(tiles, x - 1, y, c);
      var before := FreeRow(tiles, x - 1, y);
      var step: seq<(nat, nat)> := if Occupied(tiles, (x - 1, y)) then [] else [(x - 1, y)];
      assert c in before + step <==> c in before || c in step;
    }
  }

  lemma {:induction false} FreeRowOrder(tiles: seq<C.TileConfig>, x: nat, y: nat)
    ensures forall i, j :: 0 <= i < j < |FreeRow(tiles, x, y)| ==> FreeRow(tiles, x, y)[i].0 < FreeRow(tiles, x, y)[j].0
  {
    if x > 0 {
      FreeRowOrder(tiles, x - 1, y);
    }
  }

  lemma InConcat(a: seq<(nat, nat)>, b: seq<(nat, nat)>, c: (nat, nat))
    ensures c in a + b <==> c in a || c in b
  {
  }

  /** A cell is free in the first `y` rows exactly when it is inside them and unoccupied. */
  lemma {:induction false} FreeCellsMember(tiles: seq<C.TileConfig>, cols: nat, y: nat, c: (nat, nat))
    ensures c in FreeCells(tiles, cols, y) <==> c.0 < cols && c.1 < y && !Occupied(tiles, c)
  {
    if y > 0 {
      FreeCellsMember(tiles, cols, y - 1, c);
      FreeRowMember(tiles, cols, y - 1, c);
      var before := FreeCells(tiles, cols, y - 1);
      var row := FreeRow(tiles, cols, y - 1);
      InConcat(before, row, c);
    }
  }

  /** The free cells are exactly the unoccupied cells of the grid. */
  lemma FreeCellsMembers(tiles: seq<C.TileConfig>, cols: nat, y: nat)
    ensures forall c :: c in FreeCells(tiles, cols, y) <==> c.0 < cols && c.1 < y && !Occupied(tiles, c)
  {
    forall c: (nat, nat) ensures c in FreeCells(tiles, cols, y) <==> c.0 < cols && c.1 < y && !Occupied(tiles, c) {
      FreeCellsMember(tiles, cols, y, c);
    }
  }

  /** The free cells come in row-major order. */
  lemma {:induction false} FreeCellsOrder(tiles: seq<C.TileConfig>, cols: nat, y: nat)
    ensures forall i, j :: 0 <= i < j < |FreeCells(tiles, cols, y)| ==>
      RowMajor(FreeCells(tiles, cols, y)[i], FreeCells(tiles, cols, y)[j])
  {
    if y > 0 {
      FreeCellsOrder(tiles, cols, y - 1);
      FreeRowOrder(tiles, cols, y - 1);
      var before := FreeCells(tiles, cols, y - 1);
      var row := FreeRow(tiles, cols, y - 1);
      var r := before + row;
      assert FreeCells(tiles, cols, y) == r;
      forall i, j | 0 <= i < j < |r| ensures RowMajor(r[i], r[j]) {
        if j < |before| {
          assert r[i] == before[i] && r[j] == before[j];
        } else if i >= |before| {
          assert r[i] == row[i - |before|] && r[j] == row[j - |before|];
        } else {
          assert r[i] == before[i] && r[j] == row[j - |before|];
        }
      }
    }
  }

  /** The layout entry of a fixed tile: its cell, no terrain, no sides. */
  function FixedTile(tile: C.TileConfig): (r: Tile)
    ensures r.position == G.Vec2i(tile.position.0 as int as i64, tile.position.1 as int as i64)
    ensures r.terrainSet.None? && r.terrain.None? && r.terrainsPeeringBit == NoPeering
  {
    Tile(G.Vec2i(tile.position.0 as int as i64, tile.position.1 as int as i64), None, None, NoPeering)
  }

  function FixedTiles(tiles: seq<C.TileConfig>): (r: seq<Tile>)
    ensures |r| == |tiles| && forall i :: 0 <= i < |tiles| ==> r[i] == FixedTile(tiles[i])
  {
    seq(|tiles|, i requires 0 <= i < |tiles| => FixedTile(tiles[i]))
  }

  /** The layout entry of a terrain tile at a cell: the set and terrain as `u32`, and
      the tile's sides. */
  function TerrainTileAt(cell: (nat, nat), tile: TerrainTile): (r: Tile)
    requires cell.0 < 0x1_0000_0000 && cell.1 < 0x1_0000_0000
    ensures r.position == G.Vec2i(cell.0 as i64, cell.1 as i64)
    ensures r.terrainSet == Some(TruncateU32(tile.terrain.terrainSet))
    ensures r.terrain == Some(TruncateU32(tile.terrain.terrain))
    ensures r.terrainsPeeringBit == tile.terrainsPeeringBit
  {
    Tile(G.Vec2i(cell.0 as i64, cell.1 as i64), Some(TruncateU32(tile.terrain.terrainSet)),
      Some(TruncateU32(tile.terrain.terrain)), tile.terrainsPeeringBit)
  }

  /** Cells whose coordinates are `u32` values. */
  predicate InSheet(cells: seq<(nat, nat)>) {
    forall k :: 0 <= k < |cells| ==> cells[k].0 < 0x1_0000_0000 && cells[k].1 < 0x1_0000_0000
  }

  /** `coordinates.zip(terrain_tiles)`: the terrain tiles, in order, on the cells, in
      order, as far as both go. */
  function Placed(cells: seq<(nat, nat)>, terrainTiles: seq<TerrainTile>): (r: seq<Tile>)
    requires InSheet(cells)
    ensures |r| == if |cells| < |terrainTiles| then |cells| else |terrainTiles|
    ensures forall k :: 0 <= k < |r| ==> r[k] == TerrainTileAt(cells[k], terrainTiles[k])
  {
    var n := if |cells| < |terrainTiles| then |cells| else |terrainTiles|;
    seq(n, k requires 0 <= k < n => TerrainTileAt(cells[k], terrainTiles[k]))
  }

  /** The layout `write_tile_set_image` returns for a sheet of this side. */
  function SheetLayout(tiles: seq<C.TileConfig>, terrainTiles: seq<TerrainTile>, tileSize: (u32, u32), size: nat): seq<Tile>
    requires tileSize.0 > 0 && tileSize.1 > 0 && size < 0x1_0000_0000
  {
    var cells := FreeCells(tiles, Fit(size, tileSize.0 as nat), Fit(size, tileSize.1 as nat));
    FixedTiles(tiles) + Placed(cells, terrainTiles)
  }

  // ---------------------------------------------------------------------------------
  // Every terrain tile gets a free cell

  /** The occupied cells of row `y` left of column `x`, left to right. */
  function TakenRow(tiles: seq<C.TileConfig>, x: nat, y: nat): (r: seq<(nat, nat)>)
  {
    if x == 0 then []
    else TakenRow(tiles, x - 1, y) + (if Occupied(tiles, (x - 1, y)) then [(x - 1, y)] else [])
  }

  /** The occupied cells of the first `y` rows, in row-major order. */
  function TakenCells(tiles: seq<C.TileConfig>, cols: nat, y: nat): (r: seq<(nat, nat)>)
  {
    if y == 0 then [] else TakenCells(tiles, cols, y - 1) + TakenRow(tiles, cols, y - 1)
  }

  lemma {:induction false} TakenRowFacts(tiles: seq<C.TileConfig>, x: nat, y: nat)
    ensures forall i :: 0 <= i < |TakenRow(tiles, x, y)| ==>
      Occupied(tiles, TakenRow(tiles, x, y)[i]) && TakenRow(tiles, x, y)[i].0 < x && TakenRow(tiles, x, y)[i].1 == y
    ensures forall i, j :: 0 <= i < j < |TakenRow(tiles, x, y)| ==> TakenRow(tiles, x, y)[i].0 < TakenRow(tiles, x, y)[j].0
  {
    if x > 0 {
      TakenRowFacts(tiles, x - 1, y);
    }
  }

  /** The occupied cells of the grid, without repetitions. */
  lemma {:induction false} TakenCellsFacts(tiles: seq<C.TileConfig>, cols: nat, y: nat)
    ensures forall i :: 0 <= i < |TakenCells(tiles, cols, y)| ==>
      Occupied(tiles, TakenCells(tiles, cols, y)[i]) && TakenCells(tiles, cols, y)[i].1 < y
    ensures forall i, j :: 0 <= i < j < |TakenCells(tiles, cols, y)| ==> TakenCells(tiles, cols, y)[i] != TakenCells(tiles, cols, y)[j]
  {
    if y > 0 {
      TakenCellsFacts(tiles, cols, y - 1);
      TakenRowFacts(tiles, cols, y - 1);
      var before := TakenCells(tiles, cols, y - 1);
      var row := TakenRow(tiles, cols, y - 1);
      var r := before + row;
      forall i | 0 <= i < |r| ensures Occupied(tiles, r[i]) && r[i].1 < y {
        if i < |before| { assert r[i] == before[i]; } else { assert r[i] == row[i - |before|]; }
      }
      forall i, j | 0 <= i < j < |r| ensures r[i] != r[j] {
        if j < |before| {
          assert r[i] == before[i] && r[j] == before[j];
        } else if i >= |before| {
          assert r[i] == row[i - |before|] && r[j] == row[j - |before|];
        } else {
          assert r[i] == before[i] && r[j] == row[j - |before|];
        }
      }
    }
  }

  lemma {:induction false} RowCount(tiles: seq<C.TileConfig>, x: nat, y: nat)
    ensures |FreeRow(tiles, x, y)| + |TakenRow(tiles, x, y)| == x
  {
    if x > 0 {
      RowCount(tiles, x - 1, y);
    }
  }

  lemma RowsStep(cols: nat, y: nat)
    requires y > 0
    ensures cols * (y - 1) + cols == cols * y
  {
  }

  lemma {:induction false} GridCount(tiles: seq<C.TileConfig>, cols: nat, y: nat)
    ensures |FreeCells(tiles, cols, y)| + |TakenCells(tiles, cols, y)| == cols * y
  {
    if y > 0 {
      GridCount(tiles, cols, y - 1);
      RowCount(tiles, cols, y - 1);
      RowsStep(cols, y);
    }
  }

  /** A cell is occupied by a list exactly when its front or its last tile occupies it. */
  lemma OccupiedLast(tiles: seq<C.TileConfig>, c: (nat, nat))
    requires |tiles| > 0
    ensures Occupied(tiles, c) <==> Occupied(tiles[..|tiles| - 1], c) || Pos(tiles[|tiles| - 1]) == c
  {
    var n := |tiles| - 1;
    if Occupied(tiles, c) {
      var i :| 0 <= i < |tiles| && Pos(tiles[i]) == c;
      if i < n { assert tiles[..n][i] == tiles[i]; }
    }
    if Occupied(tiles[..n], c) {
      var i :| 0 <= i < n && Pos(tiles[..n][i]) == c;
      assert tiles[..n][i] == tiles[i];
    }
  }

  lemma OccupiedSnoc(tiles: seq<C.TileConfig>)
    requires |tiles| > 0
    ensures forall c :: Occupied(tiles, c) <==> Occupied(tiles[..|tiles| - 1], c) || Pos(tiles[|tiles| - 1]) == c
  {
    forall c: (nat, nat) ensures Occupied(tiles, c) <==> Occupied(tiles[..|tiles| - 1], c) || Pos(tiles[|tiles| - 1]) == c {
      OccupiedLast(tiles, c);
    }
  }

  /** The cells the fixed tiles occupy. */
  function Positions(tiles: seq<C.TileConfig>): (r: set<(nat, nat)>)
    ensures |r| <= |tiles|
    ensures forall c :: c in r <==> Occupied(tiles, c)
  {
    if tiles == [] then {}
    else
      var n := |tiles| - 1;
      var before := Positions(tiles[..n]);
      OccupiedSnoc(tiles);
      before + {Pos(tiles[n])}
  }

  /** A list without repetitions drawn from a set is no longer than the set. */
  lemma {:induction false} DistinctBound(s: seq<(nat, nat)>, cells: set<(nat, nat)>)
    requires forall i, j :: 0 <= i < j < |s| ==> s[i] != s[j]
    requires forall i :: 0 <= i < |s| ==> s[i] in cells
    ensures |s| <= |cells|
  {
    if s != [] {
      var n := |s| - 1;
      DistinctBound(s[..n], cells - {s[n]});
    }
  }

  /** A grid that holds all tiles leaves a free cell for every terrain tile, because
      at most one cell per fixed tile is taken. */
  lemma EnoughFreeCells(tiles: seq<C.TileConfig>, cols: nat, rows: nat, count: nat)
    requires cols * rows >= |tiles| + count
    ensures |FreeCells(tiles, cols, rows)| >= count
  {
    GridCount(tiles, cols, rows);
    TakenCellsFacts(tiles, cols, rows);
    DistinctBound(TakenCells(tiles, cols, rows), Positions(tiles));
  }

  /** A cell left of column `Fit(size, w)` ends inside the sheet. */
  lemma CellInside(x: nat, size: nat, w: nat)
    requires w > 0 && x < Fit(size, w)
    ensures (x + 1) * w <= size
  {
    assert (x + 1) * w <= (size / w) * w;
  }

  lemma PlacedSnoc(cells: seq<(nat, nat)>, c: (nat, nat), terrainTiles: seq<TerrainTile>)
    requires InSheet(cells) && c.0 < 0x1_0000_0000 && c.1 < 0x1_0000_0000
    ensures InSheet(cells + [c])
    ensures Placed(cells + [c], terrainTiles) == Placed(cells, terrainTiles) +
      (if |cells| < |terrainTiles| then [TerrainTileAt(c, terrainTiles[|cells|])] else [])
  {
    assert forall k :: 0 <= k < |cells| ==> (cells + [c])[k] == cells[k];
  }

  lemma CellsAssoc(a: seq<(nat, nat)>, b: seq<(nat, nat)>, c: seq<(nat, nat)>)
    ensures (a + b) + c == a + (b + c)
  {
  }

  /** Visits one cell of the grid: a free cell is recorded and, while terrain tiles remain, receives the next one. */
  method PlaceCell(tiles: seq<C.TileConfig>, terrainTiles: seq<TerrainTile>, x: nat, y: nat,
                   ghost base: seq<Tile>, layout: seq<Tile>, ghost cells: seq<(nat, nat)>, k: nat)
    returns (out: seq<Tile>, ghost cellsOut: seq<(nat, nat)>, kOut: nat)
    requires x < 0x1_0000_0000 && y < 0x1_0000_0000
    requires InSheet(cells)
    requires k == (if |cells| < |terrainTiles| then |cells| else |terrainTiles|)
    requires layout == base + Placed(cells, terrainTiles)
    ensures cellsOut == cells + (if Occupied(tiles, (x, y)) then [] else [(x, y)])
    ensures InSheet(cellsOut)
    ensures kOut == (if |cellsOut| < |terrainTiles| then |cellsOut| else |terrainTiles|)
    ensures out == base + Placed(cellsOut, terrainTiles)
  {
    out, cellsOut, kOut := layout, cells, k;
    if !Occupied(tiles, (x, y)) {
      PlacedSnoc(cellsOut, (x, y), terrainTiles);
      if kOut < |terrainTiles| {
        out := out + [TerrainTileAt((x, y), terrainTiles[kOut])];
        kOut := kOut + 1;
      }
      cellsOut := cellsOut + [(x, y)];
    }
  }

  /** The inner loop of the placement: the cells of row `y`. */
  method PlaceRow(tiles: seq<C.TileConfig>, terrainTiles: seq<TerrainTile>, cols: nat, y: nat,
                  ghost base: seq<Tile>, layout: seq<Tile>, ghost cells: seq<(nat, nat)>, k: nat)
    returns (out: seq<Tile>, ghost cellsOut: seq<(nat, nat)>, kOut: nat)
    requires cols < 0x1_0000_0000 && y < 0x1_0000_0000
    requires InSheet(cells)
    requires k == (if |cells| < |terrainTiles| then |cells| else |terrainTiles|)
    requires layout == base + Placed(cells, terrainTiles)
    ensures cellsOut == cells + FreeRow(tiles, cols, y)
    ensures InSheet(cellsOut)
    ensures kOut == (if |cellsOut| < |terrainTiles| then |cellsOut| else |terrainTiles|)
    ensures out == base + Placed(cellsOut, terrainTiles)
  {
    out, cellsOut, kOut := layout, cells, k;
    var x := 0;
    while x < cols
      invariant x <= cols
      invariant cellsOut == cells + FreeRow(tiles, x, y)
      invariant InSheet(cellsOut)
      invariant kOut == (if |cellsOut| < |terrainTiles| then |cellsOut| else |terrainTiles|)
      invariant out == base + Placed(cellsOut, terrainTiles)
    {
      ghost var prev := cellsOut;
      out, cellsOut, kOut := PlaceCell(tiles, terrainTiles, x, y, base, out, cellsOut, kOut);
      assert cellsOut == cells + FreeRow(tiles, x + 1, y) by {
        CellsAssoc(cells, FreeRow(tiles, x, y), cellsOut[|prev|..]);
      }
      x := x + 1;
    }
  }

  /** The second placement loop: the free cells, row by row, zipped with the terrain
      tiles. */
  method PlaceTerrainTiles(tiles: seq<C.TileConfig>, terrainTiles: seq<TerrainTile>, cols: nat, rows: nat, layout: seq<Tile>)
    returns (out: seq<Tile>)
    requires cols < 0x1_0000_0000 && rows < 0x1_0000_0000
    ensures out == layout + Placed(FreeCells(tiles, cols, rows), terrainTiles)
  {
    out := layout;
    ghost var cells: seq<(nat, nat)> := [];
    var k := 0;
    var y := 0;
    while y < rows
      invariant y <= rows
      invariant cells == FreeCells(tiles, cols, y)
      invariant InSheet(cells)
      invariant k == (if |cells| < |terrainTiles| then |cells| else |terrainTiles|)
      invariant out == layout + Placed(cells, terrainTiles)
    {
      out, cells, k := PlaceRow(tiles, terrainTiles, cols, y, layout, out, cells, k);
      y := y + 1;
    }
  }

  /** A layout entry carries the terrain and the sides of the terrain tile it came from. */
  predicate Carries(t: Tile, tile: TerrainTile) {
    t.terrainSet == Some(TruncateU32(tile.terrain.terrainSet)) &&
    t.terrain == Some(TruncateU32(tile.terrain.terrain)) &&
    t.terrainsPeeringBit == tile.terrainsPeeringBit
  }

  /** A layout entry's tile lies wholly inside a square sheet of side `size`. */
  predicate WithinSheet(t: Tile, w: nat, h: nat, size: nat) {
    0 <= t.position.x as int && 0 <= t.position.y as int &&
    (t.position.x as int + 1) * w <= size && (t.position.y as int + 1) * h <= size
  }

  /** Entry `a` comes strictly before entry `b` in row-major order of their cells. */
  predicate Before(a: Tile, b: Tile) {
    a.position.y < b.position.y || (a.position.y == b.position.y && a.position.x < b.position.x)
  }

  /** The cells handed to the terrain tiles lie inside the sheet. */
  lemma FreeCellsInside(tiles: seq<C.TileConfig>, w: nat, h: nat, size: nat)
    requires w > 0 && h > 0
    ensures forall c :: c in FreeCells(tiles, Fit(size, w), Fit(size, h)) ==> (c.0 + 1) * w <= size && (c.1 + 1) * h <= size
  {
    var cells := FreeCells(tiles, Fit(size, w), Fit(size, h));
    forall c | c in cells ensures (c.0 + 1) * w <= size && (c.1 + 1) * h <= size {
      var k :| 0 <= k < |cells| && cells[k] == c;
      CellInside(c.0, size, w);
      CellInside(c.1, size, h);
    }
  }

  /** The layout opens with the fixed tiles, in configuration order. */
  predicate FixedFirst(tiles: seq<C.TileConfig>, layout: seq<Tile>) {
    |tiles| <= |layout| && forall i :: 0 <= i < |tiles| ==> layout[i] == FixedTile(tiles[i])
  }

  /** After the first `n` entries come the terrain tiles, one entry each, in order. */
  predicate CarriesAll(layout: seq<Tile>, n: nat, terrainTiles: seq<TerrainTile>) {
    n + |terrainTiles| == |layout| && forall k :: 0 <= k < |terrainTiles| ==> Carries(layout[n + k], terrainTiles[k])
  }

  predicate AllWithin(layout: seq<Tile>, w: nat, h: nat, size: nat) {
    forall i :: 0 <= i < |layout| ==> WithinSheet(layout[i], w, h, size)
  }

  /** The entries from `n` on follow one another in row-major order. */
  predicate InOrderFrom(layout: seq<Tile>, n: nat) {
    forall i, j :: n <= i < j < |layout| ==> Before(layout[i], layout[j])
  }

  /** No entry from `n` on shares a cell with one of the first `n`. */
  predicate ApartFrom(layout: seq<Tile>, n: nat) {
    forall i, j :: 0 <= i < n <= j < |layout| ==> layout[i].position != layout[j].position
  }

  /** Terrain entries placed on cells in row-major order follow one another in that order. */
  lemma PlacedOrder(cells: seq<(nat, nat)>, terrainTiles: seq<TerrainTile>)
    requires InSheet(cells)
    requires forall i, j :: 0 <= i < j < |cells| ==> RowMajor(cells[i], cells[j])
    ensures forall i, j :: 0 <= i < j < |Placed(cells, terrainTiles)| ==>
      Before(Placed(cells, terrainTiles)[i], Placed(cells, terrainTiles)[j])
  {
  }

  /** Terrain entries placed on cells inside the sheet lie inside the sheet. */
  lemma PlacedWithin(cells: seq<(nat, nat)>, terrainTiles: seq<TerrainTile>, w: nat, h: nat, size: nat)
    requires InSheet(cells)
    requires forall c :: c in cells ==> (c.0 + 1) * w <= size && (c.1 + 1) * h <= size
    ensures forall k :: 0 <= k < |Placed(cells, terrainTiles)| ==> WithinSheet(Placed(cells, terrainTiles)[k], w, h, size)
  {
    forall k | 0 <= k < |Placed(cells, terrainTiles)| ensures WithinSheet(Placed(cells, terrainTiles)[k], w, h, size) {
      assert cells[k] in cells;
    }
  }

  /** Terrain entries placed on unoccupied cells never share a cell with a fixed tile. */
  lemma PlacedAvoids(cells: seq<(nat, nat)>, terrainTiles: seq<TerrainTile>, tiles: seq<C.TileConfig>)
    requires InSheet(cells)
    requires forall c :: c in cells ==> !Occupied(tiles, c)
    ensures forall i, k :: 0 <= i < |tiles| && 0 <= k < |Placed(cells, terrainTiles)| ==>
      FixedTile(tiles[i]).position != Placed(cells, terrainTiles)[k].position
  {
    forall i, k | 0 <= i < |tiles| && 0 <= k < |Placed(cells, terrainTiles)|
      ensures FixedTile(tiles[i]).position != Placed(cells, terrainTiles)[k].position
    {
      assert cells[k] in cells;
      assert Pos(tiles[i]) != cells[k];
    }
  }

  /** Fixed tiles whose configured cells fit lie inside the sheet. */
  lemma FixedWithin(tiles: seq<C.TileConfig>, w: nat, h: nat, size: nat)
    requires forall i :: 0 <= i < |tiles| ==>
      (tiles[i].position.0 as nat + 1) * w <= size && (tiles[i].position.1 as nat + 1) * h <= size
    ensures forall i :: 0 <= i < |tiles| ==> WithinSheet(FixedTile(tiles[i]), w, h, size)
  {
  }

  /** The layout `write_tile_set_image` returns, on a sheet of the size it chooses: every
      fixed tile in configuration order, then one entry per terrain tile, in order. Every
      entry lies inside the sheet, the terrain entries follow one another in row-major
      order (so no two share a cell), and none of them lands on a cell a fixed tile
      occupies. */
  lemma LayoutShape(tiles: seq<C.TileConfig>, terrainTiles: seq<TerrainTile>, tileSize: (u32, u32),
                    size: nat, layout: seq<Tile>)
    requires tileSize.0 > 0 && tileSize.1 > 0
    requires size == SheetSize(tiles, |terrainTiles|, tileSize) && size < 0x1_0000_0000
    requires layout == SheetLayout(tiles, terrainTiles, tileSize, size)
    ensures |layout| == |tiles| + |terrainTiles|
    ensures FixedFirst(tiles, layout)
    ensures CarriesAll(layout, |tiles|, terrainTiles)
    ensures AllWithin(layout, tileSize.0 as nat, tileSize.1 as nat, size)
    ensures InOrderFrom(layout, |tiles|)
    ensures ApartFrom(layout, |tiles|)
  {
    var w, h := tileSize.0 as nat, tileSize.1 as nat;
    var cols, rows := Fit(size, w), Fit(size, h);
    var cells := FreeCells(tiles, cols, rows);
    FitAtMost(size, w);
    FitAtMost(size, h);
    SheetSizeFits(tiles, |terrainTiles|, tileSize);
    EnoughFreeCells(tiles, cols, rows, |terrainTiles|);
    var fixed, placed := FixedTiles(tiles), Placed(cells, terrainTiles);
    assert layout == fixed + placed;
    LayoutParts(fixed, placed, |tiles|, |terrainTiles|, layout);
    FreeCellsInside(tiles, w, h, size);
    PlacedWithin(cells, terrainTiles, w, h, size);
    FixedWithin(tiles, w, h, size);
    FreeCellsOrder(tiles, cols, rows);
    PlacedOrder(cells, terrainTiles);
    FreeCellsMembers(tiles, cols, rows);
    PlacedAvoids(cells, terrainTiles, tiles);
  }

  /** Indexing into a concatenation of a front of length `n` and a back of length `m`. */
  lemma LayoutParts(fixed: seq<Tile>, placed: seq<Tile>, n: nat, m: nat, layout: seq<Tile>)
    requires |fixed| == n && |placed| == m && layout == fixed + placed
    ensures |layout| == n + m
    ensures forall i :: 0 <= i < n ==> layout[i] == fixed[i]
    ensures forall k :: 0 <= k < m ==> layout[n + k] == placed[k]
    ensures forall i :: n <= i < n + m ==> layout[i] == placed[i - n]
  {
  }

  /** The first loop of `write_tile_set_image`. */
  method RequiredSide(tiles: seq<C.TileConfig>, w: nat, h: nat) returns (size: nat)
    ensures size == Required(tiles, w, h)
  {
    size := 0;
    var i := 0;
    while i < |tiles|
      invariant 0 <= i <= |tiles|
      invariant size == Required(tiles[..i], w, h)
    {
      var x, y := tiles[i].position.0 as nat, tiles[i].position.1 as nat;
      var reqWidth := (x + 1) * w;
      var reqHeight := (y + 1) * h;
      var reqSize := Max(reqWidth, reqHeight);
      assert tiles[..i + 1][..i] == tiles[..i];
      size := Max(size, reqSize);
      i := i + 1;
    }
    assert tiles[..i] == tiles;
  }

  /** The growth loop of `write_tile_set_image`. */
  method GrowSide(start: nat, w: nat, h: nat, total: nat) returns (size: nat)
    requires w > 0 && h > 0
    ensures size == Grow(start, w, h, total)
  {
    size := start;
    while Fit(size, w) * Fit(size, h) < total
      invariant Grow(size, w, h, total) == Grow(start, w, h, total)
      decreases total - Cells(size, w, h)
    {
      CellsGrow(size, w, h);
      size := size + Max(w, h);
    }
  }

  /** The loop that lays out the fixed tiles. */
  method PlaceFixedTiles(tiles: seq<C.TileConfig>) returns (layout: seq<Tile>)
    ensures layout == FixedTiles(tiles)
  {
    layout := [];
    var i := 0;
    while i < |tiles|
      invariant 0 <= i <= |tiles|
      invariant layout == FixedTiles(tiles[..i])
    {
      assert FixedTiles(tiles[..i + 1]) == FixedTiles(tiles[..i]) + [FixedTile(tiles[i])];
      layout := layout + [FixedTile(tiles[i])];
      i := i + 1;
    }
    assert tiles[..i] == tiles;
  }

  /** The sizing and placement arithmetic of `write_tile_set_image`. The source's `u32`
      sums and products must not overflow, which holds when the sheet's side fits in a
      `u32`. */
  method WriteTileSetLayout(tiles: seq<C.TileConfig>, terrainTiles: seq<TerrainTile>, tileSize: (u32, u32))
    returns (imageSize: u32, layout: seq<Tile>)
    requires tileSize.0 > 0 && tileSize.1 > 0
    requires SheetSize(tiles, |terrainTiles|, tileSize) < 0x1_0000_0000
    ensures imageSize as nat == SheetSize(tiles, |terrainTiles|, tileSize)
    ensures layout == SheetLayout(tiles, terrainTiles, tileSize, imageSize as nat)
  {
    var w, h := tileSize.0 as nat, tileSize.1 as nat;
    var required := RequiredSide(tiles, w, h);
    var size := GrowSide(required, w, h, |tiles| + |terrainTiles|);
    imageSize := size as u32;
    layout := PlaceFixedTiles(tiles);
    var cols, rows := Fit(size, w), Fit(size, h);
    FitAtMost(size, w);
    FitAtMost(size, h);
    layout := PlaceTerrainTiles(tiles, terrainTiles, cols, rows, layout);
  }
}
