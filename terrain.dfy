/** The terrain helpers: which terrains a pair of hexagon sides needs, how the six
    sides become a peering bit, terrain lookup by name, which combinations have enough
    images, and the rules that read terrain image names. Pixels are not modelled: an
    image is known only by the terrain combination it draws. */
module Terrain {
  import opened Common
  import C = Config
  import opened Resource

  /** A terrain, as the index of its set and its index within that set. */
  datatype TerrainId = TerrainId(terrainSet: nat, terrain: nat)

  /** A loaded terrain image, known by the terrains it combines (center first). */
  datatype TerrainImage = TerrainImage(combination: seq<TerrainId>)

  /** A generated terrain tile: its center terrain and its sides. */
  datatype TerrainTile = TerrainTile(terrain: TerrainId, terrainsPeeringBit: PeeringBit)

  // ---------------------------------------------------------------------------------
  // The terrains meeting at one corner of the hexagon

  /** `get_terrain_combination`: the terrains an edge between two neighbouring sides
      needs, center first, with duplicates of the center dropped only when every
      present side is the center. */
  function GetTerrainCombination(center: TerrainId, side1: Option<TerrainId>, side2: Option<TerrainId>): (r: seq<TerrainId>)
    ensures 1 <= |r| <= 3 && r[0] == center
    ensures r == [center] <==>
      (side1.Some? ==> side1.value == center) && (side2.Some? ==> side2.value == center)
    ensures |r| == 2 <==>
      (side1.None? && side2.Some? && side2.value != center) || (side1.Some? && side2.None? && side1.value != center)
    ensures |r| == 2 ==> r[1] == (if side1.Some? then side1.value else side2.value)
    ensures |r| == 3 <==> side1.Some? && side2.Some? && (side1.value != center || side2.value != center)
    ensures |r| == 3 ==> r == [center, side1.value, side2.value]
  {
    match (side1, side2)
    case (None, None) => [center]
    case (None, Some(other)) => if other == center then [center] else [center, other]
    case (Some(other), None) => if other == center then [center] else [center, other]
    case (Some(other1), Some(other2)) =>
      if other1 == center && other2 == center then [center] else [center, other1, other2]
  }

  // ---------------------------------------------------------------------------------
  // Sides to peering bit

  /** `t.terrain as u32` on a present side. */
  function SideTerrain(side: Option<TerrainId>): (r: Option<u32>)
    ensures r.Some? <==> side.Some?
    ensures side.Some? && side.value.terrain < 0x1_0000_0000 ==> r.value as int == side.value.terrain
  {
    match side
    case None => None
    case Some(t) => Some(TruncateU32(t.terrain))
  }

  /** The peering bit's sides clockwise from the top left, the order the generated
      side lists use. */
  function Clockwise(p: PeeringBit): seq<Option<u32>> {
    [p.topLeftSide, p.topSide, p.topRightSide, p.bottomRightSide, p.bottomSide, p.bottomLeftSide]
  }

  /** The peering bit's sides in the order the tile set file lists them. */
  function FileOrder(p: PeeringBit): seq<Option<u32>> {
    [p.bottomRightSide, p.bottomSide, p.bottomLeftSide, p.topLeftSide, p.topSide, p.topRightSide]
  }

  /** `sides_to_peering_bit`: side `k` of the clockwise list becomes side `k` of the
      bit, and a side has a terrain exactly when the list has one there. The source
      asserts that there are six sides. */
  function SidesToPeeringBit(sides: seq<Option<TerrainId>>): (r: PeeringBit)
    requires |sides| == 6
    ensures forall k :: 0 <= k < 6 ==> Clockwise(r)[k] == SideTerrain(sides[k])
    ensures forall k :: 0 <= k < 6 ==> (Clockwise(r)[k].Some? <==> sides[k].Some?)
  {
    PeeringBit(
      bottomRightSide := SideTerrain(sides[3]),
      bottomSide := SideTerrain(sides[4]),
      bottomLeftSide := SideTerrain(sides[5]),
      topLeftSide := SideTerrain(sides[0]),
      topSide := SideTerrain(sides[1]),
      topRightSide := SideTerrain(sides[2]))
  }

  /** The file lists the sides starting at the bottom right, half a turn after the
      top left where the clockwise list starts. */
  lemma FileOrderIsHalfTurn(sides: seq<Option<TerrainId>>)
    requires |sides| == 6
    ensures forall k :: 0 <= k < 6 ==> FileOrder(SidesToPeeringBit(sides))[k] == SideTerrain(sides[(k + 3) % 6])
  {
    var p := SidesToPeeringBit(sides);
    var f := FileOrder(p);
    forall k | 0 <= k < 6 ensures f[k] == SideTerrain(sides[(k + 3) % 6]) {
      if k < 3 {
        assert (k + 3) % 6 == k + 3;
        assert f[k] == Clockwise(p)[k + 3];
      } else {
        assert (k + 3) % 6 == k - 3;
        assert f[k] == Clockwise(p)[k - 3];
      }
    }
  }

  // ---------------------------------------------------------------------------------
  // Terrain lookup by name

  /** Some terrain of the set has this name. */
  predicate InSet(terrainSet: C.TerrainSetConfig, name: string) {
    exists m :: 0 <= m < |terrainSet.terrains| && terrainSet.terrains[m].name == name
  }

  /** The names of the terrains, in order. */
  function Names(terrains: seq<C.TerrainConfig>): (r: seq<string>)
    ensures |r| == |terrains| && forall m :: 0 <= m < |r| ==> r[m] == terrains[m].name
  {
    seq(|terrains|, m requires 0 <= m < |terrains| => terrains[m].name)
  }

  /** The inner `find_map`: the index of the first terrain with this name. */
  function FirstNamed(terrains: seq<C.TerrainConfig>, name: string): (r: Option<nat>)
    ensures r.Some? ==> r.value < |terrains| && terrains[r.value].name == name
    ensures r.Some? ==> forall m :: 0 <= m < r.value ==> terrains[m].name != name
    ensures r.None? <==> forall m :: 0 <= m < |terrains| ==> terrains[m].name != name
  {
    Position(Names(terrains), name)
  }

  /** The outer `find_map` of `find_terrain`, from set `k` on. */
  function FindTerrainFrom(name: string, sets: seq<C.TerrainSetConfig>, k: nat): (r: Option<TerrainId>)
    requires k <= |sets|
    ensures r.Some? ==> k <= r.value.terrainSet < |sets|
    ensures r.Some? ==> FirstNamed(sets[r.value.terrainSet].terrains, name) == Some(r.value.terrain)
    ensures r.Some? ==> forall s :: k <= s < r.value.terrainSet ==> !InSet(sets[s], name)
    ensures r.None? <==> forall s :: k <= s < |sets| ==> !InSet(sets[s], name)
    decreases |sets| - k
  {
    if k == |sets| then None
    else match FirstNamed(sets[k].terrains, name)
      case Some(index) => Some(TerrainId(k, index))
      case None => FindTerrainFrom(name, sets, k + 1)
  }

  /** `find_terrain`: the first set that has a terrain of this name, and the first
      terrain of that name in it; `None` when no set has one. */
  function FindTerrain(name: string, sets: seq<C.TerrainSetConfig>): (r: Option<TerrainId>)
    ensures r.Some? ==> r.value.terrainSet < |sets|
    ensures r.Some? ==> r.value.terrain < |sets[r.value.terrainSet].terrains|
    ensures r.Some? ==> sets[r.value.terrainSet].terrains[r.value.terrain].name == name
    ensures r.Some? ==> forall s :: 0 <= s < r.value.terrainSet ==> !InSet(sets[s], name)
    ensures r.Some? ==> forall m :: 0 <= m < r.value.terrain ==> sets[r.value.terrainSet].terrains[m].name != name
    ensures r.None? <==> forall s :: 0 <= s < |sets| ==> !InSet(sets[s], name)
  {
    FindTerrainFrom(name, sets, 0)
  }

  // ---------------------------------------------------------------------------------
  // The sub-image an edge uses

  /** What `generate_combinations` does with one edge: skip it, take a row of the
      combination image, or stop at the `unimplemented!()` for a combination of more
      than one terrain. */
  datatype SubImage = Skip | Row(row: u32) | Unimplemented

  /** The sub-image rule for the edge at `index` (0 to 5), whose side and next side
      may have a terrain. `index as u32 % 2` is the parity of `index`, since the
      truncation keeps it. */
  function SubImageIndex(combination: seq<TerrainId>, index: nat, side: bool, next: bool): (r: SubImage)
    ensures r.Unimplemented? <==> |combination| != 1
    ensures r.Skip? <==> |combination| == 1 && !side && !next
    ensures r.Row? ==> 1 <= r.row <= 3
    ensures r.Row? && side && next ==> r.row == 3
    ensures r.Row? && side && !next ==> r.row as int == 1 + index % 2
    ensures r.Row? && !side && next ==> r.row as int == 2 - index % 2
  {
    if |combination| != 1 then Unimplemented
    else if side && next then Row(3)
    else if side then Row(1 + TruncateU32(index) % 2)
    else if next then Row(2 - TruncateU32(index) % 2)
    else Skip
  }

  /** An edge with only its own side and an edge with only the next side use
      complementary rows, and the rows alternate with the edge's parity. */
  lemma SubImageRowsComplement(combination: seq<TerrainId>, index: nat)
    requires |combination| == 1
    ensures SubImageIndex(combination, index, true, false).row + SubImageIndex(combination, index, false, true).row == 3
    ensures SubImageIndex(combination, index, true, false) == SubImageIndex(combination, index + 2, true, false)
    ensures SubImageIndex(combination, index, true, false) != SubImageIndex(combination, index + 1, true, false)
  {
  }

  /** Together with `get_terrain_combination`, the rule is unimplemented exactly for
      the edges where a present side is not the center terrain. */
  lemma EdgeUnimplementedIff(center: TerrainId, side: Option<TerrainId>, next: Option<TerrainId>, index: nat)
    ensures SubImageIndex(GetTerrainCombination(center, side, next), index, side.Some?, next.Some?).Unimplemented?
      <==> (side.Some? && side.value != center) || (next.Some? && next.value != center)
  {
  }

  // ---------------------------------------------------------------------------------
  // Terrain image names

  /** Rust's `char::is_whitespace` on ASCII: space and tab through carriage return. */
  predicate IsSpace(c: char) { c == ' ' || '\t' <= c <= '\r' }

  /** The number of white-space characters at the front of `s`. */
  function Leading(s: string): (n: nat)
    ensures n <= |s|
    ensures forall i :: 0 <= i < n ==> IsSpace(s[i])
    ensures n < |s| ==> !IsSpace(s[n])
  {
    if s != [] && IsSpace(s[0]) then
      var n := 1 + Leading(s[1..]);
      assert forall i :: 1 <= i < n ==> s[i] == s[1..][i - 1];
      n
    else 0
  }

  /** Where `s[lo..hi]` ends once its trailing white space is removed. */
  function TrimmedEnd(s: string, lo: nat, hi: nat): (n: nat)
    requires lo <= hi <= |s|
    ensures lo <= n <= hi
    ensures forall i :: n <= i < hi ==> IsSpace(s[i])
    ensures n > lo ==> !IsSpace(s[n - 1])
    decreases hi
  {
    if hi > lo && IsSpace(s[hi - 1]) then TrimmedEnd(s, lo, hi - 1) else hi
  }

  /** `str::trim`: what is left once the white space at both ends is removed. */
  function Trim(s: string): string {
    var start := Leading(s);
    s[start..TrimmedEnd(s, start, |s|)]
  }

  /** Trimming keeps the slice of the string between its leading and its trailing white
      space, and neither end of the result is white space. */
  lemma TrimFacts(s: string)
    ensures var start := Leading(s);
      start + |Trim(s)| <= |s| && Trim(s) == s[start..start + |Trim(s)|] &&
      (forall i :: 0 <= i < start ==> IsSpace(s[i])) &&
      (forall i :: start + |Trim(s)| <= i < |s| ==> IsSpace(s[i]))
    ensures Trim(s) != [] ==> !IsSpace(Trim(s)[0]) && !IsSpace(Trim(s)[|Trim(s)| - 1])
  {
    var start := Leading(s);
    var end := TrimmedEnd(s, start, |s|);
    assert Trim(s) == s[start..end];
    if end > start {
      assert !IsSpace(s[start]);
    }
  }

  /** The number of `c` in `s`. */
  function Count(s: string, c: char): nat {
    if s == [] then 0 else (if s[0] == c then 1 else 0) + Count(s[1..], c)
  }

  /** `str::split` on one character: the pieces between the separators, at least one. */
  function Split(s: string, sep: char): (r: seq<string>)
    ensures |r| >= 1
    ensures forall p :: p in r ==> sep !in p
    decreases |s|
  {
    var k := IndexOf(s, sep);
    if k == |s| then [s] else [s[..k]] + Split(s[k + 1..], sep)
  }

  /** The pieces put back together with the separator between them. */
  function Join(parts: seq<string>, sep: char): string
    requires |parts| >= 1
  {
    if |parts| == 1 then parts[0] else parts[0] + [sep] + Join(parts[1..], sep)
  }

  lemma {:induction false} CountAppend(a: string, b: string, c: char)
    ensures Count(a + b, c) == Count(a, c) + Count(b, c)
  {
    if a != [] {
      assert (a + b)[0] == a[0] && (a + b)[1..] == a[1..] + b;
      assert Count(a + b, c) == (if a[0] == c then 1 else 0) + Count(a[1..] + b, c);
      CountAppend(a[1..], b, c);
    } else {
      assert a + b == b;
    }
  }

  lemma {:induction false} CountNone(s: string, c: char)
    requires c !in s
    ensures Count(s, c) == 0
  {
    if s != [] {
      CountNone(s[1..], c);
    }
  }

  /** Counting across a separator at position `k`. */
  lemma CountAround(s: string, k: nat, c: char)
    requires k < |s| && s[k] == c
    ensures Count(s, c) == Count(s[..k], c) + 1 + Count(s[k + 1..], c)
  {
    assert s == s[..k] + ([c] + s[k + 1..]);
    CountAppend(s[..k], [c] + s[k + 1..], c);
    assert ([c] + s[k + 1..])[0] == c && ([c] + s[k + 1..])[1..] == s[k + 1..];
  }

  /** Splitting loses nothing: joining the pieces gives the string back. */
  lemma {:induction false} SplitRejoins(s: string, sep: char)
    ensures Join(Split(s, sep), sep) == s
    decreases |s|
  {
    var k := IndexOf(s, sep);
    if k == |s| {
      assert s[..k] == s;
    } else {
      SplitRejoins(s[k + 1..], sep);
      var rest := Split(s[k + 1..], sep);
      var parts := Split(s, sep);
      assert parts == [s[..k]] + rest;
      assert parts[0] == s[..k] && parts[1..] == rest;
      assert Join(parts, sep) == s[..k] + [sep] + Join(rest, sep);
      assert s == s[..k] + [sep] + s[k + 1..];
    }
  }

  /** There is one piece more than there are separators. */
  lemma {:induction false} SplitCount(s: string, sep: char)
    ensures |Split(s, sep)| == Count(s, sep) + 1
    decreases |s|
  {
    var k := IndexOf(s, sep);
    assert sep !in s[..k];
    CountNone(s[..k], sep);
    if k == |s| {
      assert s[..k] == s;
    } else {
      SplitCount(s[k + 1..], sep);
      CountAround(s, k, sep);
      assert |Split(s, sep)| == 1 + |Split(s[k + 1..], sep)|;
    }
  }

  /** Each piece trimmed. */
  function TrimAll(parts: seq<string>): (r: seq<string>)
    ensures |r| == |parts| && forall i :: 0 <= i < |parts| ==> r[i] == Trim(parts[i])
  {
    seq(|parts|, i requires 0 <= i < |parts| => Trim(parts[i]))
  }

  /** The terrain names in an image's file stem: its `-`-separated parts, trimmed; a
      stem of more than three parts is refused. */
  function TerrainNames(stem: string): (r: Result<seq<string>>)
    ensures r.Err? ==> r.error == BadFileName
    ensures r.Ok? ==> 1 <= |r.value| <= 3 && |r.value| == |Split(stem, '-')|
    ensures r.Ok? ==> forall i :: 0 <= i < |r.value| ==> r.value[i] == Trim(Split(stem, '-')[i])
    ensures r.Ok? ==> forall i :: 0 <= i < |r.value| ==> '-' !in r.value[i]
  {
    var parts := Split(stem, '-');
    if |parts| > 3 then Err(BadFileName)
    else
      var names := TrimAll(parts);
      assert forall i :: 0 <= i < |names| ==> '-' !in names[i] by {
        forall i | 0 <= i < |names| ensures '-' !in names[i] {
          assert parts[i] in parts;
          TrimNoSeparator(parts[i], '-');
        }
      }
      Ok(names)
  }

  /** Trimming a piece keeps it free of the separator. */
  lemma TrimNoSeparator(p: string, sep: char)
    requires sep !in p
    ensures sep !in Trim(p)
  {
    TrimFacts(p);
    var r := Trim(p);
    var i := Leading(p);
    forall j | 0 <= j < |r| ensures r[j] != sep {
      assert r[j] == p[i + j];
    }
  }

  /** A stem is refused exactly when it has three or more `-`. */
  lemma TerrainNamesRefused(stem: string)
    ensures TerrainNames(stem).Err? <==> Count(stem, '-') >= 3
    ensures TerrainNames(stem).Ok? ==> |TerrainNames(stem).value| == Count(stem, '-') + 1
  {
    SplitRejoins(stem, '-');
    SplitCount(stem, '-');
  }

  /** `load_images`' filter and stem rule: files whose stem is not ASCII and the mask
      image are skipped (`None`), the others yield their terrain names. */
  function ImageTerrainNames(stem: string): (r: Option<Result<seq<string>>>)
    ensures r.None? <==> !IsAscii(stem) || stem == "mask"
    ensures r.Some? ==> r.value == TerrainNames(stem)
  {
    if !IsAscii(stem) || stem == "mask" then None else Some(TerrainNames(stem))
  }

  /** The size an image of `count` terrains must have: one tile wide, and four rows
      of tiles high for one or two terrains, two for three. The heights are `u32`
      products, which wrap as in a release build. */
  function ExpectedSize(tileSize: (u32, u32), count: nat): (r: (u32, u32))
    requires 1 <= count <= 3
    ensures r.0 == tileSize.0
    ensures count < 3 && tileSize.1 < 0x4000_0000 ==> r.1 as int == 4 * tileSize.1 as int
    ensures count == 3 && tileSize.1 < 0x8000_0000 ==> r.1 as int == 2 * tileSize.1 as int
  {
    var sizes := [
      (tileSize.0, TruncateU32(tileSize.1 as nat * 4)),
      (tileSize.0, TruncateU32(tileSize.1 as nat * 4)),
      (tileSize.0, TruncateU32(tileSize.1 as nat * 2))];
    sizes[count - 1]
  }
}
