/** The tool's configuration file, as plain data: the tile size, the Godot project
    paths, the fixed tiles and the terrain sets. */
module Config {
  import opened Common

  datatype TileSetConfig = TileSetConfig(tileSize: (u32, u32))

  datatype GodotConfig = GodotConfig(projectPath: string, tileSetPath: string)

  /** A fixed tile: its image name and its cell in the sheet. */
  datatype TileConfig = TileConfig(name: string, position: (u32, u32))

  datatype TerrainConfig = TerrainConfig(name: string)

  datatype TerrainSetConfig = TerrainSetConfig(terrains: seq<TerrainConfig>)

  datatype Config = Config(
    tileSet: TileSetConfig,
    godot: GodotConfig,
    tiles: seq<TileConfig>,
    terrainSets: seq<TerrainSetConfig>)
}
