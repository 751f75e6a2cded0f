/** Fixed values shared by the game engine and the score tables. */
module Constants {

  /** Tile content of a mine; every other content is a count of adjacent mines. */
  const MINE: int := -1

  /** Tile content of a tile with no adjacent mines. */
  const EMPTY: int := 0

  /** Number of entries a score table keeps. */
  const MAXSCORES: nat := 10

  /** A difficulty preset: grid width, grid height and number of mines. */
  datatype Preset = Preset(width: nat, height: nat, mines: nat)

  const EASY: Preset := Preset(9, 9, 10)
  const MEDIUM: Preset := Preset(16, 16, 40)
  const EXPERT: Preset := Preset(30, 16, 99)

  /** The names of the three difficulties, which are also the score table keys. */
  const DIFFICULTIES: set<string> := {"easy", "medium", "expert"}
}
