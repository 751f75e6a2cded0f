# Minesweeper engine and high scores in Dafny

The project models the core of a desktop minesweeper game. It covers the following pieces.

- **The tile** (`MineCoordinate`). It has fixed coordinates and a mutable content, flagged bit and revealed bit. Content is MINE (-1), EMPTY (0) or the number of adjacent mines.
- **The field generator** (`MineFieldFactory`). It builds a width-by-height field of new tiles and shuffles them. It marks the first `mineCount` tiles of the shuffled list as mines, places each tile at its own coordinates, and recounts every non-mine tile's adjacent mines.
- **The game engine** (`MineLogic`). Its counters are the flags still available (`mines`), the flags placed, the unrevealed tiles, the win state (UNFINISHED, WON, LOST) and the first-move bit. It handles four actions:
  - a left click, which is first-click safe because a mine under the first click is moved first;
  - a right click, which toggles a flag;
  - a double click, which is the chord;
  - a reveal that floods out from empty tiles.
- **The high-score table** (`ScoreTable`). It holds at most ten scores, ascending by time. It has an insertion, a high-score test and a `difficulty;name;time` line writer.
- **The score handler** (`ScoreHandler`). It holds one table per difficulty ("easy", "medium", "expert") and gates the high-score test on whether a score file exists. It reads score lines back, rejoining names that contained `;`, and writes all tables out.

## Module layout

| file | module | contents |
|---|---|---|
| constants.dfy | `Constants` | MINE, EMPTY, MAXSCORES, the three presets, the difficulty names |
| grid.dfy | `Grid` | the value of a field (`Board` = columns of `Tile`), neighbour and tile counts, `Recount`, and the invariants of play |
| coordinate.dfy | `Coordinate` | class `MineCoordinate` |
| field_factory.dfy | `FieldFactory` | the field generator on a heap `array2<Tile>`, proved against `Board` values |
| logic.dfy | `Logic` | class `MineLogic` and the lemmas about its steps |
| scores.dfy | `Scores` | the `Score` datatype, the ranking specification `Added`/`HighScore`, and class `ScoreTable` |
| scoreformat.dfy | `ScoreFormat` | Java-style `split`, joining, the text of times and lines, and parsing one score line |
| handler.dfy | `Handler` | reading a whole score text (`Load`), the text of all tables (`AllText`), and class `ScoreHandler` |

Notes on the model:
- A field on the heap is an `array2<Tile>` of tile values. Each mutating method also keeps a ghost `Board` that the array depicts, and the contracts are stated on those boards.
- Times are natural numbers counting tenths of a second. The tables only compare times with `<`, so nothing else about them matters to the ranking.
- The two random choices are nondeterministic choices: the index taken out of the list while shuffling, and the tile the first-click mine is moved to. The shuffle is therefore "some permutation", and the relocation is "some non-mine tile".

## Model

| member | source | states |
|---|---|---|
| `Coordinate.MineCoordinate.constructor` | src/main/java/com/mycompany/minesweeper/MineCoordinate.java:42-47 | a new tile has the given coordinates (const fields, so they never change), is empty, not flagged and not revealed |
| `Coordinate.MineCoordinate.SetContent` | src/main/java/com/mycompany/minesweeper/MineCoordinate.java:99-101 | sets the content and leaves flagged and revealed unchanged |
| `Coordinate.MineCoordinate.SetFlagged` | src/main/java/com/mycompany/minesweeper/MineCoordinate.java:108-110 | sets the flag and leaves content and revealed unchanged |
| `Coordinate.MineCoordinate.SetRevealed` | src/main/java/com/mycompany/minesweeper/MineCoordinate.java:117-119 | sets revealed and leaves content and flag unchanged |
| `Coordinate.MineOrEmpty` | src/main/java/com/mycompany/minesweeper/MineCoordinate.java:126-136 | isMine holds iff the content is MINE, isEmpty holds iff it is EMPTY, and never both |
| `Grid.With` | src/main/java/com/mycompany/minesweeper/MineCoordinate.java:99-119 | writing one tile of a board changes that tile only and keeps the board's shape |
| `Grid.NeighboursAtMostEight` | src/main/java/com/mycompany/minesweeper/MineFieldFactory.java:93-115 | a neighbour count over the 3x3 box without its centre is at most 8 |
| `Grid.NeighboursZero` | src/main/java/com/mycompany/minesweeper/MineFieldFactory.java:93-115 | a neighbour count is 0 exactly when no in-bounds tile of the box other than the centre satisfies the property |
| `Grid.NoAdjacentMines` | src/main/java/com/mycompany/minesweeper/MineLogic.java:190-194 | a tile with no adjacent mines has no mine among its in-bounds neighbours, so flooding from it is safe |
| `Grid.CountUpdate` | src/main/java/com/mycompany/minesweeper/MineLogic.java:113-126 | replacing one tile changes a tile count by exactly the difference the tile makes |
| `Grid.CountsAfterWith` | src/main/java/com/mycompany/minesweeper/MineLogic.java:171-199 | after one tile is replaced, the mine, flag and unrevealed counts change by exactly what that tile contributes |
| `Grid.CountMono` | src/main/java/com/mycompany/minesweeper/MineLogic.java:301-307 | a property implied by another is counted no more often, and strictly less often when some tile has one but not the other |
| `Grid.NonMineExists` | src/main/java/com/mycompany/minesweeper/MineLogic.java:242-247 | a field with fewer mines than tiles has a non-mine tile, so the relocation loop has a target |
| `Grid.Recount` | src/main/java/com/mycompany/minesweeper/MineFieldFactory.java:72-83 | every tile of the result is the recounted tile: a mine stays as it is, and any other tile gets the number of its adjacent mines |
| `Grid.RecountKeepsLayout` | src/main/java/com/mycompany/minesweeper/MineFieldFactory.java:76-80 | recounting never changes which tiles are mines, the number of mines, or any flag or revealed bit |
| `Grid.RecountConsistent` | src/main/java/com/mycompany/minesweeper/MineFieldFactory.java:72-83 | after recounting, every non-mine tile's content equals its adjacent-mine count, which lies in 0..8 |
| `Grid.ConsistentIsFixpoint` | src/main/java/com/mycompany/minesweeper/MineFieldFactory.java:72-83 | a board is consistent iff recounting leaves it unchanged |
| `Grid.RecountIdempotent` | src/main/java/com/mycompany/minesweeper/MineFieldFactory.java:72-83 | recounting twice is the same as recounting once |
| `Grid.AdjacentMinesFrame` | src/main/java/com/mycompany/minesweeper/MineFieldFactory.java:93-115 | the neighbour count depends only on which tiles are mines |
| `Grid.NothingRevealedIsSound` | src/main/java/com/mycompany/minesweeper/MineLogic.java:47-54 | a new field, with nothing revealed, has no revealed mine and no unfinished flood |
| `Grid.OpenedGrows` | src/main/java/com/mycompany/minesweeper/MineLogic.java:196-198 | opening a single non-mine tile only opens non-mine tiles |
| `Grid.GrowsTransitive` | src/main/java/com/mycompany/minesweeper/MineLogic.java:209-227 | "only non-mine tiles were opened" composes over several reveals |
| `Grid.GrowsKeeps` | src/main/java/com/mycompany/minesweeper/MineLogic.java:171-200 | opening non-mine tiles keeps the mines, the mine count, adjacency consistency, and the absence of revealed mines and revealed flags, and never hides a revealed tile |
| `Grid.ContentsFrame` | src/main/java/com/mycompany/minesweeper/MineLogic.java:109-128 | changing only flags and revealed bits keeps the mine layout and adjacency consistency |
| `Grid.RevealFrame` | src/main/java/com/mycompany/minesweeper/MineLogic.java:109-128 | changing only flags keeps the flood-fill closure, the absence of revealed mines, and "nothing revealed" |
| `Grid.WinCondition` | src/main/java/com/mycompany/minesweeper/MineLogic.java:299-307 | when no flag or mine is revealed and flags do not exceed mines, the unrevealed count equals the flag count iff every non-mine is revealed and every mine is flagged |
| `FieldFactory.View` | src/main/java/com/mycompany/minesweeper/MineFieldFactory.java:41 | the board value an array of tiles depicts |
| `FieldFactory.SetTile` | src/main/java/com/mycompany/minesweeper/MineCoordinate.java:99-119 | writing one tile of the array makes it depict the board with that tile replaced |
| `FieldFactory.CreateMineField` | src/main/java/com/mycompany/minesweeper/MineFieldFactory.java:39-64 | a fresh width-by-height field holding exactly mineCount mines, nothing flagged or revealed, and every non-mine tile's content equal to its adjacent-mine count |
| `FieldFactory.MinedTiles` | src/main/java/com/mycompany/minesweeper/MineFieldFactory.java:41-53 | the shuffled, mined list is a permutation of one tile object per coordinate, with tile (a, c) at coordinates (a, c), and exactly mineCount of them are mines |
| `FieldFactory.PlaceTiles` | src/main/java/com/mycompany/minesweeper/MineFieldFactory.java:55-58 | placing every tile of the list at its coordinates fills each array cell with the state of the tile whose coordinates it is |
| `FieldFactory.NewTiles` | src/main/java/com/mycompany/minesweeper/MineFieldFactory.java:46-50 | width times height distinct fresh empty tiles, column by column, with tile (a, c) at coordinates (a, c) |
| `FieldFactory.NewColumn` | src/main/java/com/mycompany/minesweeper/MineFieldFactory.java:47-49 | height distinct fresh empty tiles with coordinates (i, 0) to (i, height-1) |
| `FieldFactory.SetAdjacentMines` | src/main/java/com/mycompany/minesweeper/MineFieldFactory.java:72-83 | the field afterwards depicts the recounted board |
| `FieldFactory.GetAdjacentMines` | src/main/java/com/mycompany/minesweeper/MineFieldFactory.java:93-115 | the result is the number of mines among the in-bounds tiles of the 3x3 box, centre excluded |
| `FieldFactory.ShuffleCoordinates` | src/main/java/com/mycompany/minesweeper/MineFieldFactory.java:123-135 | the result is a permutation of the input: same length and same elements with the same multiplicities |
| `FieldFactory.AddMines` | src/main/java/com/mycompany/minesweeper/MineFieldFactory.java:143-147 | the first `mines` tiles of the list become mines, and every other tile and every flag and revealed bit is unchanged |
| `FieldFactory.RecountNewBoard` | src/main/java/com/mycompany/minesweeper/MineFieldFactory.java:52-61 | recounting a board with mineCount mines and nothing flagged or revealed gives a new field in the engine's sense |
| `FieldFactory.PartialEnd` | src/main/java/com/mycompany/minesweeper/MineFieldFactory.java:74-82 | the column-by-column recount of the loop ends in the recounted board |
| `FieldFactory.DistinctPermutation` | src/main/java/com/mycompany/minesweeper/MineFieldFactory.java:123-135 | a permutation of a list of distinct tiles is again a list of distinct tiles |
| `FieldFactory.MinesInPermutation` | src/main/java/com/mycompany/minesweeper/MineFieldFactory.java:52-53 | a permutation of a list of tiles holds the same number of mines |
| `FieldFactory.MinesInShuffled` | src/main/java/com/mycompany/minesweeper/MineFieldFactory.java:143-147 | a list whose first m tiles are mines and the rest empty holds exactly m mines |
| `FieldFactory.MinesInColumns` | src/main/java/com/mycompany/minesweeper/MineFieldFactory.java:55-58 | the mines of the tile list are the mines of the board its tiles are placed into |
| `Logic.Checked` | src/main/java/com/mycompany/minesweeper/MineLogic.java:303-307 | the win check gives WON or keeps the old state, and never overwrites LOST |
| `Logic.MineLogic.constructor` | src/main/java/com/mycompany/minesweeper/MineLogic.java:47-54 | a game starts with all flags available, no flags placed, width times height unrevealed tiles, UNFINISHED and the first move pending, and the bookkeeping and play invariants hold |
| `Logic.MineLogic.LeftMouse` | src/main/java/com/mycompany/minesweeper/MineLogic.java:91-102 | on the first move a mine under the click is moved away first, so the clicked tile is no mine and the first click never loses a game not already lost; then the tile is revealed exactly as `Reveal` states and the win is checked; the first move is over, and the bookkeeping and play invariants are kept |
| `Logic.MineLogic.RightMouse` | src/main/java/com/mycompany/minesweeper/MineLogic.java:109-128 | a revealed tile is left alone; a flag is always removed; a flag is placed only while flags remain; the new board and win state are exactly that, and the invariants are kept |
| `Logic.MineLogic.DoubleClick` | src/main/java/com/mycompany/minesweeper/MineLogic.java:137-163 | nothing changes unless the tile's count is positive and equals its adjacent flags; then every unflagged in-bounds neighbour is revealed, only non-mine tiles open, and an unflagged neighbouring mine loses the game |
| `Logic.MineLogic.ChordColumn` | src/main/java/com/mycompany/minesweeper/MineLogic.java:144-160 | one column of the chord's 3x3 box: every unflagged in-bounds tile of it is handled, and the win state follows the reveals |
| `Logic.MineLogic.Reveal` | src/main/java/com/mycompany/minesweeper/MineLogic.java:171-200 | a revealed tile is left alone; a flag is removed first; a mine sets LOST and stays hidden with the unrevealed count unchanged; a numbered tile is opened, nothing else on the board changes, and the unrevealed count drops by exactly one; an empty tile is opened and floods, opening only non-mine tiles, and the unrevealed count drops |
| `Logic.MineLogic.CascadeEmptyTiles` | src/main/java/com/mycompany/minesweeper/MineLogic.java:209-227 | afterwards every in-bounds neighbour of the empty tile is revealed, only non-mine tiles were opened, and the win state is unchanged; termination is by the unrevealed count |
| `Logic.MineLogic.MoveMine` | src/main/java/com/mycompany/minesweeper/MineLogic.java:235-255 | the mine moves to some tile that was not a mine, the origin becomes empty, the board is recounted, and the mine count is kept |
| `Logic.MineLogic.SetWinState` | src/main/java/com/mycompany/minesweeper/MineLogic.java:295-297 | only the win state changes |
| `Logic.MineLogic.CheckWinState` | src/main/java/com/mycompany/minesweeper/MineLogic.java:303-307 | only the win state changes, as `Checked` says; with no mine revealed, the unrevealed count equals the flag count iff the field is cleared |
| `Logic.GetAdjacentFlags` | src/main/java/com/mycompany/minesweeper/MineLogic.java:265-287 | the result is the number of flagged in-bounds tiles of the 3x3 box, centre excluded |
| `Logic.SetFlag` | src/main/java/com/mycompany/minesweeper/MineLogic.java:117-126 | toggling a flag on an unrevealed tile, moving one between available and placed, keeps the bookkeeping |
| `Logic.OpenTile` | src/main/java/com/mycompany/minesweeper/MineLogic.java:190-198 | opening an unrevealed non-mine tile with one less unrevealed tile keeps the bookkeeping |
| `Logic.MoveAccounts` | src/main/java/com/mycompany/minesweeper/MineLogic.java:249-254 | moving a mine onto a non-mine tile and recounting keeps the bookkeeping, including the total number of mines |
| `Logic.MoveCounts` | src/main/java/com/mycompany/minesweeper/MineLogic.java:249-251 | moving a mine onto a non-mine tile keeps the numbers of mines, flags and unrevealed tiles |
| `Logic.MineMovedKeeps` | src/main/java/com/mycompany/minesweeper/MineLogic.java:235-255 | after the move the clicked tile is no mine, and if nothing was revealed, still nothing is |
| `Logic.RevealKeepsNoMineRevealed` | src/main/java/com/mycompany/minesweeper/MineLogic.java:184-199 | a reveal never reveals a mine |
| `Logic.UnflaggedRevealGrows` | src/main/java/com/mycompany/minesweeper/MineLogic.java:171-200 | revealing an unflagged tile only opens non-mine tiles |
| `Logic.ChordPassedAll` | src/main/java/com/mycompany/minesweeper/MineLogic.java:144-160 | once the loop passes the whole box, every in-bounds neighbour is flagged, revealed or a mine |
| `Logic.BoxRevealedAll` | src/main/java/com/mycompany/minesweeper/MineLogic.java:212-226 | once the cascade passes the whole box, every in-bounds neighbour is revealed, and the tile leaves the pending set of the flood |
| `Scores.FirstWorse` | src/main/java/com/mycompany/minesweeper/ScoreTable.java:87-95 | the first index whose time is strictly worse than t: every earlier time is at most t |
| `Scores.Position` | src/main/java/com/mycompany/minesweeper/ScoreTable.java:87-95 | the insertion index within the first MAXSCORES slots: every earlier entry exists and has time at most t |
| `Scores.AddedRanked` | src/main/java/com/mycompany/minesweeper/ScoreTable.java:85-104 | adding a score keeps the table sorted ascending and at most MAXSCORES long |
| `Scores.AddedPlace` | src/main/java/com/mycompany/minesweeper/ScoreTable.java:89-100 | an accepted score lands after every entry with time at most its own (ties go after) and before the first worse entry; the entries before it and after it keep their order; the size grows by one, or stays MAXSCORES so that the old last entry is dropped |
| `Scores.AddedContents` | src/main/java/com/mycompany/minesweeper/ScoreTable.java:89-100 | an accepted score adds exactly that entry to a non-full table, and on a full table it replaces exactly the old last entry |
| `Scores.AddedNoPlace` | src/main/java/com/mycompany/minesweeper/ScoreTable.java:87-103 | a full table whose every time is at most t is unchanged |
| `Scores.HighScoreChanges` | src/main/java/com/mycompany/minesweeper/ScoreTable.java:65-77 | the high-score test holds exactly when adding the score would change the table |
| `Scores.AddedExample` | src/main/java/com/mycompany/minesweeper/ScoreTable.java:85-104 | inserting 5, 3, 8, 3, 1 into an empty table gives 1, 3, 3, 5, 8, with the second 3 after the first |
| `Scores.AddAllRebuilds` | src/main/java/com/mycompany/minesweeper/ScoreTable.java:85-104 | adding, in order, the entries of a ranked table rebuilds that table |
| `Scores.TableLines` | src/main/java/com/mycompany/minesweeper/ScoreTable.java:111-118 | one `difficulty;name;time` line per entry, in table order |
| `Scores.TableTextLines` | src/main/java/com/mycompany/minesweeper/ScoreTable.java:111-118 | the table text is those lines, each followed by a line break |
| `Scores.TableTextReads` | src/main/java/com/mycompany/minesweeper/ScoreTable.java:111-118 | the lines of the table text are the table's lines, and each parses back to its difficulty, name and time |
| `Scores.ScoreTable.constructor` | src/main/java/com/mycompany/minesweeper/ScoreTable.java:35-38 | a new table has the given difficulty and no scores |
| `Scores.ScoreTable.IsHighScore` | src/main/java/com/mycompany/minesweeper/ScoreTable.java:65-77 | true iff some stored time among the first ten is worse than t, or the table has room |
| `Scores.ScoreTable.AddScore` | src/main/java/com/mycompany/minesweeper/ScoreTable.java:85-104 | the new list is the ranked insertion `Added` of the old one |
| `Scores.ScoreTable.ToString` | src/main/java/com/mycompany/minesweeper/ScoreTable.java:111-118 | the text is the table's lines in order, each ended by a line break |
| `ScoreFormat.SplitAll` | src/main/java/com/mycompany/minesweeper/ScoreHandler.java:144 | at least one field, and no field contains the separator |
| `ScoreFormat.DropTrailingEmpty` | src/main/java/com/mycompany/minesweeper/ScoreHandler.java:144 | a prefix of the fields that ends in a non-empty field, dropping only empty fields |
| `ScoreFormat.JoinSplitAll` | src/main/java/com/mycompany/minesweeper/ScoreHandler.java:149-154 | joining the fields with the separator gives back the text |
| `ScoreFormat.SplitAllAppend` | src/main/java/com/mycompany/minesweeper/ScoreHandler.java:144 | splitting at a separator splits both sides on their own |
| `ScoreFormat.SplitAllSingle` | src/main/java/com/mycompany/minesweeper/ScoreHandler.java:144 | a text without the separator is one field |
| `ScoreFormat.SplitJoin` | src/main/java/com/mycompany/minesweeper/ScoreHandler.java:149-154 | splitting fields joined by the separator gives back those fields, if none contains the separator |
| `ScoreFormat.NatText` | src/main/java/com/mycompany/minesweeper/ScoreTable.java:115 | the text of a natural number is a non-empty string of digits |
| `ScoreFormat.ParseNatText` | src/main/java/com/mycompany/minesweeper/ScoreHandler.java:166 | reading the digits of n gives n |
| `ScoreFormat.TimeRoundTrip` | src/main/java/com/mycompany/minesweeper/ScoreHandler.java:166 | reading back a written time gives the time, and a written time is non-empty with no `;` and no line break |
| `ScoreFormat.LinesOfTerminated` | src/main/java/com/mycompany/minesweeper/ScoreHandler.java:140-143 | reading the lines of a text written line by line gives back the lines |
| `ScoreFormat.TerminatedAppend` | src/main/java/com/mycompany/minesweeper/ScoreHandler.java:177-179 | the text of two runs of lines is the concatenation of their texts |
| `ScoreFormat.ParseLine` | src/main/java/com/mycompany/minesweeper/ScoreHandler.java:144-166 | too few fields exactly when the split has fewer than 3 fields; a bad time exactly when the last field is not a time; a read line has the first field as difficulty and the last field's time |
| `ScoreFormat.ParseThreeFields` | src/main/java/com/mycompany/minesweeper/ScoreHandler.java:144-166 | a line of exactly 3 fields reads as (field 0, field 1, field 2) when field 2 is a time |
| `ScoreFormat.ParseMoreFields` | src/main/java/com/mycompany/minesweeper/ScoreHandler.java:149-163 | with more than 3 fields, the difficulty is the first, the time is the last, and the name splits into exactly the middle fields |
| `ScoreFormat.WrittenFields` | src/main/java/com/mycompany/minesweeper/ScoreHandler.java:144 | a written line splits into the difficulty, the pieces of the name between its `;`, and the time |
| `ScoreFormat.ParseWritten` | src/main/java/com/mycompany/minesweeper/ScoreHandler.java:144-166 | a written line `difficulty;name;time` reads back as that difficulty, name and time, for any name, including names containing `;` or ending in it |
| `Handler.EmptyTables` | src/main/java/com/mycompany/minesweeper/ScoreHandler.java:42-45 | exactly the keys "easy", "medium" and "expert", each with no scores |
| `Handler.ParseLines` | src/main/java/com/mycompany/minesweeper/ScoreHandler.java:143-144 | every line parsed on its own, in order |
| `Handler.LoadRanked` | src/main/java/com/mycompany/minesweeper/ScoreHandler.java:143-168 | reading lines keeps the set of difficulties and keeps every table ranked |
| `Handler.Entries` | src/main/java/com/mycompany/minesweeper/ScoreTable.java:111-118 | the read result of each line of one table, in order |
| `Handler.AllTextLines` | src/main/java/com/mycompany/minesweeper/ScoreHandler.java:177-179 | the text of all tables is all their lines, each followed by a line break |
| `Handler.TableLinesRead` | src/main/java/com/mycompany/minesweeper/ScoreHandler.java:144-166 | each line of a table has no line break and parses back to its entry |
| `Handler.AllLinesRead` | src/main/java/com/mycompany/minesweeper/ScoreHandler.java:144-166 | the lines of all tables parse back to all their entries |
| `Handler.LoadAppend` | src/main/java/com/mycompany/minesweeper/ScoreHandler.java:143-168 | reading two runs of lines is reading the first and then the second |
| `Handler.LoadTable` | src/main/java/com/mycompany/minesweeper/ScoreHandler.java:166 | reading the entries of one table adds them, in order, to that difficulty's table only |
| `Handler.Restored` | src/main/java/com/mycompany/minesweeper/ScoreHandler.java:177-179 | replacing the tables named in the order keeps the set of difficulties |
| `Handler.RestoredAt` | src/main/java/com/mycompany/minesweeper/ScoreHandler.java:177-179 | afterwards a difficulty named in the order has the written table, and any other keeps its own |
| `Handler.LoadAll` | src/main/java/com/mycompany/minesweeper/ScoreHandler.java:143-168 | reading the entries of tables written in a given order into empty tables restores those tables, with no error |
| `Handler.RankedRebuildable` | src/main/java/com/mycompany/minesweeper/ScoreTable.java:85-104 | every ranked table is rebuilt by adding its entries in order to an empty table |
| `Handler.AllTextReads` | src/main/java/com/mycompany/minesweeper/ScoreHandler.java:140-166 | parsing the lines of the written text gives every entry of every table, in the order written |
| `Handler.RestoredAll` | src/main/java/com/mycompany/minesweeper/ScoreHandler.java:42-45 | writing every difficulty once over the three empty tables gives back the tables |
| `Handler.ReadsBack` | src/main/java/com/mycompany/minesweeper/ScoreHandler.java:138-181 | reading the written text into new tables restores every table, with no error |
| `Handler.WrittenReadsBack` | src/main/java/com/mycompany/minesweeper/ScoreHandler.java:138-181 | the round trip: whatever the order of the tables, reading back the text that writeScores produces from ranked tables restores them exactly, with no error |
| `Handler.NewTables` | src/main/java/com/mycompany/minesweeper/ScoreHandler.java:42-45 | three fresh tables keyed "easy", "medium" and "expert", each with its own difficulty and no scores |
| `Handler.ScoreHandler.constructor` | src/main/java/com/mycompany/minesweeper/ScoreHandler.java:38-77 | three tables; the file exists if it was found or created; if so the tables hold what the file text reads as, else they are empty; a just-created file holds the empty text, so its tables start empty |
| `Handler.ScoreHandler.AddScore` | src/main/java/com/mycompany/minesweeper/ScoreHandler.java:107-109 | only the named difficulty's table changes, by the ranked insertion |
| `Handler.ScoreHandler.IsHighScore` | src/main/java/com/mycompany/minesweeper/ScoreHandler.java:118-124 | false whenever the score file does not exist, otherwise the named table's high-score test |
| `Handler.ScoreHandler.ResetScores` | src/main/java/com/mycompany/minesweeper/ScoreHandler.java:92-98 | the same three keys, each mapped to a fresh empty table |
| `Handler.ScoreHandler.ReadScores` | src/main/java/com/mycompany/minesweeper/ScoreHandler.java:138-172 | the tables become what reading the text line by line into them gives, and the error is the first unreadable line's, if any |
| `Handler.ScoreHandler.WriteScores` | src/main/java/com/mycompany/minesweeper/ScoreHandler.java:177-181 | the text is the concatenation of every table's text, in the given order of the difficulties |

## Left out

- User interface, timer and file I/O are not modelled. This covers the window, the buttons, the mouse dispatch, the clock-driven timer, FileHandler and the confirmation dialog. The constructor of `ScoreHandler` takes their outcomes as parameters: whether the file was found, whether a new one was created, and its text. A file that was just created holds the empty text, so its tables start empty.
- `Handler.ScoreHandler.ResetScores`: the source also overwrites the score file with an empty text; that write is left out with the rest of the file I/O.
- `Handler.ScoreHandler.WriteScores` returns the text that the source hands to the file writer.
- Table order in `WriteScores`: the source concatenates the tables in hash-map order. The order is a parameter here (every difficulty exactly once). The round trip is proved for every order.
- Uniform randomness of the shuffle and of the relocation target is not modelled. It is a probabilistic claim. The model proves the result for every choice.
- `Logic.MineLogic.MoveMine`: the source loops over random tiles until it finds a non-mine tile. The model picks some non-mine tile in one step. The loop's termination is probabilistic, so it is not modelled either.
- Tiles as shared objects: the engine's field is an `array2` of tile values, not of `MineCoordinate` references. `MineCoordinate` objects are used where the source creates, shuffles and mines them, and their states are then placed into the array. With values, aliasing between two array cells cannot be expressed, but the source never creates it either.
- Numeric text of times: times are natural numbers of tenths, written as `<integer>.<digit>`. This is how Java writes a double with one decimal below ten million. Larger values, E-notation, more decimals and the other spellings `Double.valueOf` accepts are not modelled. `ScoreFormat.ParseTime` accepts digits, optionally followed by a point and one digit.
- Line ends: lines are split at `\n` only. The reader in the source also accepts `\r` and `\r\n`.
- Unchecked exceptions when reading scores are not raised. In the source, a line with fewer than three fields, a time that is not a number, or an unknown difficulty throws out of `readScores`. `Handler.ScoreHandler.ReadScores` returns the first such error instead. `Handler.ScoreHandler.constructor` requires that the file text reads without error, because the source has no object when the exception escapes its constructor.
- `Handler.ScoreHandler.AddScore` requires a known difficulty. The source throws a null-pointer exception for an unknown one.
- `Handler.WrittenReadsBack` requires names without line breaks. A name containing one would split its line in two.
- `FieldFactory.CreateMineField` requires that `mineCount <= width * height`. With more mines the source's addMines indexes past the end of the list.
- `Logic.MineLogic.constructor` requires fewer mines than tiles, so that a first-click mine has somewhere to go.
- `Logic.MineLogic.constructor` requires a grid with at least one column and takes the mine count as a `nat`. The source reads the first column to size the unrevealed count, and throws an index-out-of-bounds exception for a grid with no columns. Every caller passes a field of a preset size.
- `FieldFactory.CreateMineField` takes the width, the height and the mine count as `nat`. The source throws a negative-array-size exception for a negative width or height. For a negative mine count its addMines loop never runs, so the field has no mines. Every caller passes a preset's positive sizes.
- `Handler.ScoreHandler.IsHighScore` requires a known difficulty when the score file exists. The source throws a null-pointer exception for an unknown one. Without a score file it answers false for any difficulty, and so does the model.
- ScoreTable's `getScoreAtIndex` and `getScoreList` getters are not modelled. Nor is the aliasing of the internal list that `getScoreList` hands out.
- `Logic.MineLogic.Reveal`: for an empty tile the flood is bounded by "only non-mine tiles open, contents never change" and, through the play invariant, by "every opened empty tile has all its neighbours open". That every opened tile is connected to (x, y) through opened empty tiles is not stated.
- `Logic.MineLogic.CascadeEmptyTiles` and `Logic.MineLogic.DoubleClick` carry the same bound on what their reveals open.
- `Logic.MineLogic.LeftMouse` and `Logic.MineLogic.ChordColumn` carry that bound as well, because they reveal through `Reveal`. Their contracts are stated with `RevealedAt` and `Grows`, which do not require connectivity either.
- Play invariant exception: `Logic.MineLogic.DoubleClick` keeps the full play invariant `Sound` only once the first left click has happened. A chord before the first click can reveal tiles, and a later first-click mine move can then land on a revealed tile. The source allows this.
- The display constants of MineConstants (offsets, button size, colours) and the score file's name are not modelled.
- `Logic.MineLogic.MoveMine` requires a mine at the clicked tile. Its only caller, the left click, calls it only then.
