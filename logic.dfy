/**
 * The game engine: the state of one game on a field of tiles, and the
 * player's moves. The engine keeps three counters beside the field (flags
 * that may still be placed, unrevealed tiles, placed flags), a win state and
 * whether the first move is still to come. A ghost board follows the field
 * tile for tile, and the class invariant ties every counter to a count on it.
 */
module Logic {
  import opened Constants
  import opened Grid
  import opened FieldFactory

  /** The values of the win state. */
  const UNFINISHED: int := 0
  const WON: int := 1
  const LOST: int := 2

  /** The win state after the win test: never overrides a loss. */
  function Checked(winState: int, unrevealed: int, flags: int): (r: int)
    ensures r == WON || r == winState
    ensures winState == LOST ==> r == LOST
  {
    if unrevealed == flags && winState != LOST then WON else winState
  }

  /** An unrevealed, unflagged mine: a chord over it loses the game. */
  predicate IsLiveMine(t: Tile) { IsMine(t) && !t.flagged && !t.revealed }

  /**
   * What a reveal of (x, y) does to the board: nothing to a revealed tile; a
   * mine only loses its flag; a numbered tile is opened and nothing else
   * changes; an empty tile is opened and the flood from it opens further
   * non-mine tiles, while no content changes.
   */
  ghost predicate RevealedAt(b: Board, b': Board, x: int, y: int)
    requires InBounds(b, x, y)
  {
    var t := b[x][y];
    if t.revealed then b' == b
    else if IsMine(t) then b' == With(b, x, y, t.(flagged := false))
    else if t.content != EMPTY then b' == With(b, x, y, Opened(t))
    else Grows(b, b') && b'[x][y] == Opened(t)
  }

  /** The win state after a reveal of (x, y) on b: lost exactly when the tile is an unrevealed mine. */
  function RevealOutcome(b: Board, x: int, y: int, winState: int): int
    requires InBounds(b, x, y)
  {
    if !b[x][y].revealed && IsMine(b[x][y]) then LOST else winState
  }

  /** b' comes from b by moving the mine at (x, y) to a tile that was no mine, then redoing the adjacency pass. */
  ghost predicate MineMoved(b: Board, b': Board, x: int, y: int)
    requires InBounds(b, x, y)
  {
    exists nx, ny | InBounds(b, nx, ny) && !IsMine(b[nx][ny]) ::
      b' == Recount(With(With(b, nx, ny, b[nx][ny].(content := MINE)), x, y, b[x][y].(content := EMPTY)))
  }

  /** Every neighbour of (x, y) is flagged, revealed or a mine: what a chord leaves behind. */
  ghost predicate ChordDone(b: Board, x: int, y: int)
  {
    forall i, j | x - 1 <= i <= x + 1 && y - 1 <= j <= y + 1 && InBounds(b, i, j) && (i, j) != (x, y) ::
      b[i][j].flagged || b[i][j].revealed || IsMine(b[i][j])
  }

  /**
   * The engine's bookkeeping on the value of its field: the counts are right,
   * there are fewer mines than tiles, the flags still available and the flags
   * placed add up to the mines, and no flag sits on a revealed tile.
   */
  ghost predicate Accounts(b: Board, totalMines: nat, w: int, h: int, mines: int, flags: int, unrevealed: int)
  {
    IsGrid(b, w, h) && Consistent(b) && MineCount(b) == totalMines && totalMines < w * h &&
    flags == FlagCount(b) && unrevealed == UnrevealedCount(b) &&
    mines + flags == totalMines && mines >= 0 && NoFlagRevealed(b)
  }

  class MineLogic {
    const coordinateGrid: array2<Tile>
    /** The number of mines on the field, fixed for the game. */
    ghost const totalMines: nat
    /** Flags that may still be placed: the mines not yet flagged. */
    var mines: int
    var unrevealed: int
    var flags: int
    var winState: int
    /** True until the first left click. */
    var firstMove: bool
    /** The value of the field. */
    ghost var board: Board

    ghost predicate Valid()
      reads this`board, this`mines, this`flags, this`unrevealed, coordinateGrid
    {
      Depicts(coordinateGrid, board) &&
      Accounts(board, totalMines, coordinateGrid.Length0, coordinateGrid.Length1, mines, flags, unrevealed)
    }

    /**
     * The play invariant: no mine is revealed, no revealed empty tile borders
     * an unrevealed one, and before the first left click nothing is revealed.
     */
    ghost predicate Sound()
      reads this`board, this`firstMove
    {
      NoMineRevealed(board) && Closed(board) && (firstMove ==> NothingRevealed(board))
    }

    /** Starts a game on a new field holding mines mines. */
    constructor (coordinateGrid: array2<Tile>, mines: nat, ghost b: Board)
      requires coordinateGrid.Length0 > 0
      requires Depicts(coordinateGrid, b) && NewBoard(b, mines)
      requires mines < coordinateGrid.Length0 * coordinateGrid.Length1
      ensures Valid() && Sound()
      ensures this.coordinateGrid == coordinateGrid && board == b && totalMines == mines
      ensures this.mines == mines && flags == 0 && unrevealed == coordinateGrid.Length0 * coordinateGrid.Length1
      ensures winState == UNFINISHED && firstMove
    {
      this.coordinateGrid := coordinateGrid;
      totalMines := mines;
      board := b;
      this.mines := mines;
      flags := 0;
      firstMove := true;
      unrevealed := coordinateGrid.Length0 * coordinateGrid.Length1;
      winState := UNFINISHED;
      new;
      CountNone(b, IsFlagged);
      CountAll(b, coordinateGrid.Length0, coordinateGrid.Length1, IsUnrevealed);
    }

    /**
     * A left click: on the first move a mine under the click is moved away
     * first, giving the board mid; then the tile is revealed on mid.
     */
    method LeftMouse(x: int, y: int) returns (ghost mid: Board)
      requires Valid() && 0 <= x < coordinateGrid.Length0 && 0 <= y < coordinateGrid.Length1
      modifies this`board, this`mines, this`flags, this`unrevealed, this`winState, this`firstMove, coordinateGrid
      ensures Valid() && !firstMove
      ensures if old(firstMove) && IsMine(old(board)[x][y]) then MineMoved(old(board), mid, x, y) else mid == old(board)
      ensures InBounds(mid, x, y) && RevealedAt(mid, board, x, y)
      ensures old(firstMove) ==> !IsMine(mid[x][y])
      ensures old(firstMove) && old(winState) != LOST ==> winState != LOST
      ensures winState == Checked(RevealOutcome(mid, x, y, old(winState)), unrevealed, flags)
      ensures old(Sound()) ==> Sound()
    {
      ghost var sound := Sound();
      // on the first move, a mine under the click moves away first
      if IsMine(coordinateGrid[x, y]) && firstMove {
        MoveMine(x, y);
        MineMovedKeeps(old(board), board, x, y);
      }
      mid := board;
      if sound && old(firstMove) {
        NothingRevealedIsSound(mid);
      }
      ghost var w1 := winState;
      assert w1 == old(winState);
      firstMove := false;
      if !coordinateGrid[x, y].revealed {
        Reveal(x, y, {});
      }
      assert RevealedAt(mid, board, x, y) && winState == RevealOutcome(mid, x, y, w1);
      RevealKeepsNoMineRevealed(mid, board, x, y);
      CheckWinState();
    }

    /** A right click on an unrevealed tile: removes its flag, or places one while flags remain. */
    method RightMouse(x: int, y: int)
      requires Valid() && 0 <= x < coordinateGrid.Length0 && 0 <= y < coordinateGrid.Length1
      modifies this`board, this`mines, this`flags, this`winState, coordinateGrid
      ensures Valid() && firstMove == old(firstMove)
      ensures var t := old(board)[x][y];
        board == (if t.revealed then old(board)
                  else if t.flagged then With(old(board), x, y, t.(flagged := false))
                  else if old(mines) > 0 then With(old(board), x, y, t.(flagged := true))
                  else old(board))
      ensures winState == if old(board)[x][y].revealed then old(winState) else Checked(old(winState), unrevealed, flags)
      ensures old(Sound()) ==> Sound()
    {
      var coord := coordinateGrid[x, y];
      // a revealed tile takes no flag
      if coord.revealed {
        return;
      }
      ghost var b0: Board := board;
      // remove the flag of a flagged tile; place one while flags remain
      if coord.flagged {
        SetTile(coordinateGrid, x, y, coord.(flagged := false), b0);
        flags, mines := flags - 1, mines + 1;
        board := With(b0, x, y, coord.(flagged := false));
        SetFlag(b0, x, y, false, totalMines, coordinateGrid.Length0, coordinateGrid.Length1, old(mines), old(flags), unrevealed);
      } else if !coord.revealed && mines > 0 {
        SetTile(coordinateGrid, x, y, coord.(flagged := true), b0);
        mines, flags := mines - 1, flags + 1;
        board := With(b0, x, y, coord.(flagged := true));
        SetFlag(b0, x, y, true, totalMines, coordinateGrid.Length0, coordinateGrid.Length1, old(mines), old(flags), unrevealed);
      }
      CheckWinState();
    }

    /**
     * A chord: when the tile's count is positive and equals its adjacent
     * flags, every unflagged neighbour is revealed.
     */
    method DoubleClick(x: int, y: int)
      requires Valid() && 0 <= x < coordinateGrid.Length0 && 0 <= y < coordinateGrid.Length1
      modifies this`board, this`mines, this`flags, this`unrevealed, this`winState, coordinateGrid
      ensures Valid() && firstMove == old(firstMove)
      ensures var t := old(board)[x][y];
        if t.content > 0 && t.content == AdjacentFlags(old(board), x, y) then
          Grows(old(board), board) && ChordDone(board, x, y) &&
          winState == Checked(if old(winState) == LOST || Neighbours(old(board), IsLiveMine, x, y) > 0 then LOST else old(winState), unrevealed, flags)
        else
          board == old(board) && winState == old(winState)
      ensures old(Sound()) ==> NoMineRevealed(board) && Closed(board)
      ensures old(Sound()) && !firstMove ==> Sound()
    {
      var adjacent := GetAdjacentFlags(coordinateGrid, x, y, board);
      if coordinateGrid[x, y].content > 0 && coordinateGrid[x, y].content == adjacent {
        ghost var closed := Closed(board);
        ghost var noMine := NoMineRevealed(board);
        for i := x - 1 to x + 2
          invariant Valid()
          invariant Grows(old(board), board)
          invariant ChordPassed(board, x, y, i, y - 1)
          invariant winState == ChordOutcome(old(board), x, y, i, y - 1, old(winState))
          invariant closed ==> Closed(board)
          invariant noMine ==> NoMineRevealed(board)
        {
          ChordColumn(x, y, i, old(board), old(winState));
        }
        ChordPassedAll(board, x, y);
        CheckWinState();
      }
    }

    /**
     * One column i of a chord around (x, y) that started on board b0 with win
     * state w0: every unflagged neighbour in the column is revealed, and the
     * game is lost once a revealed neighbour was an unflagged mine.
     */
    method ChordColumn(x: int, y: int, i: int, ghost b0: Board, ghost w0: int)
      requires Valid() && 0 <= x < coordinateGrid.Length0 && 0 <= y < coordinateGrid.Length1
      requires x - 1 <= i <= x + 1 && Grows(b0, board) && ChordPassed(board, x, y, i, y - 1)
      requires winState == ChordOutcome(b0, x, y, i, y - 1, w0)
      modifies this`board, this`mines, this`flags, this`unrevealed, this`winState, coordinateGrid
      ensures Valid() && Grows(b0, board) && ChordPassed(board, x, y, i + 1, y - 1)
      ensures winState == ChordOutcome(b0, x, y, i + 1, y - 1, w0)
      ensures Closed(old(board)) ==> Closed(board)
      ensures NoMineRevealed(old(board)) ==> NoMineRevealed(board)
    {
      ghost var closed := Closed(board);
      ghost var noMine := NoMineRevealed(board);
      for j := y - 1 to y + 2
        invariant Valid()
        invariant Grows(b0, board)
        invariant ChordPassed(board, x, y, i, j)
        invariant winState == ChordOutcome(b0, x, y, i, j, w0)
        invariant closed ==> Closed(board)
        invariant noMine ==> NoMineRevealed(board)
      {
        // only in-bounds neighbours, never the centre, are chorded
        if i < 0 || i >= coordinateGrid.Length0 || j < 0 || j >= coordinateGrid.Length1 {
          ChordSkip(b0, board, x, y, i, j, w0, winState);
          continue;
        }
        if i == x && j == y {
          ChordSkip(b0, board, x, y, i, j, w0, winState);
          continue;
        }
        ghost var b1: Board := board;
        ghost var w1 := winState;
        if !coordinateGrid[i, j].flagged {
          Reveal(i, j, {});
        }
        ChordTile(b0, b1, board, x, y, i, j, w0, w1, winState);
      }
      ChordPassedNext(board, x, y, i);
      ChordOutcomeNext(b0, x, y, i, w0);
    }

    /**
     * Reveals (x, y). pending names the empty tiles whose cascade is still
     * running further up the call chain: if every other revealed empty tile
     * had all its neighbours revealed before, that stays so.
     */
    method Reveal(x: int, y: int, ghost pending: set<(int, int)>)
      requires Valid() && 0 <= x < coordinateGrid.Length0 && 0 <= y < coordinateGrid.Length1
      modifies this`board, this`mines, this`flags, this`unrevealed, this`winState, coordinateGrid
      decreases unrevealed, 1
      ensures Valid() && firstMove == old(firstMove) && unrevealed <= old(unrevealed)
      ensures RevealedAt(old(board), board, x, y)
      ensures old(board)[x][y].revealed || IsMine(old(board)[x][y]) ==> unrevealed == old(unrevealed)
      ensures !old(board)[x][y].revealed && !IsMine(old(board)[x][y]) ==> unrevealed < old(unrevealed)
      ensures !old(board)[x][y].revealed && !IsMine(old(board)[x][y]) && old(board)[x][y].content != EMPTY ==>
        unrevealed == old(unrevealed) - 1
      ensures winState == RevealOutcome(old(board), x, y, old(winState))
      ensures ClosedExcept(old(board), pending) ==> ClosedExcept(board, pending)
    {
      var coord := coordinateGrid[x, y];
      if coord.revealed {
        return;
      }
      ghost var b0: Board := board;
      // a flagged tile loses its flag
      if coord.flagged {
        coord := coord.(flagged := false);
        SetTile(coordinateGrid, x, y, coord, b0);
        flags, mines := flags - 1, mines + 1;
        board := With(b0, x, y, coord);
        SetFlag(b0, x, y, false, totalMines, coordinateGrid.Length0, coordinateGrid.Length1, old(mines), old(flags), unrevealed);
      } else {
        WithSame(b0, x, y);
      }
      ghost var b1: Board := board;
      if coord.content == MINE {
        winState := LOST;
      } else {
        // any other tile is revealed; an empty one also reveals its neighbours
        coord := coord.(revealed := true);
        SetTile(coordinateGrid, x, y, coord, b1);
        unrevealed := unrevealed - 1;
        board := With(b1, x, y, coord);
        WithTwice(b0, x, y, b1[x][y], coord);
        OpenTile(b0, x, y, pending, totalMines, coordinateGrid.Length0, coordinateGrid.Length1, old(mines), old(flags), unrevealed + 1);
        if coord.content == EMPTY {
          ghost var b2 := board;
          CascadeEmptyTiles(x, y, pending);
          GrowsTransitive(b0, b2, board);
        }
      }
    }

    /** Reveals every unrevealed neighbour of the revealed empty tile (x, y). */
    method CascadeEmptyTiles(x: int, y: int, ghost pending: set<(int, int)>)
      requires Valid() && 0 <= x < coordinateGrid.Length0 && 0 <= y < coordinateGrid.Length1
      requires board[x][y].revealed && board[x][y].content == EMPTY
      modifies this`board, this`mines, this`flags, this`unrevealed, this`winState, coordinateGrid
      decreases unrevealed, 2
      ensures Valid() && firstMove == old(firstMove) && winState == old(winState) && unrevealed <= old(unrevealed)
      ensures Grows(old(board), board) && NeighboursRevealed(board, x, y)
      ensures ClosedExcept(old(board), pending + {(x, y)}) ==> ClosedExcept(board, pending)
    {
      ghost var closed := ClosedExcept(board, pending + {(x, y)});
      for i := x - 1 to x + 2
        invariant Valid() && firstMove == old(firstMove) && winState == old(winState) && unrevealed <= old(unrevealed)
        invariant Grows(old(board), board)
        invariant BoxRevealed(board, x, y, i, y - 1)
        invariant closed ==> ClosedExcept(board, pending + {(x, y)})
      {
        for j := y - 1 to y + 2
          invariant Valid() && firstMove == old(firstMove) && winState == old(winState) && unrevealed <= old(unrevealed)
          invariant Grows(old(board), board)
          invariant BoxRevealed(board, x, y, i, j)
          invariant closed ==> ClosedExcept(board, pending + {(x, y)})
        {
          ghost var b0: Board := board;
          GrowsKeeps(old(board), b0);
          // the flood goes to in-bounds neighbours only
          if i < 0 || i >= coordinateGrid.Length0 || j < 0 || j >= coordinateGrid.Length1 || (i == x && j == y) {
            BoxRevealedNext(b0, x, y, i, j);
            continue;
          }
          if !coordinateGrid[i, j].revealed {
            NoAdjacentMines(b0, x, y, i, j);
            Reveal(i, j, pending + {(x, y)});
            GrowsTransitive(old(board), b0, board);
            BoxRevealedGrows(b0, board, x, y, i, j);
          }
          BoxRevealedNext(board, x, y, i, j);
        }
        BoxRevealedColumn(board, x, y, i);
      }
      BoxRevealedAll(board, x, y, pending);
    }

    /** Moves the mine at (x, y) to a tile that holds no mine and redoes the adjacency pass. */
    method MoveMine(x: int, y: int)
      requires Valid() && 0 <= x < coordinateGrid.Length0 && 0 <= y < coordinateGrid.Length1
      requires IsMine(board[x][y])
      modifies this`board, coordinateGrid
      ensures Valid() && MineMoved(old(board), board, x, y)
    {
      ghost var b0: Board := board;
      NonMineExists(b0, coordinateGrid.Length0, coordinateGrid.Length1);
      // the random search for a tile without a mine, as a choice of one
      var newX: int, newY: int :| 0 <= newX < coordinateGrid.Length0 && 0 <= newY < coordinateGrid.Length1 && !IsMine(coordinateGrid[newX, newY]);
      // the new tile becomes a mine, the old one empty
      var newTile := coordinateGrid[newX, newY];
      var oldTile := coordinateGrid[x, y];
      SetTile(coordinateGrid, newX, newY, newTile.(content := MINE), b0);
      ghost var b1 := With(b0, newX, newY, newTile.(content := MINE));
      SetTile(coordinateGrid, x, y, oldTile.(content := EMPTY), b1);
      ghost var b2 := With(b1, x, y, oldTile.(content := EMPTY));
      SetAdjacentMines(coordinateGrid, b2);
      board := Recount(b2);
      MoveAccounts(b0, newX, newY, x, y, totalMines, coordinateGrid.Length0, coordinateGrid.Length1, mines, flags, unrevealed);
    }

    /** Sets the win state; the game uses it when the player gives up. */
    method SetWinState(state: int)
      modifies this`winState
      ensures winState == state
      ensures board == old(board) && mines == old(mines) && flags == old(flags) && unrevealed == old(unrevealed)
      ensures firstMove == old(firstMove)
    {
      winState := state;
    }

    /**
     * The win test. It is exact: when no mine is revealed, the number of
     * unrevealed tiles equals the number of flags exactly when every non-mine
     * is revealed and every mine is flagged.
     */
    method CheckWinState()
      requires Valid()
      modifies this`winState
      ensures Valid()
      ensures winState == Checked(old(winState), unrevealed, flags)
      ensures board == old(board) && mines == old(mines) && flags == old(flags) && unrevealed == old(unrevealed)
      ensures firstMove == old(firstMove)
      ensures NoMineRevealed(board) ==> (unrevealed == flags <==> Cleared(board))
    {
      if unrevealed == flags && winState != LOST {
        winState := WON;
      }
      if NoMineRevealed(board) {
        WinCondition(board);
      }
    }
  }

  /** Counts the flagged tiles among the in-bounds tiles of the 3x3 box around (x, y), the centre excluded. */
  method GetAdjacentFlags(mineField: array2<Tile>, x: int, y: int, ghost b: Board) returns (flags: int)
    requires Depicts(mineField, b)
    ensures flags == AdjacentFlags(b, x, y)
  {
    flags := 0;
    for i := x - 1 to x + 2
      invariant flags == BoxHits(b, IsFlagged, x, y, i)
    {
      for j := y - 1 to y + 2
        invariant flags == BoxHits(b, IsFlagged, x, y, i) + ColumnHits(b, IsFlagged, x, y, i, j)
      {
        // only in-bounds neighbours, never the centre, count
        if i < 0 || i >= mineField.Length0 || j < 0 || j >= mineField.Length1 {
          continue;
        }
        if i == x && j == y {
          continue;
        }
        if mineField[i, j].flagged {
          flags := flags + 1;
        }
      }
    }
  }

  // ---------------------------------------------------------------------
  // Lemmas for the proofs above
  // ---------------------------------------------------------------------

  /** Placing or removing a flag on an unrevealed tile moves one unit between the flags placed and the flags left. */
  lemma SetFlag(b: Board, x: int, y: int, f: bool, totalMines: nat, w: int, h: int, mines: int, flags: int, unrevealed: int)
    requires Accounts(b, totalMines, w, h, mines, flags, unrevealed)
    requires InBounds(b, x, y) && !b[x][y].revealed && b[x][y].flagged != f
    requires f ==> mines > 0
    ensures var r := With(b, x, y, b[x][y].(flagged := f));
      Accounts(r, totalMines, w, h, if f then mines - 1 else mines + 1, if f then flags + 1 else flags - 1, unrevealed) &&
      (forall pending: set<(int, int)> :: ClosedExcept(b, pending) ==> ClosedExcept(r, pending)) &&
      (NoMineRevealed(b) ==> NoMineRevealed(r)) && (NothingRevealed(b) ==> NothingRevealed(r))
  {
    var r := With(b, x, y, b[x][y].(flagged := f));
    CountsAfterWith(b, x, y, b[x][y].(flagged := f));
    ContentsFrame(b, r);
    forall pending: set<(int, int)> ensures ClosedExcept(b, pending) ==> ClosedExcept(r, pending) {
      RevealFrame(b, r, pending);
    }
    RevealFrame(b, r, {});
  }

  /**
   * Opening the unrevealed non-mine tile (x, y), which loses any flag, keeps
   * the bookkeeping and opens only that tile; the flood-fill invariant then
   * holds with (x, y) pending, and outright when (x, y) is not empty.
   */
  lemma OpenTile(b: Board, x: int, y: int, pending: set<(int, int)>, totalMines: nat, w: int, h: int, mines: int, flags: int, unrevealed: int)
    requires Accounts(b, totalMines, w, h, mines, flags, unrevealed)
    requires InBounds(b, x, y) && !b[x][y].revealed && !IsMine(b[x][y])
    ensures var r := With(b, x, y, Opened(b[x][y]));
      Accounts(r, totalMines, w, h, if b[x][y].flagged then mines + 1 else mines, if b[x][y].flagged then flags - 1 else flags, unrevealed - 1) &&
      Grows(b, r) && r[x][y] == Opened(b[x][y]) &&
      (ClosedExcept(b, pending) ==> ClosedExcept(r, pending + {(x, y)})) &&
      (ClosedExcept(b, pending) && b[x][y].content != EMPTY ==> ClosedExcept(r, pending))
  {
    var r := With(b, x, y, Opened(b[x][y]));
    CountsAfterWith(b, x, y, Opened(b[x][y]));
    ContentsFrame(b, r);
  }

  /** Moving a mine onto a non-mine tile and redoing the adjacency pass keeps the bookkeeping, the flags and the revealed bits. */
  lemma MoveAccounts(b: Board, nx: int, ny: int, x: int, y: int, totalMines: nat, w: int, h: int, mines: int, flags: int, unrevealed: int)
    requires Accounts(b, totalMines, w, h, mines, flags, unrevealed)
    requires InBounds(b, nx, ny) && InBounds(b, x, y) && !IsMine(b[nx][ny]) && IsMine(b[x][y])
    ensures var r := Recount(With(With(b, nx, ny, b[nx][ny].(content := MINE)), x, y, b[x][y].(content := EMPTY)));
      Accounts(r, totalMines, w, h, mines, flags, unrevealed) && SameShape(b, r) && !IsMine(r[x][y]) &&
      forall i, j {:trigger r[i][j]} | InBounds(b, i, j) :: r[i][j].revealed == b[i][j].revealed && r[i][j].flagged == b[i][j].flagged
  {
    var b2 := With(With(b, nx, ny, b[nx][ny].(content := MINE)), x, y, b[x][y].(content := EMPTY));
    MoveCounts(b, nx, ny, x, y);
    RecountKeepsLayout(b2);
    RecountConsistent(b2);
    var r := Recount(b2);
    CountSame(b, r, IsFlagged, IsFlagged);
    CountSame(b, r, IsUnrevealed, IsUnrevealed);
  }

  /** A moved mine leaves no mine at (x, y), and the shape and every flag and revealed bit as they were. */
  lemma MineMovedKeeps(b: Board, b': Board, x: int, y: int)
    requires InBounds(b, x, y) && IsMine(b[x][y]) && MineMoved(b, b', x, y)
    ensures SameShape(b, b') && !IsMine(b'[x][y])
    ensures NothingRevealed(b) ==> NothingRevealed(b')
    ensures forall i, j {:trigger b'[i][j]} | InBounds(b, i, j) ::
      b'[i][j].revealed == b[i][j].revealed && b'[i][j].flagged == b[i][j].flagged
  {
    var nx, ny :| InBounds(b, nx, ny) && !IsMine(b[nx][ny]) &&
      b' == Recount(With(With(b, nx, ny, b[nx][ny].(content := MINE)), x, y, b[x][y].(content := EMPTY)));
    var b2 := With(With(b, nx, ny, b[nx][ny].(content := MINE)), x, y, b[x][y].(content := EMPTY));
    MoveCounts(b, nx, ny, x, y);
    RecountKeepsLayout(b2);
  }

  /** Moving a mine onto a non-mine tile keeps the number of mines. */
  lemma MoveCounts(b: Board, nx: int, ny: int, x: int, y: int)
    requires InBounds(b, nx, ny) && InBounds(b, x, y) && !IsMine(b[nx][ny]) && IsMine(b[x][y])
    ensures var b2 := With(With(b, nx, ny, b[nx][ny].(content := MINE)), x, y, b[x][y].(content := EMPTY));
      MineCount(b2) == MineCount(b) && SameShape(b, b2) &&
      forall i, j {:trigger b2[i][j]} | InBounds(b, i, j) :: b2[i][j].revealed == b[i][j].revealed && b2[i][j].flagged == b[i][j].flagged
  {
    var b1 := With(b, nx, ny, b[nx][ny].(content := MINE));
    CountUpdate(b, nx, ny, b[nx][ny].(content := MINE), IsMine);
    CountUpdate(b1, x, y, b[x][y].(content := EMPTY), IsMine);
  }

  /** A reveal never reveals a mine. */
  lemma RevealKeepsNoMineRevealed(b: Board, b': Board, x: int, y: int)
    requires InBounds(b, x, y) && RevealedAt(b, b', x, y)
    ensures NoMineRevealed(b) ==> NoMineRevealed(b')
  {
    var t := b[x][y];
    if !t.revealed && !IsMine(t) {
      if t.content != EMPTY {
        OpenedGrows(b, x, y);
      }
      GrowsKeeps(b, b');
    } else if !t.revealed {
      RevealFrame(b, b', {});
    }
  }

  /** A reveal of an unflagged tile only opens non-mine tiles. */
  lemma UnflaggedRevealGrows(b: Board, b': Board, x: int, y: int)
    requires InBounds(b, x, y) && !b[x][y].flagged && RevealedAt(b, b', x, y)
    ensures Grows(b, b')
  {
    if !b[x][y].revealed && !IsMine(b[x][y]) && b[x][y].content != EMPTY {
      OpenedGrows(b, x, y);
    }
  }

  /** The neighbours of (x, y) before (i, j) in loop order are flagged, revealed or mines. */
  ghost predicate ChordPassed(b: Board, x: int, y: int, i: int, j: int)
  {
    forall a, c | x - 1 <= a <= x + 1 && y - 1 <= c <= y + 1 && (a < i || (a == i && c < j)) && InBounds(b, a, c) && (a, c) != (x, y) ::
      b[a][c].flagged || b[a][c].revealed || IsMine(b[a][c])
  }

  /**
   * The win state a chord around (x, y) on b, started in state w, has reached
   * before position (i, j) in loop order: lost once an unflagged mine was met.
   */
  function ChordOutcome(b: Board, x: int, y: int, i: int, j: int, w: int): int
  {
    if w == LOST || BoxHits(b, IsLiveMine, x, y, i) + ColumnHits(b, IsLiveMine, x, y, i, j) > 0 then LOST else w
  }

  /** The end of one column of the chord is the start of the next. */
  lemma ChordOutcomeNext(b: Board, x: int, y: int, i: int, w: int)
    requires x - 1 <= i
    ensures ChordOutcome(b, x, y, i, y + 2, w) == ChordOutcome(b, x, y, i + 1, y - 1, w)
  {
  }

  /**
   * One in-bounds neighbour (i, j) of a chord on the board that started as b0:
   * it is revealed unless flagged, and the game is lost once a revealed
   * neighbour was an unflagged mine.
   */
  lemma ChordTile(b0: Board, b: Board, b': Board, x: int, y: int, i: int, j: int, w0: int, w: int, w': int)
    requires Grows(b0, b) && ChordPassed(b, x, y, i, j) && InBounds(b, i, j) && (i, j) != (x, y) && y - 1 <= j
    requires w == ChordOutcome(b0, x, y, i, j, w0)
    requires if b[i][j].flagged then b' == b && w' == w else RevealedAt(b, b', i, j) && w' == RevealOutcome(b, i, j, w)
    ensures Grows(b0, b') && ChordPassed(b', x, y, i, j + 1)
    ensures w' == ChordOutcome(b0, x, y, i, j + 1, w0)
    ensures NoMineRevealed(b) ==> NoMineRevealed(b')
  {
    assert InBounds(b0, i, j) && IsLiveMine(b[i][j]) == IsLiveMine(b0[i][j]);
    assert Hit(b0, IsLiveMine, x, y, i, j) == if IsLiveMine(b[i][j]) then 1 else 0;
    if !b[i][j].flagged {
      UnflaggedRevealGrows(b, b', i, j);
      GrowsTransitive(b0, b, b');
      RevealKeepsNoMineRevealed(b, b', i, j);
    }
    ChordStep(b0, b, b', x, y, i, j);
  }

  /** A chord passes over a position outside the board and over its centre without effect. */
  lemma ChordSkip(b0: Board, b: Board, x: int, y: int, i: int, j: int, w0: int, w: int)
    requires SameShape(b0, b) && ChordPassed(b, x, y, i, j) && (!InBounds(b, i, j) || (i, j) == (x, y)) && y - 1 <= j
    requires w == ChordOutcome(b0, x, y, i, j, w0)
    ensures ChordPassed(b, x, y, i, j + 1)
    ensures w == ChordOutcome(b0, x, y, i, j + 1, w0)
  {
  }

  lemma ChordStep(b0: Board, b: Board, b': Board, x: int, y: int, i: int, j: int)
    requires ChordPassed(b, x, y, i, j) && Grows(b, b')
    requires InBounds(b', i, j) && (i, j) != (x, y) ==> b'[i][j].flagged || b'[i][j].revealed || IsMine(b'[i][j])
    ensures ChordPassed(b', x, y, i, j + 1)
  {
  }

  lemma ChordPassedNext(b: Board, x: int, y: int, i: int)
    requires ChordPassed(b, x, y, i, y + 2)
    ensures ChordPassed(b, x, y, i + 1, y - 1)
  {
  }

  lemma ChordPassedAll(b: Board, x: int, y: int)
    requires ChordPassed(b, x, y, x + 2, y - 1)
    ensures ChordDone(b, x, y)
  {
  }

  /** The tiles of the box around (x, y) before (i, j) in loop order are revealed. */
  ghost predicate BoxRevealed(b: Board, x: int, y: int, i: int, j: int)
  {
    forall a, c | x - 1 <= a <= x + 1 && y - 1 <= c <= y + 1 && (a < i || (a == i && c < j)) && InBounds(b, a, c) ::
      b[a][c].revealed
  }

  lemma BoxRevealedNext(b: Board, x: int, y: int, i: int, j: int)
    requires BoxRevealed(b, x, y, i, j)
    requires InBounds(b, i, j) ==> b[i][j].revealed
    ensures BoxRevealed(b, x, y, i, j + 1)
  {
  }

  lemma BoxRevealedGrows(b: Board, b': Board, x: int, y: int, i: int, j: int)
    requires BoxRevealed(b, x, y, i, j) && Grows(b, b')
    ensures BoxRevealed(b', x, y, i, j)
  {
  }

  lemma BoxRevealedColumn(b: Board, x: int, y: int, i: int)
    requires BoxRevealed(b, x, y, i, y + 2)
    ensures BoxRevealed(b, x, y, i + 1, y - 1)
  {
  }

  lemma BoxRevealedAll(b: Board, x: int, y: int, pending: set<(int, int)>)
    requires BoxRevealed(b, x, y, x + 2, y - 1)
    ensures NeighboursRevealed(b, x, y)
    ensures ClosedExcept(b, pending + {(x, y)}) ==> ClosedExcept(b, pending)
  {
  }
}
