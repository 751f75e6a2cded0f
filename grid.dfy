/**
 * The abstract value of a minesweeper grid: a board of tile states indexed
 * [x][y] with (0, 0) at the top left, the same orientation as the engine's
 * two-dimensional array of tiles. The heap-based engine keeps such a board
 * as the ghost picture of its grid; everything stated about counts,
 * adjacency, flood fill and winning is stated here, on values.
 */
module Grid {
  import opened Constants

  /** What one tile holds: its content (MINE, EMPTY or a count), and its flagged and revealed bits. */
  datatype Tile = Tile(content: int, flagged: bool, revealed: bool)

  /** A board; column b[x] holds the tiles (x, 0), (x, 1), ... */
  type Board = seq<seq<Tile>>

  predicate IsMine(t: Tile) { t.content == MINE }
  predicate IsFlagged(t: Tile) { t.flagged }
  predicate IsUnrevealed(t: Tile) { !t.revealed }

  /** The bounds test the engine's loops perform before touching a tile: column first, then that column's length. */
  predicate InBounds(b: Board, i: int, j: int) { 0 <= i < |b| && 0 <= j < |b[i]| }

  /** b is a w-by-h board. */
  predicate IsGrid(b: Board, w: int, h: int) { |b| == w && forall i | 0 <= i < |b| :: |b[i]| == h }

  /** Two boards of the same shape. */
  predicate SameShape(b: Board, b': Board) { |b| == |b'| && forall i | 0 <= i < |b| :: |b[i]| == |b'[i]| }

  /** The board with tile (i, j) replaced by t. */
  function With(b: Board, i: int, j: int, t: Tile): (r: Board)
    requires InBounds(b, i, j)
    ensures SameShape(b, r)
    ensures forall a, c {:trigger r[a][c]} | InBounds(b, a, c) :: r[a][c] == if a == i && c == j then t else b[a][c]
  {
    b[i := b[i][j := t]]
  }

  /** Replacing a tile by itself changes nothing. */
  lemma WithSame(b: Board, i: int, j: int)
    requires InBounds(b, i, j)
    ensures With(b, i, j, b[i][j]) == b
  {
    assert b[i][j := b[i][j]] == b[i];
  }

  /** A second replacement of the same tile overrides the first. */
  lemma WithTwice(b: Board, i: int, j: int, t: Tile, t': Tile)
    requires InBounds(b, i, j)
    ensures With(With(b, i, j, t), i, j, t') == With(b, i, j, t')
  {
    assert With(b, i, j, t)[i][j := t'] == b[i][j := t'];
  }

  // ---------------------------------------------------------------------
  // Counting the tiles around one tile
  // ---------------------------------------------------------------------

  /** 1 when (i, j) is an in-bounds tile other than the centre (x, y) and satisfies p, else 0. */
  function Hit(b: Board, p: Tile -> bool, x: int, y: int, i: int, j: int): nat
  {
    if InBounds(b, i, j) && !(i == x && j == y) && p(b[i][j]) then 1 else 0
  }

  /** The hits in column i of the 3x3 box around (x, y), at rows y-1 up to j-1. */
  function ColumnHits(b: Board, p: Tile -> bool, x: int, y: int, i: int, j: int): nat
    decreases j - (y - 1)
  {
    if j <= y - 1 then 0 else ColumnHits(b, p, x, y, i, j - 1) + Hit(b, p, x, y, i, j - 1)
  }

  /** The hits in columns x-1 up to i-1 of the 3x3 box around (x, y). */
  function BoxHits(b: Board, p: Tile -> bool, x: int, y: int, i: int): nat
    decreases i - (x - 1)
  {
    if i <= x - 1 then 0 else BoxHits(b, p, x, y, i - 1) + ColumnHits(b, p, x, y, i - 1, y + 2)
  }

  /** The number of in-bounds neighbours of (x, y) (the centre excluded) that satisfy p. */
  function Neighbours(b: Board, p: Tile -> bool, x: int, y: int): nat
  {
    BoxHits(b, p, x, y, x + 2)
  }

  /** The number printed on a non-mine tile: its adjacent mines. */
  function AdjacentMines(b: Board, x: int, y: int): nat
  {
    Neighbours(b, IsMine, x, y)
  }

  /** The number of flagged neighbours, which a chord compares with the tile's count. */
  function AdjacentFlags(b: Board, x: int, y: int): nat
  {
    Neighbours(b, IsFlagged, x, y)
  }

  /** One column of the box is the sum of its three tiles. */
  lemma {:induction false} ColumnOfThree(b: Board, p: Tile -> bool, x: int, y: int, i: int)
    ensures ColumnHits(b, p, x, y, i, y + 2)
         == Hit(b, p, x, y, i, y - 1) + Hit(b, p, x, y, i, y) + Hit(b, p, x, y, i, y + 1)
  {
    assert ColumnHits(b, p, x, y, i, y - 1) == 0;
    assert ColumnHits(b, p, x, y, i, y) == Hit(b, p, x, y, i, y - 1);
    assert ColumnHits(b, p, x, y, i, y + 1) == ColumnHits(b, p, x, y, i, y) + Hit(b, p, x, y, i, y);
  }

  /** The neighbour count is the sum of the three columns of the box. */
  lemma {:induction false} BoxOfThree(b: Board, p: Tile -> bool, x: int, y: int)
    ensures Neighbours(b, p, x, y)
         == ColumnHits(b, p, x, y, x - 1, y + 2) + ColumnHits(b, p, x, y, x, y + 2) + ColumnHits(b, p, x, y, x + 1, y + 2)
  {
    assert BoxHits(b, p, x, y, x - 1) == 0;
    assert BoxHits(b, p, x, y, x) == ColumnHits(b, p, x, y, x - 1, y + 2);
    assert BoxHits(b, p, x, y, x + 1) == BoxHits(b, p, x, y, x) + ColumnHits(b, p, x, y, x, y + 2);
  }

  /** A tile has at most eight neighbours: every neighbour count lies in 0..8. */
  lemma {:induction false} NeighboursAtMostEight(b: Board, p: Tile -> bool, x: int, y: int)
    ensures Neighbours(b, p, x, y) <= 8
  {
    BoxOfThree(b, p, x, y);
    ColumnOfThree(b, p, x, y, x - 1);
    ColumnOfThree(b, p, x, y, x);
    ColumnOfThree(b, p, x, y, x + 1);
    assert Hit(b, p, x, y, x, y) == 0;
  }

  /** Two boards of one shape that agree on p at every tile have the same neighbour counts for p. */
  lemma {:induction false} NeighboursFrame(b: Board, b': Board, p: Tile -> bool, x: int, y: int)
    requires SameShape(b, b')
    requires forall i, j | InBounds(b, i, j) :: p(b[i][j]) == p(b'[i][j])
    ensures Neighbours(b, p, x, y) == Neighbours(b', p, x, y)
  {
    BoxOfThree(b, p, x, y);
    BoxOfThree(b', p, x, y);
    ColumnOfThree(b, p, x, y, x - 1);
    ColumnOfThree(b', p, x, y, x - 1);
    ColumnOfThree(b, p, x, y, x);
    ColumnOfThree(b', p, x, y, x);
    ColumnOfThree(b, p, x, y, x + 1);
    ColumnOfThree(b', p, x, y, x + 1);
  }

  /** No neighbour satisfies p exactly when the count is zero. */
  lemma {:induction false} NeighboursZero(b: Board, p: Tile -> bool, x: int, y: int)
    ensures Neighbours(b, p, x, y) == 0 <==>
      forall i, j | x - 1 <= i <= x + 1 && y - 1 <= j <= y + 1 :: Hit(b, p, x, y, i, j) == 0
  {
    BoxOfThree(b, p, x, y);
    ColumnOfThree(b, p, x, y, x - 1);
    ColumnOfThree(b, p, x, y, x);
    ColumnOfThree(b, p, x, y, x + 1);
    if Neighbours(b, p, x, y) == 0 {
      forall i, j | x - 1 <= i <= x + 1 && y - 1 <= j <= y + 1 ensures Hit(b, p, x, y, i, j) == 0 {
        assert i == x - 1 || i == x || i == x + 1;
        assert j == y - 1 || j == y || j == y + 1;
      }
    }
  }

  /** A tile with no adjacent mines has only non-mine neighbours. */
  lemma NoAdjacentMines(b: Board, x: int, y: int, i: int, j: int)
    requires AdjacentMines(b, x, y) == 0
    requires x - 1 <= i <= x + 1 && y - 1 <= j <= y + 1 && InBounds(b, i, j) && (i, j) != (x, y)
    ensures !IsMine(b[i][j])
  {
    NeighboursZero(b, IsMine, x, y);
    assert Hit(b, IsMine, x, y, i, j) == 0;
  }

  // ---------------------------------------------------------------------
  // Counting tiles over the whole board
  // ---------------------------------------------------------------------

  /** The number of tiles of one column that satisfy p. */
  function CountColumn(col: seq<Tile>, p: Tile -> bool): nat
  {
    if col == [] then 0 else CountColumn(col[..|col| - 1], p) + (if p(col[|col| - 1]) then 1 else 0)
  }

  /** The number of tiles of the board that satisfy p. */
  function Count(b: Board, p: Tile -> bool): nat
  {
    if b == [] then 0 else Count(b[..|b| - 1], p) + CountColumn(b[|b| - 1], p)
  }

  function MineCount(b: Board): nat { Count(b, IsMine) }
  function FlagCount(b: Board): nat { Count(b, IsFlagged) }
  function UnrevealedCount(b: Board): nat { Count(b, IsUnrevealed) }

  /** Replacing one tile of a column changes its count by the difference the tile makes. */
  lemma {:induction false} CountColumnUpdate(col: seq<Tile>, j: nat, t: Tile, p: Tile -> bool)
    requires j < |col|
    ensures CountColumn(col[j := t], p)
         == CountColumn(col, p) - (if p(col[j]) then 1 else 0) + (if p(t) then 1 else 0)
  {
    var n := |col| - 1;
    if j < n {
      assert col[j := t][..n] == col[..n][j := t];
      CountColumnUpdate(col[..n], j, t, p);
    } else {
      assert col[j := t][..n] == col[..n];
    }
  }

  /** Replacing one tile of the board changes its count by the difference the tile makes. */
  lemma {:induction false} CountUpdate(b: Board, i: int, j: int, t: Tile, p: Tile -> bool)
    requires InBounds(b, i, j)
    ensures Count(With(b, i, j, t), p) == Count(b, p) - (if p(b[i][j]) then 1 else 0) + (if p(t) then 1 else 0)
  {
    var n := |b| - 1;
    var r := With(b, i, j, t);
    if i < n {
      assert r[..n] == With(b[..n], i, j, t);
      CountUpdate(b[..n], i, j, t, p);
    } else {
      assert r[..n] == b[..n];
      CountColumnUpdate(b[n], j, t, p);
    }
  }

  /** Each counter changes by what the replaced tile contributes. */
  lemma CountsAfterWith(b: Board, i: int, j: int, t: Tile)
    requires InBounds(b, i, j)
    ensures MineCount(With(b, i, j, t)) == MineCount(b) - (if IsMine(b[i][j]) then 1 else 0) + (if IsMine(t) then 1 else 0)
    ensures FlagCount(With(b, i, j, t)) == FlagCount(b) - (if b[i][j].flagged then 1 else 0) + (if t.flagged then 1 else 0)
    ensures UnrevealedCount(With(b, i, j, t)) == UnrevealedCount(b) - (if b[i][j].revealed then 0 else 1) + (if t.revealed then 0 else 1)
  {
    CountUpdate(b, i, j, t, IsMine);
    CountUpdate(b, i, j, t, IsFlagged);
    CountUpdate(b, i, j, t, IsUnrevealed);
  }

  /** A board on which no tile satisfies p counts none. */
  lemma {:induction false} CountNone(b: Board, p: Tile -> bool)
    requires forall i, j | InBounds(b, i, j) :: !p(b[i][j])
    ensures Count(b, p) == 0
  {
    if b != [] {
      var n := |b| - 1;
      assert forall i, j | InBounds(b[..n], i, j) :: b[..n][i][j] == b[i][j];
      CountNone(b[..n], p);
      CountColumnNone(b[n], p);
    }
  }

  lemma {:induction false} CountColumnNone(col: seq<Tile>, p: Tile -> bool)
    requires forall j | 0 <= j < |col| :: !p(col[j])
    ensures CountColumn(col, p) == 0
  {
    if col != [] {
      CountColumnNone(col[..|col| - 1], p);
    }
  }

  /** Counting columns of equal length that agree tile by tile on p and q. */
  lemma {:induction false} CountColumnSame(col: seq<Tile>, col': seq<Tile>, p: Tile -> bool, q: Tile -> bool)
    requires |col| == |col'|
    requires forall j | 0 <= j < |col| :: p(col[j]) == q(col'[j])
    ensures CountColumn(col, p) == CountColumn(col', q)
  {
    if col != [] {
      CountColumnSame(col[..|col| - 1], col'[..|col| - 1], p, q);
    }
  }

  /** Boards of one shape whose tiles agree on p and q have equal counts. */
  lemma {:induction false} CountSame(b: Board, b': Board, p: Tile -> bool, q: Tile -> bool)
    requires SameShape(b, b')
    requires forall i, j | InBounds(b, i, j) :: p(b[i][j]) == q(b'[i][j])
    ensures Count(b, p) == Count(b', q)
  {
    if b != [] {
      var n := |b| - 1;
      CountSame(b[..n], b'[..n], p, q);
      CountColumnSame(b[n], b'[n], p, q);
    }
  }

  /** Within one column, a tile satisfying q but not p makes p's count strictly smaller when p implies q. */
  lemma {:induction false} CountColumnMono(col: seq<Tile>, p: Tile -> bool, q: Tile -> bool)
    requires forall j | 0 <= j < |col| :: p(col[j]) ==> q(col[j])
    ensures CountColumn(col, p) <= CountColumn(col, q)
    ensures (exists j :: 0 <= j < |col| && q(col[j]) && !p(col[j])) ==> CountColumn(col, p) < CountColumn(col, q)
  {
    if col != [] {
      var n := |col| - 1;
      CountColumnMono(col[..n], p, q);
      if exists j :: 0 <= j < |col| && q(col[j]) && !p(col[j]) {
        var j :| 0 <= j < |col| && q(col[j]) && !p(col[j]);
        if j < n {
          assert col[..n][j] == col[j];
        }
      }
    }
  }

  /** When p implies q tile by tile, p counts at most as many tiles, and strictly fewer if some tile has q but not p. */
  lemma {:induction false} CountMono(b: Board, p: Tile -> bool, q: Tile -> bool)
    requires forall i, j | InBounds(b, i, j) :: p(b[i][j]) ==> q(b[i][j])
    ensures Count(b, p) <= Count(b, q)
    ensures (exists i, j :: InBounds(b, i, j) && q(b[i][j]) && !p(b[i][j])) ==> Count(b, p) < Count(b, q)
  {
    if b != [] {
      var n := |b| - 1;
      assert forall i, j | InBounds(b[..n], i, j) :: b[..n][i][j] == b[i][j];
      CountMono(b[..n], p, q);
      CountColumnMono(b[n], p, q);
      if exists i, j :: InBounds(b, i, j) && q(b[i][j]) && !p(b[i][j]) {
        var i, j :| InBounds(b, i, j) && q(b[i][j]) && !p(b[i][j]);
        if i < n {
          assert InBounds(b[..n], i, j) && b[..n][i][j] == b[i][j];
        } else {
          assert q(b[n][j]) && !p(b[n][j]);
        }
      }
    }
  }

  /** A w-by-h board in which every tile satisfies p has w * h such tiles. */
  lemma {:induction false} CountAll(b: Board, w: nat, h: nat, p: Tile -> bool)
    requires IsGrid(b, w, h)
    requires forall i, j | InBounds(b, i, j) :: p(b[i][j])
    ensures Count(b, p) == w * h
  {
    if b != [] {
      var n := |b| - 1;
      CountAll(b[..n], n, h, p);
      CountColumnAll(b[n], p);
      assert n * h + h == w * h;
    }
  }

  lemma {:induction false} CountColumnAll(col: seq<Tile>, p: Tile -> bool)
    requires forall j | 0 <= j < |col| :: p(col[j])
    ensures CountColumn(col, p) == |col|
  {
    if col != [] {
      CountColumnAll(col[..|col| - 1], p);
    }
  }

  /** When fewer than w * h tiles are mines, some tile is not a mine: the search for a new mine position ends. */
  lemma NonMineExists(b: Board, w: nat, h: nat)
    requires IsGrid(b, w, h)
    requires MineCount(b) < w * h
    ensures exists i, j :: InBounds(b, i, j) && !IsMine(b[i][j])
  {
    if forall i, j | InBounds(b, i, j) :: IsMine(b[i][j]) {
      CountAll(b, w, h, IsMine);
    }
  }

  // ---------------------------------------------------------------------
  // The adjacency pass
  // ---------------------------------------------------------------------

  /** Tile (i, j) after the adjacency pass: a mine stays, any other tile takes its adjacent-mine count. */
  function Recounted(b: Board, i: int, j: int): Tile
    requires InBounds(b, i, j)
  {
    if IsMine(b[i][j]) then b[i][j] else b[i][j].(content := AdjacentMines(b, i, j))
  }

  /** The board after a full adjacency pass over it. */
  function Recount(b: Board): (r: Board)
    ensures SameShape(b, r)
    ensures forall i, j | InBounds(b, i, j) :: r[i][j] == Recounted(b, i, j)
  {
    seq(|b|, i requires 0 <= i < |b| => seq(|b[i]|, j requires 0 <= j < |b[i]| => Recounted(b, i, j)))
  }

  /** Every non-mine tile shows its adjacent-mine count. */
  ghost predicate Consistent(b: Board)
  {
    forall i, j {:trigger AdjacentMines(b, i, j)} | InBounds(b, i, j) && !IsMine(b[i][j]) :: b[i][j].content == AdjacentMines(b, i, j)
  }

  /** Boards of one shape with mines at the same tiles. */
  ghost predicate SameMines(b: Board, b': Board)
  {
    SameShape(b, b') && forall i, j {:trigger b'[i][j]} | InBounds(b, i, j) :: IsMine(b[i][j]) == IsMine(b'[i][j])
  }

  /** Adjacency depends only on where the mines are. */
  lemma AdjacentMinesFrame(b: Board, b': Board, x: int, y: int)
    requires SameMines(b, b')
    ensures AdjacentMines(b, x, y) == AdjacentMines(b', x, y)
  {
    NeighboursFrame(b, b', IsMine, x, y);
  }

  /** The pass leaves every mine where it was, never makes a mine and keeps every flag and revealed bit. */
  lemma RecountKeepsLayout(b: Board)
    ensures SameMines(b, Recount(b))
    ensures MineCount(Recount(b)) == MineCount(b)
    ensures forall i, j {:trigger Recount(b)[i][j]} | InBounds(b, i, j) ::
      Recount(b)[i][j].flagged == b[i][j].flagged && Recount(b)[i][j].revealed == b[i][j].revealed
  {
    var r := Recount(b);
    forall i, j | InBounds(b, i, j) ensures IsMine(b[i][j]) == IsMine(r[i][j]) {
      NeighboursAtMostEight(b, IsMine, i, j);
    }
    CountSame(b, r, IsMine, IsMine);
  }

  /** After the pass every non-mine tile shows its adjacent-mine count, which lies in 0..8. */
  lemma RecountConsistent(b: Board)
    ensures Consistent(Recount(b))
    ensures forall i, j | InBounds(b, i, j) && !IsMine(Recount(b)[i][j]) :: 0 <= Recount(b)[i][j].content <= 8
  {
    var r := Recount(b);
    RecountKeepsLayout(b);
    forall i, j | InBounds(r, i, j) && !IsMine(r[i][j])
      ensures r[i][j].content == AdjacentMines(r, i, j) && 0 <= r[i][j].content <= 8
    {
      AdjacentMinesFrame(b, r, i, j);
      NeighboursAtMostEight(b, IsMine, i, j);
    }
  }

  /** A board is consistent exactly when the adjacency pass leaves it unchanged. */
  lemma ConsistentIsFixpoint(b: Board)
    ensures Consistent(b) <==> Recount(b) == b
  {
    if Consistent(b) {
      var r := Recount(b);
      assert |r| == |b|;
      forall i | 0 <= i < |b| ensures r[i] == b[i] {
        assert |r[i]| == |b[i]|;
        forall j | 0 <= j < |b[i]| ensures r[i][j] == b[i][j] {
          assert InBounds(b, i, j);
        }
      }
    }
    if Recount(b) == b {
      RecountConsistent(b);
    }
  }

  /** Running the adjacency pass twice gives the same board as running it once. */
  lemma RecountIdempotent(b: Board)
    ensures Recount(Recount(b)) == Recount(b)
  {
    RecountConsistent(b);
    ConsistentIsFixpoint(Recount(b));
  }

  // ---------------------------------------------------------------------
  // Flood fill and winning
  // ---------------------------------------------------------------------

  /** Every in-bounds tile of the 3x3 box around (x, y) is revealed. */
  ghost predicate NeighboursRevealed(b: Board, x: int, y: int)
  {
    forall i, j | x - 1 <= i <= x + 1 && y - 1 <= j <= y + 1 && InBounds(b, i, j) :: b[i][j].revealed
  }

  /** Every revealed empty tile outside pending has all its neighbours revealed. */
  ghost predicate ClosedExcept(b: Board, pending: set<(int, int)>)
  {
    forall x, y | InBounds(b, x, y) && b[x][y].revealed && b[x][y].content == EMPTY && (x, y) !in pending ::
      NeighboursRevealed(b, x, y)
  }

  /** The flood-fill invariant: no revealed empty tile borders an unrevealed one. */
  ghost predicate Closed(b: Board) { ClosedExcept(b, {}) }

  /** A board with nothing revealed has no revealed mine and no open flood fill. */
  lemma NothingRevealedIsSound(b: Board)
    requires NothingRevealed(b)
    ensures NoMineRevealed(b) && Closed(b)
  {
  }

  /** A tile after a reveal that found no mine: unflagged and revealed. */
  function Opened(t: Tile): Tile { t.(flagged := false, revealed := true) }

  /** b' comes from b by opening non-mine tiles only; contents never change. */
  ghost predicate Grows(b: Board, b': Board)
  {
    SameShape(b, b') &&
    forall i, j {:trigger b'[i][j]} | InBounds(b, i, j) :: b'[i][j] == b[i][j] || (!IsMine(b[i][j]) && b'[i][j] == Opened(b[i][j]))
  }

  /** Opening one non-mine tile is a growth of the board. */
  lemma OpenedGrows(b: Board, x: int, y: int)
    requires InBounds(b, x, y) && !IsMine(b[x][y])
    ensures Grows(b, With(b, x, y, Opened(b[x][y])))
  {
  }

  /** Opening tiles is transitive. */
  lemma GrowsTransitive(b: Board, b': Board, b'': Board)
    requires Grows(b, b') && Grows(b', b'')
    ensures Grows(b, b'')
  {
    forall i, j | InBounds(b, i, j)
      ensures b''[i][j] == b[i][j] || (!IsMine(b[i][j]) && b''[i][j] == Opened(b[i][j]))
    {
      assert InBounds(b', i, j);
    }
  }

  /** Opening tiles keeps every content, so every mine, count and consistency, and keeps revealed tiles revealed. */
  lemma GrowsKeeps(b: Board, b': Board)
    requires Grows(b, b')
    ensures SameMines(b, b') && MineCount(b') == MineCount(b)
    ensures Consistent(b) ==> Consistent(b')
    ensures NoMineRevealed(b) ==> NoMineRevealed(b')
    ensures NoFlagRevealed(b) ==> NoFlagRevealed(b')
    ensures forall i, j {:trigger b'[i][j]} | InBounds(b, i, j) :: b'[i][j].content == b[i][j].content
    ensures forall i, j {:trigger b'[i][j]} | InBounds(b, i, j) && b[i][j].revealed :: b'[i][j].revealed
  {
    ContentsFrame(b, b');
  }

  /** Boards of one shape with the same contents have the same mines and the same consistency. */
  lemma ContentsFrame(b: Board, b': Board)
    requires SameShape(b, b')
    requires forall i, j | InBounds(b, i, j) :: b'[i][j].content == b[i][j].content
    ensures SameMines(b, b') && MineCount(b') == MineCount(b)
    ensures Consistent(b) <==> Consistent(b')
  {
    CountSame(b, b', IsMine, IsMine);
    forall i, j | InBounds(b, i, j) ensures AdjacentMines(b, i, j) == AdjacentMines(b', i, j) {
      AdjacentMinesFrame(b, b', i, j);
    }
  }

  /** Changing only flags keeps the flood-fill invariant and what is revealed. */
  lemma RevealFrame(b: Board, b': Board, pending: set<(int, int)>)
    requires SameShape(b, b')
    requires forall i, j | InBounds(b, i, j) :: b'[i][j].revealed == b[i][j].revealed && b'[i][j].content == b[i][j].content
    ensures ClosedExcept(b, pending) ==> ClosedExcept(b', pending)
    ensures NoMineRevealed(b) ==> NoMineRevealed(b')
    ensures NothingRevealed(b) ==> NothingRevealed(b')
  {
    if ClosedExcept(b, pending) {
      forall x, y | InBounds(b', x, y) && b'[x][y].revealed && b'[x][y].content == EMPTY && (x, y) !in pending
        ensures NeighboursRevealed(b', x, y)
      {
        assert NeighboursRevealed(b, x, y);
      }
    }
  }

  ghost predicate NoFlagRevealed(b: Board)
  {
    forall i, j | InBounds(b, i, j) :: !(b[i][j].flagged && b[i][j].revealed)
  }

  ghost predicate NoMineRevealed(b: Board)
  {
    forall i, j | InBounds(b, i, j) && IsMine(b[i][j]) :: !b[i][j].revealed
  }

  ghost predicate NothingRevealed(b: Board)
  {
    forall i, j | InBounds(b, i, j) :: !b[i][j].revealed
  }

  /** The end of a won game: every non-mine revealed and every mine flagged. */
  ghost predicate Cleared(b: Board)
  {
    forall i, j | InBounds(b, i, j) :: if IsMine(b[i][j]) then b[i][j].flagged else b[i][j].revealed
  }

  /**
   * The win test "unrevealed == flags" is exact: with no flag on a revealed
   * tile, no mine revealed and at most as many flags as mines, the number of
   * unrevealed tiles equals the number of flags exactly when every non-mine
   * is revealed and every mine is flagged.
   */
  lemma WinCondition(b: Board)
    requires NoFlagRevealed(b) && NoMineRevealed(b)
    requires FlagCount(b) <= MineCount(b)
    ensures UnrevealedCount(b) == FlagCount(b) <==> Cleared(b)
  {
    CountMono(b, IsFlagged, IsUnrevealed);
    CountMono(b, IsMine, IsUnrevealed);
    if Cleared(b) {
      CountSame(b, b, IsFlagged, IsUnrevealed);
    }
  }
}
