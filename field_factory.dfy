/**
 * The field generator: builds a width-by-height field, shuffles its tiles,
 * makes the first mineCount shuffled tiles mines and runs the adjacency pass.
 */
module FieldFactory {
  import opened Constants
  import opened Grid
  import opened Coordinate

  /** b is the value of the field: same shape, and tile (i, j) of b is field[i, j]. */
  ghost predicate Depicts(field: array2<Tile>, b: Board)
    reads field
  {
    IsGrid(b, field.Length0, field.Length1) &&
    forall i, j | 0 <= i < field.Length0 && 0 <= j < field.Length1 :: b[i][j] == field[i, j]
  }

  /** The value of a field. */
  ghost function View(field: array2<Tile>): (b: Board)
    reads field
    ensures Depicts(field, b)
  {
    seq(field.Length0, i requires 0 <= i < field.Length0 reads field =>
      seq(field.Length1, j requires 0 <= j < field.Length1 reads field => field[i, j]))
  }

  /** Replaces the tile at (x, y) of a field by t. */
  method SetTile(field: array2<Tile>, x: int, y: int, t: Tile, ghost b: Board)
    requires Depicts(field, b) && 0 <= x < field.Length0 && 0 <= y < field.Length1
    modifies field
    ensures Depicts(field, With(b, x, y, t))
  {
    field[x, y] := t;
  }

  /**
   * Builds a new field. The random order of the shuffle is any order, so the
   * contract holds for every placement of the mines.
   */
  method CreateMineField(width: nat, height: nat, mineCount: nat) returns (mineField: array2<Tile>, ghost board: Board)
    requires mineCount <= width * height
    ensures fresh(mineField)
    ensures mineField.Length0 == width && mineField.Length1 == height
    ensures Depicts(mineField, board) && NewBoard(board, mineCount)
  {
    var mineList, columns := MinedTiles(width, height, mineCount);
    ghost var mined := MinesIn(Concat(columns));
    // move the tiles to the array: each goes to the position its own coordinates name
    mineField := new Tile[width, height];
    PlaceTiles(mineField, mineList, columns);
    ghost var placed := View(mineField);
    assert forall i, j | InBounds(placed, i, j) :: placed[i][j] == columns[i][j].State() && !placed[i][j].flagged && !placed[i][j].revealed;
    MinesInColumns(columns, placed);
    assert MinesIn(Concat(columns)) == mined;
    RecountNewBoard(placed, mineCount);
    SetAdjacentMines(mineField, placed);
    board := Recount(placed);
  }

  /**
   * The tiles of a new field before they are placed: created in the order of
   * the nested loops, shuffled, and the first mineCount shuffled tiles made
   * mines. columns[a][c] is the tile created for position (a, c).
   */
  method MinedTiles(width: nat, height: nat, mineCount: nat) returns (mineList: seq<MineCoordinate>, ghost columns: seq<seq<MineCoordinate>>)
    requires mineCount <= width * height
    ensures |columns| == width && forall a | 0 <= a < width :: |columns[a]| == height
    ensures forall a, c | 0 <= a < width && 0 <= c < height ::
      columns[a][c].x == a && columns[a][c].y == c && !columns[a][c].flagged && !columns[a][c].revealed
    ensures multiset(mineList) == multiset(Concat(columns))
    ensures MinesIn(Concat(columns)) == mineCount
  {
    var baseList;
    baseList, columns := NewTiles(width, height);
    mineList := ShuffleCoordinates(baseList);
    assert Distinct(mineList) by { DistinctPermutation(baseList, mineList); }
    assert forall k | 0 <= k < |mineList| :: mineList[k] in multiset(baseList);
    AddMines(mineList, mineCount);
    forall a, c | 0 <= a < width && 0 <= c < height
      ensures !columns[a][c].flagged && !columns[a][c].revealed
    {
      assert columns[a][c] in multiset(mineList);
      var k :| 0 <= k < |mineList| && mineList[k] == columns[a][c];
    }
    assert forall k | 0 <= k < |mineList| :: mineList[k].content == if k < mineCount then MINE else EMPTY;
    MinesInShuffled(mineList, mineCount);
    MinesInPermutation(baseList, mineList);
  }

  /** Moves each tile of the list to the position its own coordinates name. */
  method PlaceTiles(mineField: array2<Tile>, mineList: seq<MineCoordinate>, ghost columns: seq<seq<MineCoordinate>>)
    requires |columns| == mineField.Length0 && forall a | 0 <= a < |columns| :: |columns[a]| == mineField.Length1
    requires forall a, c | 0 <= a < mineField.Length0 && 0 <= c < mineField.Length1 :: columns[a][c].x == a && columns[a][c].y == c
    requires multiset(mineList) == multiset(Concat(columns))
    modifies mineField
    ensures forall a, c | 0 <= a < mineField.Length0 && 0 <= c < mineField.Length1 :: mineField[a, c] == columns[a][c].State()
  {
    for k := 0 to |mineList|
      invariant forall a, c | 0 <= a < mineField.Length0 && 0 <= c < mineField.Length1 && columns[a][c] in mineList[..k] ::
        mineField[a, c] == columns[a][c].State()
    {
      var mine := mineList[k];
      assert mine in multiset(Concat(columns));
      ConcatFrom(columns, mine);
      mineField[mine.x, mine.y] := mine.State();
      assert mineList[..k + 1] == mineList[..k] + [mine];
    }
    forall a, c | 0 <= a < mineField.Length0 && 0 <= c < mineField.Length1 ensures columns[a][c] in mineList {
      ConcatHas(columns, a, c);
      assert columns[a][c] in multiset(mineList);
    }
    assert mineList[..|mineList|] == mineList;
  }

  /**
   * Creates the tiles (i, j) in the order of the nested loops, as one list
   * and also column by column (the columns give each tile's position).
   */
  method NewTiles(width: nat, height: nat) returns (mineList: seq<MineCoordinate>, ghost columns: seq<seq<MineCoordinate>>)
    ensures |columns| == width && mineList == Concat(columns) && |mineList| == width * height
    ensures forall a | 0 <= a < width :: |columns[a]| == height
    ensures forall a, c | 0 <= a < width && 0 <= c < height ::
      columns[a][c].x == a && columns[a][c].y == c && columns[a][c] in mineList
    ensures Distinct(mineList)
    ensures forall k | 0 <= k < |mineList| :: fresh(mineList[k]) && mineList[k].State() == Tile(EMPTY, false, false)
  {
    mineList := [];
    columns := [];
    for i := 0 to width
      invariant |columns| == i && mineList == Concat(columns) && |mineList| == i * height
      invariant forall a | 0 <= a < i :: |columns[a]| == height
      invariant forall a, c | 0 <= a < i && 0 <= c < height ::
        columns[a][c].x == a && columns[a][c].y == c && columns[a][c] in mineList
      invariant Distinct(mineList)
      invariant forall k | 0 <= k < |mineList| :: fresh(mineList[k]) && mineList[k].State() == Tile(EMPTY, false, false)
    {
      var column := NewColumn(i, height);
      assert Concat(columns + [column]) == Concat(columns) + column by {
        assert (columns + [column])[..i] == columns;
      }
      assert forall c | 0 <= c < height :: column[c] in mineList + column;
      mineList := mineList + column;
      columns := columns + [column];
    }
  }

  /** Creates the tiles (i, 0), (i, 1), ..., (i, height - 1) of one column, in that order. */
  method NewColumn(i: int, height: nat) returns (column: seq<MineCoordinate>)
    ensures |column| == height && Distinct(column)
    ensures forall c | 0 <= c < height ::
      fresh(column[c]) && column[c].x == i && column[c].y == c && column[c].State() == Tile(EMPTY, false, false)
  {
    column := [];
    for j := 0 to height
      invariant |column| == j && Distinct(column)
      invariant forall c | 0 <= c < j ::
        fresh(column[c]) && column[c].x == i && column[c].y == c && column[c].State() == Tile(EMPTY, false, false)
    {
      var cell := new MineCoordinate(i, j);
      column := column + [cell];
    }
  }

  /**
   * Sets every non-mine tile's content to its number of adjacent mines; mine
   * tiles, flags and revealed bits stay as they were.
   */
  method SetAdjacentMines(mineField: array2<Tile>, ghost b: Board)
    requires Depicts(mineField, b)
    modifies mineField
    ensures Depicts(mineField, Recount(b))
  {
    for i := 0 to mineField.Length0
      invariant Depicts(mineField, Partial(b, i, 0))
    {
      for j := 0 to mineField.Length1
        invariant Depicts(mineField, Partial(b, i, j))
      {
        ghost var before := Partial(b, i, j);
        PartialStep(b, i, j);
        // a mine keeps its content; only counts are recomputed
        if IsMine(mineField[i, j]) {
          continue;
        }
        PartialKeepsMines(b, i, j);
        AdjacentMinesFrame(b, before, i, j);
        var mines := GetAdjacentMines(mineField, i, j, before);
        mineField[i, j] := mineField[i, j].(content := mines);
      }
      PartialRowEnd(b, i);
    }
    PartialEnd(b);
  }

  /** Counts the mines among the in-bounds tiles of the 3x3 box around (x, y), the centre excluded. */
  method GetAdjacentMines(mineField: array2<Tile>, x: int, y: int, ghost b: Board) returns (mines: int)
    requires Depicts(mineField, b)
    ensures mines == AdjacentMines(b, x, y)
  {
    mines := 0;
    for i := x - 1 to x + 2
      invariant mines == BoxHits(b, IsMine, x, y, i)
    {
      for j := y - 1 to y + 2
        invariant mines == BoxHits(b, IsMine, x, y, i) + ColumnHits(b, IsMine, x, y, i, j)
      {
        // positions off the field contribute nothing
        if i < 0 || i >= mineField.Length0 || j < 0 || j >= mineField.Length1 {
          continue;
        }
        // the centre is not its own neighbour
        if i == x && j == y {
          continue;
        }
        if IsMine(mineField[i, j]) {
          mines := mines + 1;
        }
      }
    }
  }

  /**
   * Removes a randomly chosen element from the remaining list and appends it
   * to the result, until none remain: the result is a permutation of the input.
   */
  method ShuffleCoordinates(baseList: seq<MineCoordinate>) returns (shuffledList: seq<MineCoordinate>)
    ensures |shuffledList| == |baseList|
    ensures multiset(shuffledList) == multiset(baseList)
  {
    shuffledList := [];
    var remaining := baseList;
    var size := |remaining|;
    for i := 0 to size
      invariant |remaining| == size - i
      invariant multiset(shuffledList) + multiset(remaining) == multiset(baseList)
    {
      var k :| 0 <= k < |remaining|;
      assert remaining == remaining[..k] + [remaining[k]] + remaining[k + 1..];
      shuffledList := shuffledList + [remaining[k]];
      remaining := remaining[..k] + remaining[k + 1..];
    }
  }

  /** Makes the first mines tiles of the list mines. */
  method AddMines(mineList: seq<MineCoordinate>, mines: nat)
    requires mines <= |mineList| && Distinct(mineList)
    modifies set k | 0 <= k < |mineList| :: mineList[k]
    ensures forall k | 0 <= k < |mineList| ::
      mineList[k].State() == if k < mines then old(mineList[k].State()).(content := MINE) else old(mineList[k].State())
  {
    for i := 0 to mines
      invariant forall k | 0 <= k < |mineList| ::
        mineList[k].State() == if k < i then old(mineList[k].State()).(content := MINE) else old(mineList[k].State())
    {
      mineList[i].SetContent(MINE);
    }
  }

  /** A board as a new game starts on it: mineCount mines, every count right, nothing flagged or revealed. */
  ghost predicate NewBoard(b: Board, mineCount: nat)
  {
    MineCount(b) == mineCount && Consistent(b) &&
    forall i, j | InBounds(b, i, j) :: !b[i][j].flagged && !b[i][j].revealed
  }

  /** The adjacency pass turns a board with mineCount mines and nothing flagged or revealed into a new game's board. */
  lemma RecountNewBoard(b: Board, mineCount: nat)
    requires MineCount(b) == mineCount
    requires forall i, j | InBounds(b, i, j) :: !b[i][j].flagged && !b[i][j].revealed
    ensures NewBoard(Recount(b), mineCount)
  {
    RecountKeepsLayout(b);
    RecountConsistent(b);
  }

  // ---------------------------------------------------------------------
  // Definitions and lemmas for the proofs above
  // ---------------------------------------------------------------------

  predicate Distinct<T(==)>(s: seq<T>)
  {
    forall k, l | 0 <= k < l < |s| :: s[k] != s[l]
  }

  function Concat<T>(columns: seq<seq<T>>): seq<T>
  {
    if columns == [] then [] else Concat(columns[..|columns| - 1]) + columns[|columns| - 1]
  }

  /** Every tile of every column is in the concatenation. */
  lemma {:induction false} ConcatHas<T>(columns: seq<seq<T>>, a: int, c: int)
    requires 0 <= a < |columns| && 0 <= c < |columns[a]|
    ensures columns[a][c] in Concat(columns)
  {
    var n := |columns| - 1;
    if a < n {
      ConcatHas(columns[..n], a, c);
    } else {
      assert Concat(columns)[|Concat(columns[..n])| + c] == columns[a][c];
    }
  }

  /** Every element of the concatenation comes from some column. */
  lemma {:induction false} ConcatFrom<T>(columns: seq<seq<T>>, e: T)
    requires e in Concat(columns)
    ensures exists a, c | 0 <= a < |columns| && 0 <= c < |columns[a]| :: columns[a][c] == e
  {
    var n := |columns| - 1;
    if e in Concat(columns[..n]) {
      ConcatFrom(columns[..n], e);
      var a, c :| 0 <= a < n && 0 <= c < |columns[..n][a]| && columns[..n][a][c] == e;
      assert columns[a][c] == e;
    } else {
      var c :| 0 <= c < |columns[n]| && columns[n][c] == e;
    }
  }

  /** The board part way through the adjacency pass: tiles before (i, j) in scan order are recounted. */
  function Partial(b: Board, i: int, j: int): (r: Board)
    ensures SameShape(b, r)
    ensures forall a, c | InBounds(b, a, c) ::
      r[a][c] == if a < i || (a == i && c < j) then Recounted(b, a, c) else b[a][c]
  {
    seq(|b|, a requires 0 <= a < |b| =>
      seq(|b[a]|, c requires 0 <= c < |b[a]| => if a < i || (a == i && c < j) then Recounted(b, a, c) else b[a][c]))
  }

  /** One step of the pass recounts tile (i, j) and nothing else. */
  lemma PartialStep(b: Board, i: int, j: int)
    requires InBounds(b, i, j)
    ensures Partial(b, i, j + 1) == With(Partial(b, i, j), i, j, Recounted(b, i, j))
  {
    var r := Partial(b, i, j + 1);
    var w := With(Partial(b, i, j), i, j, Recounted(b, i, j));
    assert |r| == |w|;
    forall a | 0 <= a < |r| ensures r[a] == w[a] {
      assert |r[a]| == |w[a]|;
    }
  }

  lemma PartialRowEnd(b: Board, i: int)
    requires 0 <= i < |b|
    ensures Partial(b, i, |b[i]|) == Partial(b, i + 1, 0)
  {
    var r := Partial(b, i, |b[i]|);
    var w := Partial(b, i + 1, 0);
    forall a | 0 <= a < |r| ensures r[a] == w[a] {
      assert |r[a]| == |w[a]|;
    }
  }

  lemma PartialEnd(b: Board)
    ensures Partial(b, |b|, 0) == Recount(b)
  {
    var r := Partial(b, |b|, 0);
    var w := Recount(b);
    forall a | 0 <= a < |r| ensures r[a] == w[a] {
      assert |r[a]| == |w[a]|;
    }
  }

  lemma {:induction false} PartialKeepsMines(b: Board, i: int, j: int)
    ensures SameMines(b, Partial(b, i, j))
  {
    RecountKeepsLayout(b);
  }

  /** An element that occurs twice in a list occurs at least twice in its multiset. */
  lemma {:induction false} DistinctIffSingle<T>(s: seq<T>)
    ensures Distinct(s) <==> forall z | z in multiset(s) :: multiset(s)[z] == 1
  {
    if s != [] {
      var n := |s| - 1;
      DistinctIffSingle(s[..n]);
      assert s == s[..n] + [s[n]];
      if Distinct(s) {
        assert s[n] !in s[..n];
      }
      if !Distinct(s) {
        var k, l :| 0 <= k < l < |s| && s[k] == s[l];
        if l < n {
          assert !Distinct(s[..n]) by { assert s[..n][k] == s[..n][l]; }
          var z :| z in multiset(s[..n]) && multiset(s[..n])[z] != 1;
          assert multiset(s)[z] >= multiset(s[..n])[z];
        } else {
          assert s[k] in s[..n];
          assert multiset(s)[s[n]] == multiset(s[..n])[s[n]] + 1;
        }
      }
    }
  }

  /** A permutation of a list without repetitions has no repetitions. */
  lemma {:induction false} DistinctPermutation<T>(s: seq<T>, t: seq<T>)
    requires Distinct(s) && multiset(s) == multiset(t)
    ensures Distinct(t)
  {
    DistinctIffSingle(s);
    DistinctIffSingle(t);
  }

  /** The number of mines among a list of tiles. */
  ghost function MinesIn(s: seq<MineCoordinate>): nat
    reads s
  {
    if s == [] then 0 else MinesIn(s[..|s| - 1]) + (if s[|s| - 1].IsMine() then 1 else 0)
  }

  lemma {:induction false} MinesInAppend(s: seq<MineCoordinate>, t: seq<MineCoordinate>)
    ensures MinesIn(s + t) == MinesIn(s) + MinesIn(t)
  {
    if t == [] {
      assert s + t == s;
    } else {
      var n := |t| - 1;
      assert (s + t)[..|s + t| - 1] == s + t[..n];
      MinesInAppend(s, t[..n]);
    }
  }

  /** Removing one tile from a list removes its contribution to the mine count. */
  lemma {:induction false} MinesInRemove(t: seq<MineCoordinate>, k: int)
    requires 0 <= k < |t|
    ensures MinesIn(t) == MinesIn(t[..k] + t[k + 1..]) + (if t[k].IsMine() then 1 else 0)
  {
    assert t == t[..k] + [t[k]] + t[k + 1..];
    MinesInAppend(t[..k] + [t[k]], t[k + 1..]);
    MinesInAppend(t[..k], [t[k]]);
    MinesInAppend(t[..k], t[k + 1..]);
    assert MinesIn([t[k]]) == (if t[k].IsMine() then 1 else 0) by {
      assert [t[k]][..0] == [];
    }
  }

  /** Reordering a list does not change how many of its tiles are mines. */
  lemma {:induction false} MinesInPermutation(s: seq<MineCoordinate>, t: seq<MineCoordinate>)
    requires multiset(s) == multiset(t)
    ensures MinesIn(s) == MinesIn(t)
  {
    if s != [] {
      var n := |s| - 1;
      var z := s[n];
      assert s == s[..n] + [z];
      assert z in multiset(t);
      var k :| 0 <= k < |t| && t[k] == z;
      var rest := t[..k] + t[k + 1..];
      assert t == t[..k] + [z] + t[k + 1..];
      assert multiset(s[..n]) == multiset(rest) by {
        assert multiset(s) == multiset(s[..n]) + multiset{z};
        assert multiset(t) == multiset(rest) + multiset{z};
        assert multiset(s[..n]) == multiset(s) - multiset{z};
        assert multiset(rest) == multiset(t) - multiset{z};
      }
      MinesInPermutation(s[..n], rest);
      MinesInRemove(t, k);
    }
  }

  /** A list whose first m tiles are mines and the rest empty holds m mines. */
  lemma {:induction false} MinesInShuffled(s: seq<MineCoordinate>, m: nat)
    requires m <= |s|
    requires forall k | 0 <= k < |s| :: s[k].content == if k < m then MINE else EMPTY
    ensures MinesIn(s) == m
  {
    if s != [] {
      var n := |s| - 1;
      if m == |s| {
        MinesInShuffled(s[..n], n);
      } else {
        MinesInShuffled(s[..n], m);
      }
    }
  }

  /** A column of tiles holds as many mines as its value does. */
  lemma {:induction false} MinesInColumn(s: seq<MineCoordinate>, col: seq<Tile>)
    requires |s| == |col| && forall c | 0 <= c < |s| :: col[c] == s[c].State()
    ensures MinesIn(s) == CountColumn(col, IsMine)
  {
    if s != [] {
      MinesInColumn(s[..|s| - 1], col[..|col| - 1]);
    }
  }

  /** The tiles of all columns hold as many mines as the board they make up. */
  lemma {:induction false} MinesInColumns(columns: seq<seq<MineCoordinate>>, b: Board)
    requires |columns| == |b|
    requires forall a | 0 <= a < |b| :: |columns[a]| == |b[a]|
    requires forall a, c | 0 <= a < |b| && 0 <= c < |b[a]| :: b[a][c] == columns[a][c].State()
    ensures MinesIn(Concat(columns)) == MineCount(b)
  {
    if b != [] {
      var n := |b| - 1;
      MinesInColumns(columns[..n], b[..n]);
      MinesInAppend(Concat(columns[..n]), columns[n]);
      MinesInColumn(columns[n], b[n]);
    }
  }
}
