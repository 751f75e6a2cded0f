/**
 * One tile of the game as an object: its fixed coordinates and its mutable
 * content, flagged and revealed state. The field generator creates, shuffles
 * and mines these objects; State() is the tile's value on the board.
 */
module Coordinate {
  import opened Constants
  import opened Grid

  class MineCoordinate {
    /** Coordinates from the left and from the top; a const field has no setter. */
    const x: int
    const y: int
    /** MINE, EMPTY or the number of adjacent mines. */
    var content: int
    var flagged: bool
    var revealed: bool

    /** A new tile is empty, not flagged and not revealed. */
    constructor (x: int, y: int)
      ensures this.x == x && this.y == y
      ensures content == EMPTY && !flagged && !revealed
    {
      this.x := x;
      this.y := y;
      content := EMPTY;
      flagged := false;
      revealed := false;
    }

    /** The tile's state as a value. */
    function State(): Tile
      reads this
    {
      Tile(content, flagged, revealed)
    }

    method SetContent(content: int)
      modifies this
      ensures this.content == content
      ensures flagged == old(flagged) && revealed == old(revealed)
    {
      this.content := content;
    }

    method SetFlagged(flagged: bool)
      modifies this
      ensures this.flagged == flagged
      ensures content == old(content) && revealed == old(revealed)
    {
      this.flagged := flagged;
    }

    method SetRevealed(revealed: bool)
      modifies this
      ensures this.revealed == revealed
      ensures content == old(content) && flagged == old(flagged)
    {
      this.revealed := revealed;
    }

    predicate IsMine()
      reads this
    {
      content == MINE
    }

    predicate IsEmpty()
      reads this
    {
      content == EMPTY
    }
  }

  /** The mine test and the empty test agree with the tile's state, and never hold together. */
  lemma MineOrEmpty(c: MineCoordinate)
    ensures c.IsMine() <==> Grid.IsMine(c.State())
    ensures c.IsEmpty() <==> c.State().content == EMPTY
    ensures !(c.IsMine() && c.IsEmpty())
  {
  }
}
