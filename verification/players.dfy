/** A connected user (internal/game/player.go): a board, the in-game flag and
    the connection the server talks to it through. */
module Players {
  import opened GridRefs
  import opened Boards

  /** The player's connection, as an opaque handle; the socket behind it is
      not part of this model. */
  datatype Connection = Connection(id: nat)

  class Player {
    const board: Board
    var inGame: bool
    const connection: Connection

    /** The board always has its 100 tiles. */
    predicate Valid()
    {
      board.Valid()
    }

    /** `NewPlayer`: a fresh empty board, not in a game, on the given connection. */
    constructor (conn: Connection)
      ensures Valid() && fresh(board) && fresh(board.tiles)
      ensures forall j :: 0 <= j < BoardSize ==> board.tiles[j] == EmptyTile
      ensures !inGame && connection == conn
    {
      board := new Board();
      inGame := false;
      connection := conn;
    }

    /** `SetInGameStatus`: the flag takes the given value whatever it was, so
        setting the same value twice is the same as setting it once; board
        and connection are fixed. */
    method SetInGameStatus(status: bool)
      modifies this
      ensures inGame == status
    {
      inGame := status;
    }
  }
}
