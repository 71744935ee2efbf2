/**
 * GameState: a snapshot of the board with the player to move and the opponent.  The Java
 * constructor deep-copies the board cell by cell; with an immutable grid the copy is the grid
 * itself, so a later change to the caller's board can never reach the snapshot.
 */
module GameStates {
  import opened Board
  import opened Moves
  import opened Game

  datatype GameState = GameState(board: Grid, current: Player, opponent: Player)

  /** The moves of the player to move (currentPlayer.getAvailableMoves(board)). */
  function CurrentMoves(s: GameState): map<Coord, seq<Coord>>
  {
    AvailableMoves(s.board, s.current.color)
  }

  /** GameState.swapPlayers: the same board with the roles exchanged. */
  function SwapPlayers(s: GameState): (r: GameState)
    ensures r.board == s.board
    ensures r.current == s.opponent && r.opponent == s.current
  {
    GameState(s.board, s.opponent, s.current)
  }

  /**
   * GameState.applyMove as written: the move is looked up among the current player's
   * destinations by coordinates; an unknown move gives back the same state, a legal one the
   * role-swapped state.  No disc is placed or flipped.
   */
  function ApplyMove(s: GameState, move: Coord): (r: GameState)
    ensures r.board == s.board
    ensures move !in CurrentMoves(s) ==> r == s
    ensures move in CurrentMoves(s) ==> r.current == s.opponent && r.opponent == s.current
  {
    if move in CurrentMoves(s) then SwapPlayers(s) else s
  }

  /** GameState.isGameOver: neither the player to move nor the opponent has a move. */
  predicate IsGameOver(s: GameState)
  {
    CurrentMoves(s) == map[] && CurrentMoves(SwapPlayers(s)) == map[]
  }

  /** Swapping twice restores the roles. */
  lemma SwapInvolution(s: GameState)
    ensures SwapPlayers(SwapPlayers(s)) == s
  {
  }

  /** Whether the game is over does not depend on whose turn it is. */
  lemma GameOverSwapInvariant(s: GameState)
    ensures IsGameOver(SwapPlayers(s)) <==> IsGameOver(s)
  {
  }

  /** The game is over exactly when neither colour has a destination on the board. */
  lemma GameOverIffNoMoves(s: GameState)
    ensures IsGameOver(s) <==>
      (forall c :: !IsDestination(s.board, c, s.current.color)) &&
      (forall c :: !IsDestination(s.board, c, s.opponent.color))
  {
    if !IsGameOver(s) {
      if CurrentMoves(s) != map[] {
        var c :| c in CurrentMoves(s);
        assert IsDestination(s.board, c, s.current.color);
      } else {
        var c :| c in CurrentMoves(SwapPlayers(s));
        assert IsDestination(s.board, c, s.opponent.color);
      }
    }
  }

  /** A board with no empty cell is game-over whoever is to move. */
  lemma FullBoardIsGameOver(s: GameState)
    requires forall i, j :: InBounds(i, j) ==> Cell(s.board, i, j) != Empty
    ensures IsGameOver(s)
  {
    FullBoardHasNoMoves(s.board, s.current.color);
    FullBoardHasNoMoves(s.board, s.opponent.color);
  }

  /** A sequence of applyMove calls, left to right. */
  function ApplyMoves(s: GameState, moves: seq<Coord>): GameState
    decreases |moves|
  {
    if moves == [] then s else ApplyMoves(ApplyMove(s, moves[0]), moves[1..])
  }

  /** However many moves are applied, the stub never changes the board. */
  lemma {:induction false} ApplyMovesKeepBoard(s: GameState, moves: seq<Coord>)
    ensures ApplyMoves(s, moves).board == s.board
    decreases |moves|
  {
    if moves != [] {
      ApplyMovesKeepBoard(ApplyMove(s, moves[0]), moves[1..]);
    }
  }

  /** Applying two legal moves in a row restores the original state. */
  lemma TwoLegalMovesRestore(s: GameState, m1: Coord, m2: Coord)
    requires m1 in CurrentMoves(s) && m2 in CurrentMoves(ApplyMove(s, m1))
    ensures ApplyMove(ApplyMove(s, m1), m2) == s
  {
  }
}
