/**
 * The `Board` interface: what every game board answers, and the promises its documentation
 * makes about those answers. `GameState.advance` is a function from a board and a move to the
 * next board, with the promise that it refuses exactly the moves that are not available.
 */
module Boards {
  import opened Wrappers
  import opened JavaInts
  import opened Pieces
  import opened ScotlandYard
  import opened Moves
  import opened LogEntries
  import opened Graphs

  /** `GameSetup`: the board graph and Mr X's reveal schedule (`true` for a reveal round). */
  datatype GameSetup = GameSetup(graph: Graph, moves: seq<bool>)

  /** `TicketBoard.getCount`. */
  type TicketBoard = Ticket -> int32

  /** The answers of a board's accessors; those taking an argument are functions. */
  datatype Board = Board(
    setup: GameSetup,
    players: set<Piece>,
    detectiveLocation: Detective -> Option<int32>,
    playerTickets: Piece -> Option<TicketBoard>,
    mrXTravelLog: seq<LogEntry>,
    winner: set<Piece>,
    availableMoves: set<Move>)

  /** No ticket board of the board reports a negative count. */
  ghost predicate CountsNonNegative(b: Board) {
    forall p, t :: b.playerTickets(p).Some? ==> b.playerTickets(p).value(t) >= 0
  }

  /**
   * The documented promises of `Board`: counts are never negative; there is a winner exactly
   * when no move is available; a detective has a location and a piece has a ticket board
   * exactly when it is part of the game.
   */
  ghost predicate BoardContract(b: Board) {
    && CountsNonNegative(b)
    && (b.winner != {} <==> b.availableMoves == {})
    && (forall d :: b.detectiveLocation(d).None? <==> DetectivePiece(d) !in b.players)
    && (forall p :: b.playerTickets(p).None? <==> p !in b.players)
  }

  /** The `IllegalArgumentException` of `advance`. */
  datatype MoveError = IllegalMove

  /** `GameState.advance`: the state after the move, from the state before it. */
  type Advance = (Board, Move) -> Result<Board, MoveError>

  /**
   * The documented promise of `advance`: from a board keeping its contract, a move is refused
   * exactly when it is not available, and the next board keeps the contract.
   */
  ghost predicate AdvanceContract(advance: Advance) {
    forall b, m :: BoardContract(b) ==>
      && (advance(b, m).Failure? <==> m !in b.availableMoves)
      && (advance(b, m).Success? ==> BoardContract(advance(b, m).value))
  }

  /** `getPlayerTickets(p)` followed by `getCount(t)`: absent for a non-player, else at least 0. */
  function TicketCount(b: Board, p: Piece, t: Ticket): (n: Option<int32>)
    requires BoardContract(b)
    ensures n.None? <==> p !in b.players
    ensures n.Some? ==> n.value >= 0
  {
    match b.playerTickets(p)
    case None => None
    case Some(board) => Some(board(t))
  }

  /** `getDetectiveLocation(d)`: present exactly for the detectives in the game. */
  function DetectiveLocation(b: Board, d: Detective): (l: Option<int32>)
    requires BoardContract(b)
    ensures l.Some? <==> DetectivePiece(d) in b.players
  {
    b.detectiveLocation(d)
  }

  /** The game is over when it has a winner; then, and only then, no move is available. */
  function IsOver(b: Board): (over: bool)
    requires BoardContract(b)
    ensures over <==> b.availableMoves == {}
  {
    b.winner != {}
  }

  /** `advance(m)` on a board keeping its contract: refused exactly for unavailable moves. */
  function AdvanceBy(advance: Advance, b: Board, m: Move): (r: Result<Board, MoveError>)
    requires AdvanceContract(advance) && BoardContract(b)
    ensures r.Failure? <==> m !in b.availableMoves
    ensures r.Success? ==> BoardContract(r.value)
  {
    advance(b, m)
  }
}
