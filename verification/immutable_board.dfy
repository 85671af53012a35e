/**
 * `ImmutableBoard`: a board held as plain maps, sets and lists, and the snapshot that copies
 * any board into that form.
 */
module ImmutableBoards {
  import opened Wrappers
  import opened JavaInts
  import opened Pieces
  import opened ScotlandYard
  import opened Moves
  import opened LogEntries
  import opened Boards

  /** The six fields filled by either constructor. */
  datatype ImmutableBoard = ImmutableBoard(
    setup: GameSetup,
    detectiveLocations: map<Detective, int32>,
    tickets: map<Piece, map<Ticket, int32>>,
    mrXTravelLog: seq<LogEntry>,
    winner: set<Piece>,
    availableMoves: set<Move>)

  /** The `NoSuchElementException` of `orElseThrow` in the copy constructor. */
  datatype SnapshotError = MissingAnswer

  /** The ticket board over a count map: a ticket without an entry counts 0. */
  function CountsBoard(counts: map<Ticket, int32>): (tb: TicketBoard)
    ensures forall t :: t in counts ==> tb(t) == counts[t]
    ensures forall t :: t !in counts ==> tb(t) == 0
  {
    t => if t in counts then counts[t] else 0
  }

  /** `getPlayers()`: the pieces holding a ticket map. */
  function GetPlayers(ib: ImmutableBoard): (players: set<Piece>)
    ensures forall p :: p in players <==> GetPlayerTickets(ib, p).Some?
  {
    ib.tickets.Keys
  }

  /** `getDetectiveLocation(d)`: empty when the detective has no entry. */
  function GetDetectiveLocation(ib: ImmutableBoard, d: Detective): (l: Option<int32>)
    ensures l.None? <==> d !in ib.detectiveLocations
    ensures l.Some? ==> l.value == ib.detectiveLocations[d]
  {
    if d in ib.detectiveLocations then Some(ib.detectiveLocations[d]) else None
  }

  /** `getPlayerTickets(p)`: empty when the piece has no ticket map. */
  function GetPlayerTickets(ib: ImmutableBoard, p: Piece): (r: Option<TicketBoard>)
    ensures r.None? <==> p !in ib.tickets
    ensures r.Some? ==> r.value == CountsBoard(ib.tickets[p])
  {
    if p in ib.tickets then Some(CountsBoard(ib.tickets[p])) else None
  }

  /**
   * The snapshot seen through the `Board` interface: a player's tickets are present exactly
   * when it has a ticket map, and a ticket missing from that map counts 0.
   */
  function AsBoard(ib: ImmutableBoard): (b: Board)
    ensures b.players == ib.tickets.Keys
    ensures forall d :: b.detectiveLocation(d).None? <==> d !in ib.detectiveLocations
    ensures forall p :: b.playerTickets(p).None? <==> p !in b.players
    ensures forall p, t :: p in ib.tickets && t in ib.tickets[p] ==> b.playerTickets(p).value(t) == ib.tickets[p][t]
    ensures forall p, t :: p in ib.tickets && t !in ib.tickets[p] ==> b.playerTickets(p).value(t) == 0
    ensures b.setup == ib.setup && b.mrXTravelLog == ib.mrXTravelLog
    ensures b.winner == ib.winner && b.availableMoves == ib.availableMoves
  {
    Board(ib.setup, GetPlayers(ib), d => GetDetectiveLocation(ib, d), p => GetPlayerTickets(ib, p),
          ib.mrXTravelLog, ib.winner, ib.availableMoves)
  }

  /** The counts of every ticket kind, as the copy constructor reads them off a ticket board. */
  function AllCounts(tb: TicketBoard): (counts: map<Ticket, int32>)
    ensures counts.Keys == AllTickets
    ensures forall t :: t in counts && counts[t] == tb(t)
  {
    AllTicketsComplete();
    map t | t in AllTickets :: tb(t)
  }

  /** Some player of `b` lacks an answer the copy constructor asks for. */
  predicate LacksAnswer(b: Board) {
    exists p :: p in b.players &&
      (b.playerTickets(p).None? || (p.DetectivePiece? && b.detectiveLocation(p.detective).None?))
  }

  /** The detective locations the copy constructor collects: one per detective in the game. */
  function SnapshotLocations(b: Board): (locations: map<Detective, int32>)
    requires !LacksAnswer(b)
    ensures forall d :: d in locations <==> DetectivePiece(d) in b.players
    ensures forall d :: d in locations ==> Some(locations[d]) == b.detectiveLocation(d)
  {
    AllDetectivesComplete();
    map d | d in AllDetectives && DetectivePiece(d) in b.players :: b.detectiveLocation(d).value
  }

  /** The ticket maps the copy constructor collects: every ticket kind for every player. */
  function SnapshotTickets(b: Board): (tickets: map<Piece, map<Ticket, int32>>)
    requires !LacksAnswer(b)
    ensures tickets.Keys == b.players
    ensures forall p :: p in tickets ==>
              tickets[p].Keys == AllTickets &&
              forall t :: t in tickets[p] && tickets[p][t] == b.playerTickets(p).value(t)
  {
    map p | p in b.players :: AllCounts(b.playerTickets(p).value)
  }

  /**
   * The copy constructor `new ImmutableBoard(b)`: it fails when a detective in the game has no
   * location or a player has no ticket board; otherwise it records a location for each
   * detective in the game (and for no other piece) and a count of every ticket kind for each
   * player.
   */
  function Snapshot(b: Board): (r: Result<ImmutableBoard, SnapshotError>)
    ensures r.Failure? <==> LacksAnswer(b)
    ensures r.Success? ==> r.value.tickets.Keys == b.players
    ensures r.Success? ==> forall p :: p in r.value.tickets ==>
              r.value.tickets[p].Keys == AllTickets &&
              forall t :: t in r.value.tickets[p] && r.value.tickets[p][t] == b.playerTickets(p).value(t)
    ensures r.Success? ==> forall d :: d in r.value.detectiveLocations <==> DetectivePiece(d) in b.players
    ensures r.Success? ==> forall d :: d in r.value.detectiveLocations ==>
              Some(r.value.detectiveLocations[d]) == b.detectiveLocation(d)
    ensures r.Success? ==> r.value.setup == b.setup && r.value.mrXTravelLog == b.mrXTravelLog
    ensures r.Success? ==> r.value.winner == b.winner && r.value.availableMoves == b.availableMoves
  {
    if LacksAnswer(b) then Failure(MissingAnswer)
    else
      Success(ImmutableBoard(b.setup, SnapshotLocations(b), SnapshotTickets(b),
                             b.mrXTravelLog, b.winner, b.availableMoves))
  }

  /** `equals`: the six fields compared one by one. */
  function Equals(a: ImmutableBoard, b: ImmutableBoard): (r: bool)
    ensures r <==> a == b
  {
    && a.setup == b.setup
    && a.detectiveLocations == b.detectiveLocations
    && a.tickets == b.tickets
    && a.mrXTravelLog == b.mrXTravelLog
    && a.winner == b.winner
    && a.availableMoves == b.availableMoves
  }

  /**
   * The field constructor's arguments describe a board that keeps the `Board` promises:
   * counts are not negative, there is a winner exactly when no move is available, and the
   * located detectives are exactly the detectives holding tickets.
   */
  ghost predicate Consistent(ib: ImmutableBoard) {
    && (forall p, t :: p in ib.tickets && t in ib.tickets[p] ==> ib.tickets[p][t] >= 0)
    && (ib.winner != {} <==> ib.availableMoves == {})
    && (forall d :: d in ib.detectiveLocations <==> DetectivePiece(d) in ib.tickets)
  }

  /** A snapshot keeps the `Board` promises exactly when its fields are consistent. */
  lemma AsBoardContract(ib: ImmutableBoard)
    ensures BoardContract(AsBoard(ib)) <==> Consistent(ib)
  {
    var b := AsBoard(ib);
    if BoardContract(b) {
      forall p, t | p in ib.tickets && t in ib.tickets[p]
        ensures ib.tickets[p][t] >= 0
      {
        assert b.playerTickets(p).Some?;
        assert b.playerTickets(p).value(t) == ib.tickets[p][t];
      }
    }
    if Consistent(ib) {
      forall p, t | b.playerTickets(p).Some?
        ensures b.playerTickets(p).value(t) >= 0
      {
        assert p in ib.tickets;
      }
    }
  }

  /** Snapshotting a board that keeps its promises succeeds, and the snapshot keeps them too. */
  lemma SnapshotOfContractBoard(b: Board)
    requires BoardContract(b)
    ensures Snapshot(b).Success?
    ensures Consistent(Snapshot(b).value)
    ensures BoardContract(AsBoard(Snapshot(b).value))
  {
    if LacksAnswer(b) {
      assert false;
    }
    var ib := Snapshot(b).value;
    forall p, t | p in ib.tickets && t in ib.tickets[p]
      ensures ib.tickets[p][t] >= 0
    {
      assert b.playerTickets(p).Some?;
    }
    AsBoardContract(ib);
  }

  /** Seen through the `Board` interface, a snapshot answers what the board it copies answers. */
  lemma SnapshotAnswersAsOriginal(b: Board)
    requires BoardContract(b)
    ensures Snapshot(b).Success?
    ensures AsBoard(Snapshot(b).value).players == b.players
    ensures forall d :: AsBoard(Snapshot(b).value).detectiveLocation(d) == b.detectiveLocation(d)
    ensures forall p, t :: b.playerTickets(p).Some? ==>
              AsBoard(Snapshot(b).value).playerTickets(p).value(t) == b.playerTickets(p).value(t)
  {
    SnapshotOfContractBoard(b);
    var ib := Snapshot(b).value;
    var sb := AsBoard(ib);
    forall d
      ensures sb.detectiveLocation(d) == b.detectiveLocation(d)
    {
      if DetectivePiece(d) in b.players {
        assert d in ib.detectiveLocations;
      }
    }
  }

  /** The located detectives of a snapshot are the detectives holding tickets. */
  ghost predicate LocatesEveryDetective(ib: ImmutableBoard) {
    forall d :: d in ib.detectiveLocations <==> DetectivePiece(d) in ib.tickets
  }

  /** Every ticket map of a snapshot names every ticket kind. */
  ghost predicate CountsEveryTicket(ib: ImmutableBoard) {
    forall p :: p in ib.tickets ==> ib.tickets[p].Keys == AllTickets
  }

  /** A snapshot seen as a board answers everything the copy constructor asks. */
  lemma AsBoardAnswers(ib: ImmutableBoard)
    requires LocatesEveryDetective(ib)
    ensures !LacksAnswer(AsBoard(ib))
  {
    var b := AsBoard(ib);
    forall p | p in b.players
      ensures b.playerTickets(p).Some?
      ensures p.DetectivePiece? ==> b.detectiveLocation(p.detective).Some?
    {
    }
  }

  /** Copying the locations of a snapshot gives them back. */
  lemma SnapshotLocationsOfAsBoard(ib: ImmutableBoard)
    requires LocatesEveryDetective(ib)
    ensures !LacksAnswer(AsBoard(ib))
    ensures SnapshotLocations(AsBoard(ib)) == ib.detectiveLocations
  {
    AsBoardAnswers(ib);
    var b := AsBoard(ib);
    var locations := SnapshotLocations(b);
    forall d | d in locations
      ensures d in ib.detectiveLocations && locations[d] == ib.detectiveLocations[d]
    {
      assert Some(locations[d]) == b.detectiveLocation(d);
    }
  }

  /** Copying the ticket maps of a snapshot gives them back. */
  lemma SnapshotTicketsOfAsBoard(ib: ImmutableBoard)
    requires LocatesEveryDetective(ib) && CountsEveryTicket(ib)
    ensures !LacksAnswer(AsBoard(ib))
    ensures SnapshotTickets(AsBoard(ib)) == ib.tickets
  {
    AsBoardAnswers(ib);
    var b := AsBoard(ib);
    var tickets := SnapshotTickets(b);
    forall p | p in tickets
      ensures tickets[p] == ib.tickets[p]
    {
      assert b.playerTickets(p) == Some(CountsBoard(ib.tickets[p]));
      AllCountsOfCountsBoard(ib.tickets[p]);
    }
  }

  /** Collecting every count of a complete count map gives the map back. */
  lemma AllCountsOfCountsBoard(counts: map<Ticket, int32>)
    requires counts.Keys == AllTickets
    ensures AllCounts(CountsBoard(counts)) == counts
  {
    var collected := AllCounts(CountsBoard(counts));
    forall t | t in counts
      ensures collected[t] == counts[t]
    {
    }
  }

  /**
   * The copy constructor gives back a snapshot whose located detectives are the detectives
   * holding tickets and whose ticket maps name every ticket kind, field for field.
   */
  lemma SnapshotOfSnapshot(ib: ImmutableBoard)
    requires LocatesEveryDetective(ib) && CountsEveryTicket(ib)
    ensures Snapshot(AsBoard(ib)) == Success(ib)
  {
    SnapshotLocationsOfAsBoard(ib);
    SnapshotTicketsOfAsBoard(ib);
  }

  /** Snapshotting is idempotent: `new ImmutableBoard(new ImmutableBoard(b))` equals the first copy. */
  lemma SnapshotIdempotent(b: Board)
    requires Snapshot(b).Success?
    ensures Snapshot(AsBoard(Snapshot(b).value)) == Snapshot(b)
    ensures Equals(Snapshot(AsBoard(Snapshot(b).value)).value, Snapshot(b).value)
  {
    SnapshotOfSnapshot(Snapshot(b).value);
  }
}
