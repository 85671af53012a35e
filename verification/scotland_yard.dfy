/** Game constants of Scotland Yard: tickets, transports, pieces, reveal rounds, default tickets. */
module ScotlandYard {
  import opened Wrappers
  import opened JavaInts
  import opened Pieces

  /** Ticket kinds, in declaration order. */
  datatype Ticket = Taxi | Bus | Underground | Double | Secret

  /** Transport kinds labelling the routes of the map. */
  datatype Transport = TaxiRoute | BusRoute | UndergroundRoute | Ferry

  /** `Ticket.values()`. */
  const AllTickets: set<Ticket> := {Taxi, Bus, Underground, Double, Secret}

  lemma AllTicketsComplete()
    ensures forall t: Ticket :: t in AllTickets
  {
    forall t: Ticket
      ensures t in AllTickets
    {
      match t
      case Taxi =>
      case Bus =>
      case Underground =>
      case Double =>
      case Secret =>
    }
  }

  /** The ticket needed to travel by a transport; a ferry takes a secret ticket. */
  function RequiredTicket(t: Transport): (k: Ticket)
    ensures k != Double
    ensures k == Secret <==> t == Ferry
  {
    match t
    case TaxiRoute => Taxi
    case BusRoute => Bus
    case UndergroundRoute => Underground
    case Ferry => Secret
  }

  /** No two transports need the same ticket. */
  lemma RequiredTicketInjective(a: Transport, b: Transport)
    ensures RequiredTicket(a) == RequiredTicket(b) ==> a == b
  {
  }

  /** The constant name of a transport, as `name()` gives it. */
  function TransportName(t: Transport): (name: string)
    ensures name != [] && forall j :: 0 <= j < |name| ==> 'A' <= name[j] <= 'Z'
  {
    match t
    case TaxiRoute => "TAXI"
    case BusRoute => "BUS"
    case UndergroundRoute => "UNDERGROUND"
    case Ferry => "FERRY"
  }

  /** `Transport.valueOf`: the constant with exactly this name; `None` where Java throws. */
  function TransportValueOf(s: string): (r: Option<Transport>)
    ensures forall t :: r == Some(t) <==> TransportName(t) == s
  {
    if s == "TAXI" then Some(TaxiRoute)
    else if s == "BUS" then Some(BusRoute)
    else if s == "UNDERGROUND" then Some(UndergroundRoute)
    else if s == "FERRY" then Some(Ferry)
    else None
  }

  /** `DETECTIVES`: every detective piece. */
  const Detectives: set<Piece> :=
    {DetectivePiece(Red), DetectivePiece(Green), DetectivePiece(Blue),
     DetectivePiece(White), DetectivePiece(Yellow)}

  /** `ALL_PIECES`: Mr X first, then the detectives in declaration order. */
  const AllPieces: seq<Piece> :=
    [MrX, DetectivePiece(Red), DetectivePiece(Green), DetectivePiece(Blue),
     DetectivePiece(White), DetectivePiece(Yellow)]

  /** `ALL_PIECES` lists every piece exactly once; `DETECTIVES` is exactly the detective pieces. */
  lemma PieceListsComplete(p: Piece)
    ensures p in AllPieces
    ensures p in Detectives <==> IsDetective(p)
    ensures |AllPieces| == 6
    ensures forall i, j :: 0 <= i < j < |AllPieces| ==> AllPieces[i] != AllPieces[j]
  {
    match p
    case MrX =>
    case DetectivePiece(Red) => assert AllPieces[1] == p;
    case DetectivePiece(Green) => assert AllPieces[2] == p;
    case DetectivePiece(Blue) => assert AllPieces[3] == p;
    case DetectivePiece(White) => assert AllPieces[4] == p;
    case DetectivePiece(Yellow) => assert AllPieces[5] == p;
  }

  /** `REVEAL_MOVES`: the rounds, counted from 1, in which Mr X shows himself. */
  const RevealMoves: set<int> := {3, 8, 13, 18, 24}

  /** `STANDARD24MOVES`: for rounds 1 to 24, whether the round reveals Mr X. */
  function Standard24Moves(): (s: seq<bool>)
    ensures |s| == 24
  {
    seq(24, i => i + 1 in RevealMoves)
  }

  /** The schedule is true exactly at rounds 3, 8, 13, 18 and 24, and has five reveals. */
  lemma Standard24MovesReveals()
    ensures (set i | 0 <= i < 24 && Standard24Moves()[i] :: i + 1) == RevealMoves
    ensures Standard24Moves()[23]
    ensures forall i :: 0 <= i < 2 ==> !Standard24Moves()[i]
  {
    var s := Standard24Moves();
    var found := set i | 0 <= i < 24 && s[i] :: i + 1;
    forall r | r in RevealMoves ensures r in found {
      assert s[r - 1];
    }
  }

  /** `DETECTIVE_TICKETS`. */
  const DetectiveTickets: set<Ticket> := {Taxi, Bus, Underground}

  /** `MRX_TICKETS`: every ticket kind. */
  const MrXTickets: set<Ticket> := AllTickets

  /** `defaultMrXTickets()`. */
  function DefaultMrXTickets(): (m: map<Ticket, int32>)
    ensures m.Keys == AllTickets
    ensures forall t :: t in m ==> m[t] > 0
  {
    map[Taxi := 4, Bus := 3, Underground := 3, Double := 2, Secret := 5]
  }

  /** `defaultDetectiveTickets()`: no secret and no double tickets, but both keys present. */
  function DefaultDetectiveTickets(): (m: map<Ticket, int32>)
    ensures m.Keys == AllTickets
    ensures m[Secret] == 0 && m[Double] == 0
    ensures forall t :: t in DetectiveTickets ==> m[t] > 0
  {
    map[Taxi := 11, Bus := 8, Underground := 4, Secret := 0, Double := 0]
  }

  /** The detective list that the varargs `Factory.build(setup, mrX, first, rest...)` passes on. */
  function FactoryArguments<T>(first: T, rest: seq<T>): (r: seq<T>)
    ensures |r| == |rest| + 1 && r[0] == first && r[1..] == rest
  {
    [first] + rest
  }
}
