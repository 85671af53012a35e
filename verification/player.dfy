/** An immutable player: its piece, its ticket counts and its location. */
module Players {
  import opened Wrappers
  import opened JavaInts
  import opened Pieces
  import opened ScotlandYard

  /** Value equality of this datatype is the Java `equals` (see `Equals`). */
  datatype Player = Player(piece: Piece, tickets: map<Ticket, int32>, location: int32)

  /** The `IllegalArgumentException("No <ticket> remaining")` of `use`. */
  datatype TicketError = NoTicketRemaining(ticket: Ticket)

  /** `tickets.getOrDefault(t, 0)`. */
  function Count(p: Player, t: Ticket): (c: int32)
    ensures t in p.tickets ==> c == p.tickets[t]
    ensures t !in p.tickets ==> c == 0
  {
    if t in p.tickets then p.tickets[t] else 0
  }

  /** `has(t)`: a count other than zero (a negative count also passes). */
  predicate Has(p: Player, t: Ticket)
    ensures Has(p, t) <==> t in p.tickets && p.tickets[t] != 0
  {
    Count(p, t) != 0
  }

  /** `hasAtLeast(t, n)`. */
  predicate HasAtLeast(p: Player, t: Ticket, n: int32)
    ensures t in p.tickets ==> (HasAtLeast(p, t, n) <==> p.tickets[t] >= n)
    ensures t !in p.tickets ==> (HasAtLeast(p, t, n) <==> n <= 0)
  {
    Count(p, t) >= n
  }

  /** No ticket count is negative; the Java constructor does not enforce this. */
  predicate NonNegative(p: Player) {
    forall t :: t in p.tickets ==> p.tickets[t] >= 0
  }

  /** On non-negative counts, having a ticket is having at least one of it. */
  lemma HasIsAtLeastOne(p: Player, t: Ticket)
    requires NonNegative(p)
    ensures Has(p, t) <==> HasAtLeast(p, t, 1)
  {
  }

  /** `give(t)`: one more `t` if `t` is a key of the map (`computeIfPresent`), else no change. */
  function Give(p: Player, t: Ticket): (r: Player)
    ensures r.piece == p.piece && r.location == p.location
    ensures r.tickets.Keys == p.tickets.Keys
    ensures t in p.tickets ==> Count(r, t) == Inc(Count(p, t))
    ensures t !in p.tickets ==> r == p
    ensures forall u :: u != t ==> Count(r, u) == Count(p, u)
  {
    if t in p.tickets then Player(p.piece, p.tickets[t := Inc(p.tickets[t])], p.location)
    else p
  }

  /** `use(t)`: one fewer `t`; fails when the count of `t` is zero or `t` is not a key. */
  function Use(p: Player, t: Ticket): (r: Result<Player, TicketError>)
    ensures r.Success? <==> Has(p, t)
    ensures r.Failure? ==> r.error == NoTicketRemaining(t)
    ensures r.Success? ==>
      && r.value.piece == p.piece && r.value.location == p.location
      && r.value.tickets.Keys == p.tickets.Keys
      && Count(r.value, t) == Dec(Count(p, t))
      && (forall u :: u != t ==> Count(r.value, u) == Count(p, u))
    ensures r.Success? && NonNegative(p) ==>
      NonNegative(r.value) && Count(r.value, t) as int == Count(p, t) as int - 1
  {
    if !Has(p, t) then Failure(NoTicketRemaining(t))
    else Success(Player(p.piece, p.tickets[t := Dec(p.tickets[t])], p.location))
  }

  /** `at(l)`: the same piece and tickets at another location. */
  function At(p: Player, l: int32): (r: Player)
    ensures r.piece == p.piece && r.tickets == p.tickets && r.location == l
    ensures l == p.location <==> r == p
  {
    Player(p.piece, p.tickets, l)
  }

  /** `equals`: location, piece and ticket map compared field by field. */
  function Equals(a: Player, b: Player): (r: bool)
    ensures r <==> a == b
  {
    a.location == b.location && a.piece == b.piece && a.tickets == b.tickets
  }

  /** `give(Iterable)` as a left fold of `Give`. */
  function GiveFold(p: Player, ts: seq<Ticket>): Player
    decreases |ts|
  {
    if ts == [] then p else GiveFold(Give(p, ts[0]), ts[1..])
  }

  /** `use(Iterable)` as a left fold of `Use` that stops at the first failure. */
  function UseFold(p: Player, ts: seq<Ticket>): Result<Player, TicketError>
    decreases |ts|
  {
    if ts == [] then Success(p)
    else match Use(p, ts[0])
      case Failure(e) => Failure(e)
      case Success(q) => UseFold(q, ts[1..])
  }

  /** `give(Iterable)`: the loop that gives each ticket in turn. */
  method GiveAll(p: Player, ts: seq<Ticket>) returns (r: Player)
    ensures r == GiveFold(p, ts)
  {
    var x := p;
    for i := 0 to |ts|
      invariant GiveFold(x, ts[i..]) == GiveFold(p, ts)
    {
      assert ts[i..][1..] == ts[i + 1..];
      x := Give(x, ts[i]);
    }
    assert ts[|ts|..] == [];
    r := x;
  }

  /** `use(Iterable)`: the loop that uses each ticket in turn and throws at the first it lacks. */
  method UseAll(p: Player, ts: seq<Ticket>) returns (r: Result<Player, TicketError>)
    ensures r == UseFold(p, ts)
  {
    var x := p;
    for i := 0 to |ts|
      invariant UseFold(x, ts[i..]) == UseFold(p, ts)
    {
      assert ts[i..][1..] == ts[i + 1..];
      var step := Use(x, ts[i]);
      if step.Failure? {
        return Failure(step.error);
      }
      x := step.value;
    }
    assert ts[|ts|..] == [];
    r := Success(x);
  }

  /** Giving a sequence applies Java's `n + 1` to a present ticket once per occurrence. */
  lemma {:induction false} GiveFoldCounts(p: Player, ts: seq<Ticket>, t: Ticket)
    ensures GiveFold(p, ts).piece == p.piece && GiveFold(p, ts).location == p.location
    ensures GiveFold(p, ts).tickets.Keys == p.tickets.Keys
    ensures t in p.tickets ==> Count(GiveFold(p, ts), t) == IncTimes(Count(p, t), multiset(ts)[t])
    ensures t !in p.tickets ==> Count(GiveFold(p, ts), t) == 0
    decreases |ts|
  {
    if ts == [] {
    } else {
      var q := Give(p, ts[0]);
      GiveFoldCounts(q, ts[1..], t);
      OccurrencesOfHead(ts, t);
      if t == ts[0] && t in p.tickets {
        assert IncTimes(Count(p, t), multiset(ts)[t]) == IncTimes(Count(q, t), multiset(ts[1..])[t]);
      }
    }
  }

  /** The occurrences of `t` in a sequence: one for its head if it is `t`, plus those in the rest. */
  lemma OccurrencesOfHead(ts: seq<Ticket>, t: Ticket)
    requires ts != []
    ensures multiset(ts)[t] == multiset(ts[1..])[t] + (if t == ts[0] then 1 else 0)
  {
    assert ts == [ts[0]] + ts[1..];
  }

  /** A successful use of a sequence applies Java's `n - 1` once per occurrence. */
  lemma {:induction false} UseFoldCounts(p: Player, ts: seq<Ticket>, t: Ticket)
    requires UseFold(p, ts).Success?
    ensures UseFold(p, ts).value.piece == p.piece && UseFold(p, ts).value.location == p.location
    ensures UseFold(p, ts).value.tickets.Keys == p.tickets.Keys
    ensures Count(UseFold(p, ts).value, t) == DecTimes(Count(p, t), multiset(ts)[t])
    decreases |ts|
  {
    if ts != [] {
      var a, rest := ts[0], ts[1..];
      var step := Use(p, a);
      assert step.Success?;
      var q := step.value;
      assert UseFold(p, ts) == UseFold(q, rest);
      UseFoldCounts(q, rest, t);
      OccurrencesOfHead(ts, t);
      if t == a {
        assert DecTimes(Count(p, t), multiset(ts)[t]) == DecTimes(Count(q, t), multiset(rest)[t]);
      }
    }
  }

  /**
   * With non-negative counts, using a sequence succeeds exactly when no ticket occurs more
   * often than the player holds it; a failure names a ticket that occurs too often.
   */
  lemma {:induction false} UseFoldSucceedsIff(p: Player, ts: seq<Ticket>)
    requires NonNegative(p)
    ensures UseFold(p, ts).Success? <==> forall t :: multiset(ts)[t] <= Count(p, t) as int
    ensures UseFold(p, ts).Success? ==> NonNegative(UseFold(p, ts).value)
    ensures UseFold(p, ts).Failure? ==>
      multiset(ts)[UseFold(p, ts).error.ticket] > Count(p, UseFold(p, ts).error.ticket) as int
    decreases |ts|
  {
    if ts != [] {
      var a := ts[0];
      assert ts == [a] + ts[1..];
      assert forall t :: multiset(ts)[t] == multiset(ts[1..])[t] + (if t == a then 1 else 0);
      if Has(p, a) {
        var q := Use(p, a).value;
        UseFoldSucceedsIff(q, ts[1..]);
      } else {
        assert multiset(ts)[a] > Count(p, a) as int;
      }
    }
  }

  /** Using a ticket the player has and giving it back restores the player exactly. */
  lemma UseGiveRoundTrip(p: Player, t: Ticket)
    requires Has(p, t)
    ensures Use(p, t).Success? && Give(Use(p, t).value, t) == p
  {
    var r := Give(Use(p, t).value, t);
    IncDecInverse(p.tickets[t]);
    assert r.tickets == p.tickets;
  }

  /** Giving back a successfully used sequence restores every count and every key. */
  lemma UseFoldGiveFoldCount(p: Player, ts: seq<Ticket>, t: Ticket)
    requires UseFold(p, ts).Success?
    ensures GiveFold(UseFold(p, ts).value, ts).tickets.Keys == p.tickets.Keys
    ensures Count(GiveFold(UseFold(p, ts).value, ts), t) == Count(p, t)
  {
    var q := UseFold(p, ts).value;
    UseFoldCounts(p, ts, t);
    GiveFoldCounts(q, ts, t);
    IncTimesDecTimes(Count(p, t), multiset(ts)[t]);
  }

  /** Giving back a successfully used sequence restores the player exactly. */
  lemma UseFoldGiveFoldRoundTrip(p: Player, ts: seq<Ticket>)
    requires UseFold(p, ts).Success?
    ensures GiveFold(UseFold(p, ts).value, ts) == p
  {
    var q := UseFold(p, ts).value;
    var r := GiveFold(q, ts);
    forall t | t in p.tickets ensures t in r.tickets && r.tickets[t] == p.tickets[t] {
      UseFoldGiveFoldCount(p, ts, t);
    }
    UseFoldCounts(p, ts, Taxi);
    GiveFoldCounts(q, ts, Taxi);
    UseFoldGiveFoldCount(p, ts, Taxi);
    assert r.tickets == p.tickets;
  }

  /** A detective with the default tickets can use neither a double nor a secret ticket. */
  lemma DefaultDetectiveLacksReservedTickets(d: Detective, l: int32)
    ensures var p := Player(DetectivePiece(d), DefaultDetectiveTickets(), l);
      NonNegative(p) && Use(p, Double).Failure? && Use(p, Secret).Failure?
  {
  }
}
