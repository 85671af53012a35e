/** Entries of Mr X's travel log: the ticket used and, in reveal rounds, the location. */
module LogEntries {
  import opened Wrappers
  import opened JavaInts
  import opened ScotlandYard

  /** The location field holding `HIDDEN` marks a hidden entry. */
  const HIDDEN: int32 := -1

  /** The two private fields; only `Hidden` and `Reveal` build entries. */
  datatype LogEntry = LogEntry(ticket: Ticket, location: int32)

  /** The `IllegalArgumentException` of `reveal` at the `HIDDEN` location. */
  datatype LogError = HiddenLocation

  /** `hidden(t)`: an entry that records the ticket but no location. */
  function Hidden(t: Ticket): (e: LogEntry)
    ensures TicketOf(e) == t && LocationOf(e) == None
  {
    LogEntry(t, HIDDEN)
  }

  /** `reveal(t, l)`: an entry showing `l`; refused when `l` is the sentinel. */
  function Reveal(t: Ticket, l: int32): (r: Result<LogEntry, LogError>)
    ensures r.Failure? <==> l == HIDDEN
    ensures r.Success? ==> TicketOf(r.value) == t && LocationOf(r.value) == Some(l)
  {
    if l == HIDDEN then Failure(HiddenLocation) else Success(LogEntry(t, l))
  }

  /** `ticket()`: the ticket the entry was made with. */
  function TicketOf(e: LogEntry): (t: Ticket)
    ensures t == e.ticket
  {
    e.ticket
  }

  /** `location()`: empty for the sentinel, the stored location otherwise. */
  function LocationOf(e: LogEntry): (l: Option<int32>)
    ensures l.None? <==> e.location == HIDDEN
    ensures l.Some? ==> l.value == e.location
  {
    if e.location == HIDDEN then None else Some(e.location)
  }

  /** `equals`: ticket and stored location compared. */
  function Equals(a: LogEntry, b: LogEntry): (r: bool)
    ensures r <==> a == b
  {
    a.location == b.location && a.ticket == b.ticket
  }

  /** No revealed entry equals a hidden one; hidden entries are equal iff their tickets are. */
  lemma RevealNeverEqualsHidden(t: Ticket, l: int32, u: Ticket)
    ensures Reveal(t, l).Success? ==> !Equals(Reveal(t, l).value, Hidden(u))
    ensures Equals(Hidden(t), Hidden(u)) <==> t == u
  {
  }

  /** Every entry built by the factories reads back the arguments it was built from. */
  lemma FactoriesRoundTrip(e: LogEntry)
    ensures LocationOf(e).None? ==> e == Hidden(TicketOf(e))
    ensures LocationOf(e).Some? ==> Reveal(TicketOf(e), LocationOf(e).value) == Success(e)
  {
  }
}
