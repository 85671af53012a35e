# Scotland Yard model core in Dafny

This project models the finished, engine-independent core of the Scotland Yard coursework
framework, a Java implementation of the board game in which detectives chase the hidden Mr X
across a map of London:

- the game pieces (`Piece`, its `Detective` and `MrX` enums);
- the immutable ticket ledger of a player (`Player`): `has`, `hasAtLeast`, `give`, `use`, their
  bulk forms over a sequence of tickets, `at` and `equals`;
- the two move kinds (`Move.SingleMove`, `Move.DoubleMove`), their tickets, equality, hash code
  and visitor;
- Mr X's travel-log entries (`LogEntry`), hidden or revealed, with the `-1` sentinel;
- the game constants and the board-description reader of `ScotlandYard`: tickets, transports
  and the ticket each transport needs, the piece lists, the 24-round reveal schedule, the
  default ticket tables, the varargs factory default, and `readGraph`;
- the documented promises of the `Board` interface and of `GameState.advance`;
- the `ImmutableBoard` snapshot of any board;
- the observer-notifying model `MyModelFactory.MyModel`.

Layout, one module per file:

| file | module | source |
|---|---|---|
| `wrappers.dfy` | `Wrappers` | `Option`, `Result` and `Outcome`, which stand in for exceptions |
| `java_ints.dfy` | `JavaInts` | Java `int`, its 32-bit wrap-around for `+ 1`, `- 1` and hash arithmetic |
| `piece.dfy` | `Pieces` | `Piece.java` |
| `scotland_yard.dfy` | `ScotlandYard` | constants and enums of `ScotlandYard.java` |
| `player.dfy` | `Players` | `Player.java` |
| `move.dfy` | `Moves` | `Move.java` |
| `log_entry.dfy` | `LogEntries` | `LogEntry.java` |
| `graph.dfy` | `Graphs` | the value graph that `readGraph` builds |
| `java_text.dfy` | `JavaText` | `String.lines`, `String.split`, `Integer.parseInt`, `String.toUpperCase` |
| `graph_reader.dfy` | `GraphReader` | `ScotlandYard.readGraph` |
| `board.dfy` | `Boards` | `Board.java`, `GameSetup.java` |
| `immutable_board.dfy` | `ImmutableBoards` | `ImmutableBoard.java` |
| `my_model.dfy` | `Models` | `MyModelFactory.java`, `Model.java` |

How the Java code becomes Dafny:

- **Values.** Immutable Java classes become datatypes. Their value equality is the Java
  `equals`, and each `Equals` function proves this.
- **Exceptions.** An exception becomes a `Failure` or `Fail` value naming it. For example,
  `use` of a missing ticket returns `Failure(NoTicketRemaining(t))`.
- **Java `int`.** It is the newtype `int32`. `n + 1` and `n - 1` wrap around as Java's do.
- **Loops.** `give(Iterable)`, `use(Iterable)`, the two loops of `readGraph`, and the
  notification loop of `chooseMove` are methods with loops. Each is proved equal to a recursive
  specification function, or to a stated new state.
- **Interfaces.** `Board` is an interface with several implementations. It becomes a datatype
  holding the answers of its accessors, plus the ghost predicate `BoardContract` for the
  promises in its documentation.
- **`advance`.** `GameState.advance` is a function value `Advance` from a board and a move to
  the next board. It comes with the ghost predicate `AdvanceContract`: a move is refused
  exactly when it is not available.
- **The game-state factory.** `MyGameStateFactory` is an unfinished stub that always throws. So
  `MyModel` takes its initial state and its `advance` as constructor arguments.
- **Observers.** An `Observer` is a class. It records every `onModelChanged` call it receives,
  in order.

Two details of the code that the model keeps as written:

- **Negative counts.** The `Player` constructor does not check that ticket counts are
  non-negative, and `has` is `count != 0`, so a negative count passes `has`. The model keeps
  that. Non-negativity is a hypothesis (`NonNegative`) of the lemmas that need it, and `use` is
  proved to preserve it.
- **Blank lines in the board text.** An empty node or edge line is skipped by the loops of
  `readGraph`, but it still uses up one of the node or edge slots that the header announces.

## Model

| member | source | states |
|---|---|---|
| `JavaInts.Inc` | src/main/java/uk/ac/bris/cs/scotlandyard/model/Player.java:80 | Java `n + 1`: one more, except that `MAX_VALUE` wraps to `MIN_VALUE` |
| `JavaInts.Dec` | src/main/java/uk/ac/bris/cs/scotlandyard/model/Player.java:102 | Java `n - 1`: one less, except that `MIN_VALUE` wraps to `MAX_VALUE` |
| `JavaInts.Wrap` | src/main/java/uk/ac/bris/cs/scotlandyard/model/Move.java:109 | the Java `int` congruent to a value modulo 2^32; values in range are unchanged |
| `JavaInts.WrapAdd` | src/main/java/uk/ac/bris/cs/scotlandyard/model/Move.java:161-163 | wrapping an intermediate sum does not change the wrapped result |
| `JavaInts.WrapMulAdd` | src/main/java/uk/ac/bris/cs/scotlandyard/model/Move.java:161-163 | wrapping an intermediate value before `c * h + x` does not change the wrapped result |
| `JavaInts.IncDecInverse` | src/main/java/uk/ac/bris/cs/scotlandyard/model/Player.java:78-104 | `n + 1` and `n - 1` undo each other, overflow included |
| `JavaInts.IncTimesInc` | src/main/java/uk/ac/bris/cs/scotlandyard/model/Player.java:69-73 | one more increment commutes with `k` increments |
| `JavaInts.IncTimesDecTimes` | src/main/java/uk/ac/bris/cs/scotlandyard/model/Player.java:69-93 | `k` decrements followed by `k` increments return to the start |
| `Pieces.WebColour` | src/main/java/uk/ac/bris/cs/scotlandyard/model/Piece.java:28-47 | every web colour is `#` followed by three digits, each `0` or `f` |
| `Pieces.IsDetective` | src/main/java/uk/ac/bris/cs/scotlandyard/model/Piece.java:19-45 | `isDetective` holds exactly for the pieces other than Mr X |
| `Pieces.IsMrX` | src/main/java/uk/ac/bris/cs/scotlandyard/model/Piece.java:21-23 | `isMrX` holds exactly for the Mr X piece |
| `Pieces.WebColourInjective` | src/main/java/uk/ac/bris/cs/scotlandyard/model/Piece.java:29-46 | two pieces share a web colour only if they are the same piece |
| `Pieces.AllDetectivesComplete` | src/main/java/uk/ac/bris/cs/scotlandyard/model/Piece.java:28-33 | the five colours are every `Detective` constant |
| `ScotlandYard.AllTicketsComplete` | src/main/java/uk/ac/bris/cs/scotlandyard/model/ScotlandYard.java:226 | the five ticket kinds are every `Ticket` constant |
| `ScotlandYard.RequiredTicket` | src/main/java/uk/ac/bris/cs/scotlandyard/model/ScotlandYard.java:231-247 | no transport needs a double ticket; exactly the ferry needs a secret ticket |
| `ScotlandYard.RequiredTicketInjective` | src/main/java/uk/ac/bris/cs/scotlandyard/model/ScotlandYard.java:233-246 | different transports need different tickets |
| `ScotlandYard.TransportName` | src/main/java/uk/ac/bris/cs/scotlandyard/model/ScotlandYard.java:231-232 | every transport name is non-empty and all upper-case ASCII letters |
| `ScotlandYard.TransportValueOf` | src/main/java/uk/ac/bris/cs/scotlandyard/model/ScotlandYard.java:231-232 | `valueOf` finds exactly the constant whose name is the text, and fails on any other text |
| `ScotlandYard.PieceListsComplete` | src/main/java/uk/ac/bris/cs/scotlandyard/model/ScotlandYard.java:45-60 | `ALL_PIECES` lists all six pieces once each; `DETECTIVES` is exactly the detective pieces |
| `ScotlandYard.Standard24Moves` | src/main/java/uk/ac/bris/cs/scotlandyard/model/ScotlandYard.java:97-99 | the standard schedule has 24 rounds |
| `ScotlandYard.Standard24MovesReveals` | src/main/java/uk/ac/bris/cs/scotlandyard/model/ScotlandYard.java:68-69 | the rounds, counted from 1, whose entry is true are exactly 3, 8, 13, 18 and 24 |
| `ScotlandYard.DefaultMrXTickets` | src/main/java/uk/ac/bris/cs/scotlandyard/model/ScotlandYard.java:133-140 | Mr X's default table has every ticket kind, each with a positive count |
| `ScotlandYard.DefaultDetectiveTickets` | src/main/java/uk/ac/bris/cs/scotlandyard/model/ScotlandYard.java:145-152 | the detective table has every kind: no secret and no double tickets, some of each detective ticket |
| `ScotlandYard.FactoryArguments` | src/main/java/uk/ac/bris/cs/scotlandyard/model/ScotlandYard.java:274-276 | the varargs `build` passes the detective list `first` followed by `rest` |
| `Players.Count` | src/main/java/uk/ac/bris/cs/scotlandyard/model/Player.java:53 | `getOrDefault(t, 0)`: the stored count of `t` when `t` is a key, else 0 |
| `Players.Has` | src/main/java/uk/ac/bris/cs/scotlandyard/model/Player.java:52-54 | the player has `t` exactly when `t` is a key and its count is not 0 |
| `Players.HasAtLeast` | src/main/java/uk/ac/bris/cs/scotlandyard/model/Player.java:60-62 | for a key, its count is at least `n`; for a missing ticket, `n` is at most 0 |
| `Players.HasIsAtLeastOne` | src/main/java/uk/ac/bris/cs/scotlandyard/model/Player.java:52-62 | with non-negative counts, `has(t)` holds exactly when `hasAtLeast(t, 1)` does |
| `Players.Give` | src/main/java/uk/ac/bris/cs/scotlandyard/model/Player.java:78-82 | one more `t` when `t` is a key; otherwise the player is unchanged; keys, piece, location and other counts are kept |
| `Players.Use` | src/main/java/uk/ac/bris/cs/scotlandyard/model/Player.java:98-104 | succeeds exactly when the player has `t`, else fails naming `t`; one fewer `t`, everything else kept; non-negative counts stay non-negative |
| `Players.At` | src/main/java/uk/ac/bris/cs/scotlandyard/model/Player.java:109 | only the location changes; the result equals the player exactly when the location is the same |
| `Players.Equals` | src/main/java/uk/ac/bris/cs/scotlandyard/model/Player.java:110-116 | `equals` holds exactly for equal players |
| `Players.GiveAll` | src/main/java/uk/ac/bris/cs/scotlandyard/model/Player.java:69-73 | the loop computes the left fold of `give` over the sequence |
| `Players.UseAll` | src/main/java/uk/ac/bris/cs/scotlandyard/model/Player.java:89-93 | the loop computes the left fold of `use`, stopping at the first failure |
| `Players.GiveFoldCounts` | src/main/java/uk/ac/bris/cs/scotlandyard/model/Player.java:69-82 | giving a sequence increments a present ticket once per occurrence; an absent ticket stays absent |
| `Players.UseFoldCounts` | src/main/java/uk/ac/bris/cs/scotlandyard/model/Player.java:89-104 | a successful bulk use decrements each ticket once per occurrence and keeps piece, location and keys |
| `Players.UseFoldSucceedsIff` | src/main/java/uk/ac/bris/cs/scotlandyard/model/Player.java:89-104 | with non-negative counts, bulk use succeeds exactly when no ticket occurs more often than it is held; a failure names an over-used ticket |
| `Players.UseGiveRoundTrip` | src/main/java/uk/ac/bris/cs/scotlandyard/model/Player.java:78-104 | `use(t).give(t)` is the original player |
| `Players.UseFoldGiveFoldCount` | src/main/java/uk/ac/bris/cs/scotlandyard/model/Player.java:69-93 | giving back a used sequence restores every count and the key set |
| `Players.UseFoldGiveFoldRoundTrip` | src/main/java/uk/ac/bris/cs/scotlandyard/model/Player.java:69-93 | giving back a successfully used sequence restores the player exactly |
| `Players.DefaultDetectiveLacksReservedTickets` | src/main/java/uk/ac/bris/cs/scotlandyard/model/ScotlandYard.java:145-152 | a detective with the default table can use neither a double nor a secret ticket |
| `Moves.CommencedBy` | src/main/java/uk/ac/bris/cs/scotlandyard/model/Move.java:98-151 | `commencedBy()` is the piece given to either constructor |
| `Moves.Source` | src/main/java/uk/ac/bris/cs/scotlandyard/model/Move.java:98-151 | `source()` is the location given to either constructor |
| `Moves.Tickets` | src/main/java/uk/ac/bris/cs/scotlandyard/model/Move.java:99-150 | a single move uses exactly its ticket; a double move uses three tickets, its two and then `DOUBLE` |
| `Moves.FunctionalVisitor` | src/main/java/uk/ac/bris/cs/scotlandyard/model/Move.java:65-74 | the visitor's cases apply `smf` and `dmf` |
| `Moves.Accept` | src/main/java/uk/ac/bris/cs/scotlandyard/model/Move.java:101-152 | `accept` routes each move class to the visitor case for that class |
| `Moves.AcceptFunctionalVisitor` | src/main/java/uk/ac/bris/cs/scotlandyard/model/Move.java:65-74 | through a functional visitor a single move reaches `smf` and a double move `dmf` |
| `Moves.Equals` | src/main/java/uk/ac/bris/cs/scotlandyard/model/Move.java:102-160 | `equals` holds exactly for equal moves; a single move never equals a double move |
| `Moves.HashedFields` | src/main/java/uk/ac/bris/cs/scotlandyard/model/Move.java:109-163 | a single move hashes three fields, a double move five |
| `Moves.ObjectsHash` | src/main/java/uk/ac/bris/cs/scotlandyard/model/Move.java:109 | `Objects.hash` is the polynomial `31 * h + x` over the field hashes, starting at 1, wrapped to an `int` |
| `Moves.HashCode` | src/main/java/uk/ac/bris/cs/scotlandyard/model/Move.java:109-163 | a move hashes as `Objects.hash` of its hashed fields, in their order |
| `Moves.HashConsistentWithEquals` | src/main/java/uk/ac/bris/cs/scotlandyard/model/Move.java:102-109 | equal moves hash alike, and so do moves that differ only in their source |
| `LogEntries.Hidden` | src/main/java/uk/ac/bris/cs/scotlandyard/model/LogEntry.java:27-28 | a hidden entry keeps the ticket and has no location |
| `LogEntries.Reveal` | src/main/java/uk/ac/bris/cs/scotlandyard/model/LogEntry.java:34-37 | refused exactly for the `-1` sentinel; otherwise the entry shows the ticket and the location |
| `LogEntries.TicketOf` | src/main/java/uk/ac/bris/cs/scotlandyard/model/LogEntry.java:45 | the ticket is the one the entry was built with |
| `LogEntries.LocationOf` | src/main/java/uk/ac/bris/cs/scotlandyard/model/LogEntry.java:49-51 | empty exactly for the sentinel, else the stored location |
| `LogEntries.Equals` | src/main/java/uk/ac/bris/cs/scotlandyard/model/LogEntry.java:52-57 | `equals` holds exactly for equal entries |
| `LogEntries.RevealNeverEqualsHidden` | src/main/java/uk/ac/bris/cs/scotlandyard/model/LogEntry.java:52-57 | no revealed entry equals a hidden one; hidden entries are equal exactly when their tickets are |
| `LogEntries.FactoriesRoundTrip` | src/main/java/uk/ac/bris/cs/scotlandyard/model/LogEntry.java:27-51 | every entry is rebuilt by the factory that its accessors point to |
| `Graphs.Unordered` | src/main/java/uk/ac/bris/cs/scotlandyard/model/ScotlandYard.java:213 | the pair holds exactly the two stations, smaller first |
| `Graphs.UnorderedSymmetric` | src/main/java/uk/ac/bris/cs/scotlandyard/model/ScotlandYard.java:213 | the pair ignores the order of the stations, and two pairs are equal exactly when their station sets are |
| `Graphs.EdgeModes` | src/main/java/uk/ac/bris/cs/scotlandyard/model/ScotlandYard.java:216 | `edgeValueOrDefault(pair, of())`: the pair's transports when it is an edge, else the empty set |
| `Graphs.AddNode` | src/main/java/uk/ac/bris/cs/scotlandyard/model/ScotlandYard.java:203 | adds the station and leaves the edges alone |
| `Graphs.PutEdgeValue` | src/main/java/uk/ac/bris/cs/scotlandyard/model/ScotlandYard.java:214-217 | refuses exactly self-loops; otherwise adds both stations, sets the pair's transports and keeps every other pair |
| `JavaText.LineEnd` | src/main/java/uk/ac/bris/cs/scotlandyard/model/ScotlandYard.java:187 | the first line ends at the first terminator, or at the end of the text |
| `JavaText.Lines` | src/main/java/uk/ac/bris/cs/scotlandyard/model/ScotlandYard.java:187 | there are no lines exactly for the empty text, and no line holds a terminator |
| `JavaText.LineEndOfTerminated` | src/main/java/uk/ac/bris/cs/scotlandyard/model/ScotlandYard.java:187 | a line followed by a line feed ends at that line feed |
| `JavaText.LinesOfTerminated` | src/main/java/uk/ac/bris/cs/scotlandyard/model/ScotlandYard.java:187 | lines each ended by a line feed are read back unchanged |
| `JavaText.Split` | src/main/java/uk/ac/bris/cs/scotlandyard/model/ScotlandYard.java:210 | no field holds a space; text without a space is its only field |
| `JavaText.FieldsOfJoin` | src/main/java/uk/ac/bris/cs/scotlandyard/model/ScotlandYard.java:210 | cutting fields joined by single spaces gives them back, empty ones included |
| `JavaText.SplitOfJoin` | src/main/java/uk/ac/bris/cs/scotlandyard/model/ScotlandYard.java:210 | `split(" ")` gives back two or more fields joined by spaces, when the last is not empty |
| `JavaText.ParseInt` | src/main/java/uk/ac/bris/cs/scotlandyard/model/ScotlandYard.java:192 | empty text is refused; accepted text starts with a sign or a digit, ends with a digit and is digits after the optional sign; values are in `int` range |
| `JavaText.ParseIntOfNegativeDecimal` | src/main/java/uk/ac/bris/cs/scotlandyard/model/ScotlandYard.java:192 | `parseInt` reads `-` followed by the digits of `n` as `-n`, down to `MIN_VALUE` |
| `JavaText.ParseIntOfPlusDecimal` | src/main/java/uk/ac/bris/cs/scotlandyard/model/ScotlandYard.java:192 | `parseInt` reads `+` followed by the digits of a non-negative `int` as that `int` |
| `JavaText.ParseIntOutOfRange` | src/main/java/uk/ac/bris/cs/scotlandyard/model/ScotlandYard.java:192 | digits of a number above `MAX_VALUE` are refused, and so are negated digits of a number below `MIN_VALUE` |
| `JavaText.Decimal` | src/main/java/uk/ac/bris/cs/scotlandyard/model/ScotlandYard.java:192 | the decimal form of a number is a non-empty string of digits |
| `JavaText.DecimalValueOfDecimal` | src/main/java/uk/ac/bris/cs/scotlandyard/model/ScotlandYard.java:192 | the digits of a number have that number as value |
| `JavaText.ParseIntOfDecimal` | src/main/java/uk/ac/bris/cs/scotlandyard/model/ScotlandYard.java:192 | `parseInt` reads back the decimal form of every non-negative `int` |
| `JavaText.UpperCaseChar` | src/main/java/uk/ac/bris/cs/scotlandyard/model/ScotlandYard.java:217 | among single-character upper cases, an upper-case ASCII letter comes only from an ASCII letter, dotless `i` or long `s` |
| `JavaText.ToUpperCase` | src/main/java/uk/ac/bris/cs/scotlandyard/model/ScotlandYard.java:217 | the text is upper-cased character by character; each character gives one character |
| `JavaText.ToLowerAscii` | src/main/java/uk/ac/bris/cs/scotlandyard/model/ScotlandYard.java:217 | lower-casing keeps the length |
| `GraphReader.ParseHeader` | src/main/java/uk/ac/bris/cs/scotlandyard/model/ScotlandYard.java:191-193 | the header is read exactly when it has two fields that are both numbers, giving them; otherwise a missing field or `NumberFormatException` |
| `GraphReader.ParseMode` | src/main/java/uk/ac/bris/cs/scotlandyard/model/ScotlandYard.java:217 | a mode name is the transport whose name equals the upper-cased text |
| `GraphReader.ParseModeIgnoresCase` | src/main/java/uk/ac/bris/cs/scotlandyard/model/ScotlandYard.java:217 | every transport name is recognised in upper and in lower case |
| `GraphReader.ParseEdge` | src/main/java/uk/ac/bris/cs/scotlandyard/model/ScotlandYard.java:210-217 | a line without exactly three fields is a bad edge line; a line is read exactly when it has three fields, two numbers and a transport name, giving their pair and transport |
| `GraphReader.ReadGraphSpec` | src/main/java/uk/ac/bris/cs/scotlandyard/model/ScotlandYard.java:185-220 | the "No lines" error is raised exactly for the empty text |
| `GraphReader.ReadLines` | src/main/java/uk/ac/bris/cs/scotlandyard/model/ScotlandYard.java:187-220 | the "No lines" error is raised exactly when there are no lines |
| `GraphReader.ReadGraph` | src/main/java/uk/ac/bris/cs/scotlandyard/model/ScotlandYard.java:185-220 | the method computes the recursive description of what `readGraph` returns or throws |
| `GraphReader.ReadLinesSteps` | src/main/java/uk/ac/bris/cs/scotlandyard/model/ScotlandYard.java:187-193 | no lines give "No lines"; a bad header ends the read with its error; a good header leads to the node and edge loops with its two counts |
| `GraphReader.ReadNodes` | src/main/java/uk/ac/bris/cs/scotlandyard/model/ScotlandYard.java:200-204 | the node loop computes the recursive node-loop description |
| `GraphReader.ReadEdges` | src/main/java/uk/ac/bris/cs/scotlandyard/model/ScotlandYard.java:206-218 | the edge loop computes the recursive edge-loop description |
| `GraphReader.NodeLinesResult` | src/main/java/uk/ac/bris/cs/scotlandyard/model/ScotlandYard.java:200-204 | a successful node loop had all its lines and adds exactly the stations they name |
| `GraphReader.EdgeStepResult` | src/main/java/uk/ac/bris/cs/scotlandyard/model/ScotlandYard.java:207-217 | an accepted edge line adds its stations and its transport to its pair's set, and leaves no edge bare |
| `GraphReader.EdgeLinesNodes` | src/main/java/uk/ac/bris/cs/scotlandyard/model/ScotlandYard.java:206-218 | a successful edge loop had all its lines and adds the stations they name |
| `GraphReader.EdgeLinesModes` | src/main/java/uk/ac/bris/cs/scotlandyard/model/ScotlandYard.java:206-218 | after a successful edge loop each pair has the union of the transports of its lines, and no edge is bare |
| `GraphReader.EdgeLinesFromNoEdges` | src/main/java/uk/ac/bris/cs/scotlandyard/model/ScotlandYard.java:206-218 | an edge loop that starts with no edges connects a pair exactly when some line names it, by the union of those lines' transports |
| `GraphReader.ReadBodyNodes` | src/main/java/uk/ac/bris/cs/scotlandyard/model/ScotlandYard.java:195-218 | after a successful read the node count was non-negative, every announced line was there, and the stations are those the node and edge lines name |
| `GraphReader.ReadBodyEdges` | src/main/java/uk/ac/bris/cs/scotlandyard/model/ScotlandYard.java:195-218 | after a successful read a pair is connected exactly when an edge line names it, by the union of those lines' transports |
| `GraphReader.ReadBodyContents` | src/main/java/uk/ac/bris/cs/scotlandyard/model/ScotlandYard.java:195-218 | the graph built after the header is the one its node and edge lines describe |
| `GraphReader.NodeStepOk` | src/main/java/uk/ac/bris/cs/scotlandyard/model/ScotlandYard.java:201-203 | a node line is accepted exactly when it is empty or a number, and otherwise throws `NumberFormatException` |
| `GraphReader.EdgeStepOk` | src/main/java/uk/ac/bris/cs/scotlandyard/model/ScotlandYard.java:207-217 | an edge line is accepted exactly when it is empty or a well-formed edge between two distinct stations, and otherwise throws that line's exception |
| `GraphReader.StepLinesSucceedsIff` | src/main/java/uk/ac/bris/cs/scotlandyard/model/ScotlandYard.java:200-218 | a loop over lines succeeds exactly when all its lines are there and each is accepted |
| `GraphReader.StepLinesFirstError` | src/main/java/uk/ac/bris/cs/scotlandyard/model/ScotlandYard.java:200-218 | a loop over lines fails with the error of its first rejected line |
| `GraphReader.StepLinesNeverNoLines` | src/main/java/uk/ac/bris/cs/scotlandyard/model/ScotlandYard.java:200-218 | a loop whose steps never raise "No lines" never raises it either |
| `GraphReader.NodeLinesSucceedsIff` | src/main/java/uk/ac/bris/cs/scotlandyard/model/ScotlandYard.java:200-204 | the node loop succeeds exactly when all its lines are there and each is empty or a number |
| `GraphReader.EdgeLinesSucceedsIff` | src/main/java/uk/ac/bris/cs/scotlandyard/model/ScotlandYard.java:206-218 | the edge loop succeeds exactly when all its lines are there and each is accepted |
| `GraphReader.NodeLinesFirstError` | src/main/java/uk/ac/bris/cs/scotlandyard/model/ScotlandYard.java:200-204 | a node line that is not a number, after accepted ones, ends the loop with `NumberFormatException` |
| `GraphReader.EdgeLinesFirstError` | src/main/java/uk/ac/bris/cs/scotlandyard/model/ScotlandYard.java:206-218 | the first rejected edge line ends the loop with its own exception: bad edge line, bad number, unknown transport or self-loop |
| `GraphReader.ReadBodySucceedsIff` | src/main/java/uk/ac/bris/cs/scotlandyard/model/ScotlandYard.java:195-218 | after the header, the read succeeds exactly when the node count is non-negative, the announced lines are there and each is accepted |
| `GraphReader.ReadBodyBadNode` | src/main/java/uk/ac/bris/cs/scotlandyard/model/ScotlandYard.java:200-204 | the first bad node line after the header ends the read with `NumberFormatException` |
| `GraphReader.ReadBodyBadEdge` | src/main/java/uk/ac/bris/cs/scotlandyard/model/ScotlandYard.java:206-218 | the first rejected edge line, after accepted node lines, ends the read with its exception |
| `GraphReader.ReadBodyNeverNoLines` | src/main/java/uk/ac/bris/cs/scotlandyard/model/ScotlandYard.java:195-218 | after the header, the read never fails with "No lines" |
| `GraphReader.ReadGraphContents` | src/main/java/uk/ac/bris/cs/scotlandyard/model/ScotlandYard.java:185-220 | on success there are lines and the header holds two numbers; the node count is non-negative; a line exists for every announced node and edge; the stations are those named; a pair is connected exactly when an edge line names it, by the union of those lines' transports |
| `GraphReader.ReadGraphSucceedsIff` | src/main/java/uk/ac/bris/cs/scotlandyard/model/ScotlandYard.java:185-220 | `readGraph` returns exactly when there are lines, the header holds two numbers, the node count is non-negative, the announced lines are there and each node and edge line is accepted |
| `GraphReader.ReadGraphBadNode` | src/main/java/uk/ac/bris/cs/scotlandyard/model/ScotlandYard.java:200-204 | a text whose first rejected node line is `k` makes `readGraph` throw `NumberFormatException` |
| `GraphReader.ReadGraphBadEdge` | src/main/java/uk/ac/bris/cs/scotlandyard/model/ScotlandYard.java:206-218 | a text whose node lines are accepted and whose first rejected edge line is `k` makes `readGraph` throw that line's exception |
| `Boards.TicketCount` | src/main/java/uk/ac/bris/cs/scotlandyard/model/Board.java:21-46 | on a board keeping its promises, a count is absent exactly for a non-player, and is never negative |
| `Boards.DetectiveLocation` | src/main/java/uk/ac/bris/cs/scotlandyard/model/Board.java:37-41 | a detective has a location exactly when it is in the game |
| `Boards.IsOver` | src/main/java/uk/ac/bris/cs/scotlandyard/model/Board.java:51-60 | there is a winner exactly when no move is available |
| `Boards.AdvanceBy` | src/main/java/uk/ac/bris/cs/scotlandyard/model/Board.java:66-77 | `advance` refuses exactly the unavailable moves, and the next board keeps the promises |
| `ImmutableBoards.CountsBoard` | src/main/java/uk/ac/bris/cs/scotlandyard/model/ImmutableBoard.java:79-82 | a ticket board gives a ticket's count, or 0 when the ticket has no entry |
| `ImmutableBoards.GetDetectiveLocation` | src/main/java/uk/ac/bris/cs/scotlandyard/model/ImmutableBoard.java:76-78 | empty exactly when the detective has no entry, else its entry |
| `ImmutableBoards.GetPlayers` | src/main/java/uk/ac/bris/cs/scotlandyard/model/ImmutableBoard.java:75 | the players are exactly the pieces with a ticket board |
| `ImmutableBoards.GetPlayerTickets` | src/main/java/uk/ac/bris/cs/scotlandyard/model/ImmutableBoard.java:79-82 | empty exactly when the piece has no ticket map |
| `ImmutableBoards.AsBoard` | src/main/java/uk/ac/bris/cs/scotlandyard/model/ImmutableBoard.java:74-85 | the players are the keys of the ticket map; missing entries read as empty or as 0; the other answers are the fields |
| `ImmutableBoards.AllCounts` | src/main/java/uk/ac/bris/cs/scotlandyard/model/ImmutableBoard.java:50-52 | the copied table has an entry for every ticket kind, holding the board's count |
| `ImmutableBoards.SnapshotLocations` | src/main/java/uk/ac/bris/cs/scotlandyard/model/ImmutableBoard.java:42-46 | a location is copied for each detective in the game and no other piece |
| `ImmutableBoards.SnapshotTickets` | src/main/java/uk/ac/bris/cs/scotlandyard/model/ImmutableBoard.java:47-53 | a full ticket table is copied for each player |
| `ImmutableBoards.Snapshot` | src/main/java/uk/ac/bris/cs/scotlandyard/model/ImmutableBoard.java:40-58 | the copy fails exactly when a player lacks tickets or a detective in the game lacks a location; otherwise it holds exactly the board's answers |
| `ImmutableBoards.Equals` | src/main/java/uk/ac/bris/cs/scotlandyard/model/ImmutableBoard.java:86-96 | `equals` holds exactly for equal snapshots |
| `ImmutableBoards.AsBoardContract` | src/main/java/uk/ac/bris/cs/scotlandyard/model/ImmutableBoard.java:60-85 | a snapshot keeps the board promises exactly when its fields are consistent |
| `ImmutableBoards.SnapshotOfContractBoard` | src/main/java/uk/ac/bris/cs/scotlandyard/model/ImmutableBoard.java:40-58 | copying a board that keeps its promises succeeds, and the copy keeps them |
| `ImmutableBoards.SnapshotAnswersAsOriginal` | src/main/java/uk/ac/bris/cs/scotlandyard/model/ImmutableBoard.java:40-85 | the copy answers every accessor as the original does |
| `ImmutableBoards.AsBoardAnswers` | src/main/java/uk/ac/bris/cs/scotlandyard/model/ImmutableBoard.java:40-58 | a consistent snapshot answers everything the copy constructor asks |
| `ImmutableBoards.SnapshotLocationsOfAsBoard` | src/main/java/uk/ac/bris/cs/scotlandyard/model/ImmutableBoard.java:42-46 | copying a snapshot's locations gives them back |
| `ImmutableBoards.AllCountsOfCountsBoard` | src/main/java/uk/ac/bris/cs/scotlandyard/model/ImmutableBoard.java:50-52 | copying the counts of a full ticket table gives the table back |
| `ImmutableBoards.SnapshotTicketsOfAsBoard` | src/main/java/uk/ac/bris/cs/scotlandyard/model/ImmutableBoard.java:47-53 | copying a snapshot's ticket tables gives them back |
| `ImmutableBoards.SnapshotOfSnapshot` | src/main/java/uk/ac/bris/cs/scotlandyard/model/ImmutableBoard.java:40-85 | copying a snapshot that has full tables and locates its detectives gives it back |
| `ImmutableBoards.SnapshotIdempotent` | src/main/java/uk/ac/bris/cs/scotlandyard/model/ImmutableBoard.java:40-58 | `new ImmutableBoard(new ImmutableBoard(b))` equals `new ImmutableBoard(b)` |
| `Models.EventForOngoing` | src/main/java/uk/ac/bris/cs/scotlandyard/model/MyModelFactory.java:65-68 | on a board keeping its promises, `MOVE_MADE` is sent exactly while moves remain, and `GAME_OVER` exactly when the game is over |
| `Models.Registered` | src/main/java/uk/ac/bris/cs/scotlandyard/model/MyModelFactory.java:42-47 | fails exactly for `null` (NPE) or an observer already present (IAE); otherwise the set gains exactly that observer |
| `Models.Unregistered` | src/main/java/uk/ac/bris/cs/scotlandyard/model/MyModelFactory.java:49-55 | fails exactly for `null` (NPE) or an absent observer (IAE); otherwise the set loses exactly that observer |
| `Models.RegisterUnregisterRestores` | src/test/java/uk/ac/bris/cs/scotlandyard/model/ModelObserverTest.java:51-71 | registering a new observer and unregistering it restores the original set |
| `Models.UnregisterRegisterRestores` | src/main/java/uk/ac/bris/cs/scotlandyard/model/MyModelFactory.java:42-55 | unregistering a present observer and registering it again restores the original set |
| `Models.Observer.constructor` | src/main/java/uk/ac/bris/cs/scotlandyard/model/Model.java:17-29 | a new observer has received no call |
| `Models.Observer.OnModelChanged` | src/main/java/uk/ac/bris/cs/scotlandyard/model/Model.java:22-28 | each call is recorded, in order, with its board and event |
| `Models.MyModel.constructor` | src/main/java/uk/ac/bris/cs/scotlandyard/model/MyModelFactory.java:30-36 | a new model holds the initial state and no observer |
| `Models.MyModel.GetCurrentBoard` | src/main/java/uk/ac/bris/cs/scotlandyard/model/MyModelFactory.java:38-40 | the current board keeps the board promises |
| `Models.MyModel.RegisterObserver` | src/main/java/uk/ac/bris/cs/scotlandyard/model/MyModelFactory.java:42-47 | the set becomes what `Registered` gives, unchanged on failure; the state is kept |
| `Models.MyModel.GetObservers` | src/main/java/uk/ac/bris/cs/scotlandyard/model/MyModelFactory.java:57-59 | the observers are those registered and not since unregistered |
| `Models.MyModel.UnregisterObserver` | src/main/java/uk/ac/bris/cs/scotlandyard/model/MyModelFactory.java:49-55 | the set becomes what `Unregistered` gives, unchanged on failure; the state is kept |
| `Models.MyModel.ChooseMove` | src/main/java/uk/ac/bris/cs/scotlandyard/model/MyModelFactory.java:61-70 | a refused move changes nothing and notifies nobody; otherwise the state becomes the advanced one and each registered observer is told exactly once, with the new board and its event; the observer set is kept; the model's promises are preserved, and a move is refused exactly when it was not available |

## Left out

- The game-state engine (`MyGameStateFactory`) is an unfinished stub that always throws. Its
  move generation, `advance` and winner evaluation are not modelled. Only the contract that
  `Board` documents for them is, as `AdvanceContract`. For the same reason, the promise that
  every move of a freshly built state is commenced by Mr X is not modelled.
- `readGraph` builds its graph with a graph library. Three things are taken from that
  library's documented behaviour rather than from visible code:
  - an edge adds its missing endpoints as nodes;
  - a graph built with the default settings refuses self-loops;
  - a negative expected node count throws.
- `Integer.parseInt` is modelled for ASCII digits only, not for other Unicode decimal digits.
- `JavaText.ToUpperCase`: unlike Java's `toUpperCase(Locale.ENGLISH)`, it keeps the length.
  Upper cases of more than one character (`ß` to `SS`, `ﬁ` to `FI`, and so on) are not expanded.
  Each of them either holds a non-ASCII character or is one of `SS`, `FF`, `FI`, `FL`, `FFI`,
  `FFL` and `ST`, and none of these occurs in a transport name, so the match against a transport
  name cannot change.
- `JavaText.UpperCaseChar` covers only the characters whose single-character upper case can be
  an ASCII letter. These are the only ones that can affect the match against a transport name.
- The `ImmutableValueGraph.copyOf` at the end of `readGraph` is not modelled, because the model
  graph is a value already.
- `Moves.HashCode`: the hash codes of enum constants are identity hashes that the JVM chooses at
  run time. They are a parameter (`EnumHashes`). `Player`, `LogEntry` and `ImmutableBoard` hash
  codes are not modelled.
- `Player.isMrX`, `Player.isDetective`, the field accessors, the `toString` methods and the
  `PIECE_VALUE_ORDER` comparator are not modelled. They only delegate or render.
- Random start locations (`generateDetectiveLocations`, `generateMrXLocation`), the location
  lists they draw from, resource loading (`standardGraph`, `pngMapAsStream`) and the map
  position file with its floating-point scaling (`pngMapPositionEntries`) are not modelled.
- The user interface, the AI players, the resource manager and the test wiring of factories
  are not modelled.
- `Models.MyModel.ChooseMove`: the order in which observers are notified is not stated. The
  Java set is rebuilt from a hash set and fixes no order.
- `Models.MyModel.ChooseMove`: an observer that calls back into the model during notification
  is not modelled. Observers only record the calls they receive.
- `Models.Observer.OnModelChanged`: recording every call stands in for whatever an observer
  does. The interface's default body does nothing.
- `Models.Registered` and `Models.Unregistered` compare observers by identity. In Java,
  `contains` and the set copies use `equals`, but the filter in `unregisterObserver` uses `!=`.
  The model assumes that observers keep `Object`'s identity `equals`, as anonymous observer
  classes do.
- The `requireNonNull` checks of the constructors are not modelled, because Dafny values are
  never null. `null` is modelled only where the source handles it: the observer argument of
  `registerObserver` and `unregisterObserver`.
