/**
 * `ScotlandYard.readGraph`: the board description reader. The first line holds the node and
 * edge counts; then one line per node and one `a b mode` line per edge. An empty line is
 * skipped but still takes its slot.
 */
module GraphReader {
  import opened Wrappers
  import opened JavaInts
  import opened JavaText
  import opened ScotlandYard
  import opened Graphs

  /** The exceptions `readGraph` can end with. */
  datatype GraphError =
    | NoLines            // IllegalArgumentException("No lines")
    | MissingField       // ArrayIndexOutOfBoundsException on the header's fields
    | MissingLine        // IndexOutOfBoundsException: fewer lines than the counts announce
    | BadNumber          // NumberFormatException
    | NegativeNodeCount  // IllegalArgumentException from expectedNodeCount
    | BadEdgeLine        // IllegalArgumentException("Bad edge line:...")
    | UnknownMode        // IllegalArgumentException from Transport.valueOf
    | SelfLoop           // IllegalArgumentException from putEdgeValue

  /** The header: node count and edge count, the first two space-separated fields. */
  function ParseHeader(line: string): (r: Result<(int32, int32), GraphError>)
    ensures r.Success? <==> |Split(line)| >= 2 && ParseInt(Split(line)[0]).Some? && ParseInt(Split(line)[1]).Some?
    ensures r.Success? ==> r.value == (ParseInt(Split(line)[0]).value, ParseInt(Split(line)[1]).value)
    ensures r.Failure? ==> r.error == MissingField || r.error == BadNumber
  {
    var top := Split(line);
    if |top| < 1 then Failure(MissingField)
    else match ParseInt(top[0])
      case None => Failure(BadNumber)
      case Some(n) =>
        if |top| < 2 then Failure(MissingField)
        else match ParseInt(top[1])
          case None => Failure(BadNumber)
          case Some(e) => Success((n, e))
  }

  /** `Transport.valueOf(name.toUpperCase(Locale.ENGLISH))`. */
  function ParseMode(name: string): (r: Option<Transport>)
    ensures forall m :: r == Some(m) <==> ToUpperCase(name) == TransportName(m)
  {
    TransportValueOf(ToUpperCase(name))
  }

  /** A transport name is recognised in upper case and in lower case alike. */
  lemma ParseModeIgnoresCase(m: Transport)
    ensures ParseMode(TransportName(m)) == Some(m)
    ensures ParseMode(ToLowerAscii(TransportName(m))) == Some(m)
  {
    var name := TransportName(m);
    assert ToUpperCase(name) == name;
    assert ToUpperCase(ToLowerAscii(name)) == name;
  }

  /** A non-empty edge line: three fields, two stations and a transport name. */
  function ParseEdge(line: string): (r: Result<(EndpointPair, Transport), GraphError>)
    ensures |Split(line)| != 3 ==> r == Failure(BadEdgeLine)
    ensures r.Success? <==>
              |Split(line)| == 3 && ParseInt(Split(line)[0]).Some? &&
              ParseInt(Split(line)[1]).Some? && ParseMode(Split(line)[2]).Some?
    ensures r.Success? ==>
              r.value.0 == Unordered(ParseInt(Split(line)[0]).value, ParseInt(Split(line)[1]).value) &&
              r.value.1 == ParseMode(Split(line)[2]).value
  {
    var s := Split(line);
    if |s| != 3 then Failure(BadEdgeLine)
    else match (ParseInt(s[0]), ParseInt(s[1]))
      case (None, _) => Failure(BadNumber)
      case (_, None) => Failure(BadNumber)
      case (Some(a), Some(b)) =>
        match ParseMode(s[2])
        case None => Failure(UnknownMode)
        case Some(m) => Success((Unordered(a, b), m))
  }

  /** One node line: skipped when empty, else the station it names is added. */
  function NodeStep(g: Graph, line: string): Result<Graph, GraphError> {
    if line == "" then Success(g)
    else match ParseInt(line)
      case None => Failure(BadNumber)
      case Some(n) => Success(AddNode(g, n))
  }

  /** One edge line: skipped when empty, else its transport joins those of its pair. */
  function EdgeStep(g: Graph, line: string): Result<Graph, GraphError> {
    if line == "" then Success(g)
    else match ParseEdge(line)
      case Failure(e) => Failure(e)
      case Success((pair, m)) =>
        match PutEdgeValue(g, pair, EdgeModes(g, pair) + {m})
        case None => Failure(SelfLoop)
        case Some(g') => Success(g')
  }

  /**
   * The shape both loops share: `count` lines from line `from` on, each handed to `step`; the
   * first failing step ends the loop, and so does running out of lines.
   */
  function StepLines(step: (Graph, string) -> Result<Graph, GraphError>, g: Graph,
                     lines: seq<string>, from: nat, count: int): Result<Graph, GraphError>
    decreases count
  {
    if count <= 0 then Success(g)
    else if from >= |lines| then Failure(MissingLine)
    else match step(g, lines[from])
      case Failure(e) => Failure(e)
      case Success(g') => StepLines(step, g', lines, from + 1, count - 1)
  }

  /** The node loop: `count` node lines from line `from` on. */
  function NodeLines(g: Graph, lines: seq<string>, from: nat, count: int): Result<Graph, GraphError> {
    StepLines(NodeStep, g, lines, from, count)
  }

  /** The edge loop: `count` edge lines from line `from` on. */
  function EdgeLines(g: Graph, lines: seq<string>, from: nat, count: int): Result<Graph, GraphError> {
    StepLines(EdgeStep, g, lines, from, count)
  }

  /** What `readGraph(content)` returns or throws; only the empty text has no line to read. */
  function ReadGraphSpec(content: string): (r: Result<Graph, GraphError>)
    ensures r == Failure(NoLines) <==> content == ""
  {
    ReadLines(Lines(content))
  }

  /** The same, once the text is cut into lines. */
  function ReadLines(lines: seq<string>): (r: Result<Graph, GraphError>)
    ensures r == Failure(NoLines) <==> lines == []
  {
    if lines == [] then Failure(NoLines)
    else
      match ParseHeader(lines[0])
      case Failure(err) =>
        assert err != NoLines;
        Failure(err)
      case Success((n, e)) =>
        ReadBodyNeverNoLines(lines, n, e);
        ReadBody(lines, n, e)
  }

  /** The rest of the read, once the header on line 0 announced `n` nodes and `e` edges. */
  function ReadBody(lines: seq<string>, n: int32, e: int32): Result<Graph, GraphError> {
    if n < 0 then Failure(NegativeNodeCount)
    else
      match NodeLines(EmptyGraph, lines, 1, n as int)
      case Failure(err) => Failure(err)
      case Success(g) => EdgeLines(g, lines, 1 + n as int, e as int)
  }

  /** `readGraph`: the header, then the node loop and the edge loop sharing one line counter. */
  method ReadGraph(content: string) returns (r: Result<Graph, GraphError>)
    ensures r == ReadGraphSpec(content)
  {
    var lines := Lines(content);
    assert ReadGraphSpec(content) == ReadLines(lines);
    ReadLinesSteps(lines);
    if |lines| == 0 {
      return Failure(NoLines);
    }
    var currentLine := 0;
    var header := ParseHeader(lines[currentLine]);
    currentLine := currentLine + 1;
    if header.Failure? {
      return Failure(header.error);
    }
    var numberOfNodes, numberOfEdges := header.value.0, header.value.1;
    if numberOfNodes < 0 {
      return Failure(NegativeNodeCount);
    }
    var nodes := ReadNodes(lines, currentLine, numberOfNodes);
    if nodes.Failure? {
      return Failure(nodes.error);
    }
    currentLine := currentLine + numberOfNodes as int;
    r := ReadEdges(nodes.value, lines, currentLine, numberOfEdges);
  }

  /** `ReadLines` step by step: no lines, then the header, then the rest of the text. */
  lemma ReadLinesSteps(lines: seq<string>)
    ensures lines == [] ==> ReadLines(lines) == Failure(NoLines)
    ensures lines != [] && ParseHeader(lines[0]).Failure? ==>
              ReadLines(lines) == Failure(ParseHeader(lines[0]).error)
    ensures lines != [] && ParseHeader(lines[0]).Success? ==>
              ReadLines(lines) == ReadBody(lines, ParseHeader(lines[0]).value.0, ParseHeader(lines[0]).value.1)
  {
  }

  /** The node loop: `count` lines from `from` on, each empty or naming a station. */
  method ReadNodes(lines: seq<string>, from: nat, count: int32) returns (r: Result<Graph, GraphError>)
    ensures r == NodeLines(EmptyGraph, lines, from, count as int)
  {
    var graph := EmptyGraph;
    var currentLine := from;
    var i: int := 0;
    while i < count as int
      invariant 0 <= i <= count as int || (i == 0 && count < 0)
      invariant currentLine == from + i
      invariant NodeLines(graph, lines, currentLine, count as int - i)
             == NodeLines(EmptyGraph, lines, from, count as int)
    {
      if currentLine >= |lines| {
        return Failure(MissingLine);
      }
      var line := lines[currentLine];
      currentLine := currentLine + 1;
      i := i + 1;
      if line == "" {
        continue;
      }
      var node := ParseInt(line);
      if node.None? {
        return Failure(BadNumber);
      }
      graph := AddNode(graph, node.value);
    }
    return Success(graph);
  }

  /** The edge loop: `count` lines from `from` on, each empty or an edge whose mode is added. */
  method ReadEdges(g: Graph, lines: seq<string>, from: nat, count: int32) returns (r: Result<Graph, GraphError>)
    ensures r == EdgeLines(g, lines, from, count as int)
  {
    var graph := g;
    var currentLine := from;
    var i: int := 0;
    while i < count as int
      invariant 0 <= i <= count as int || (i == 0 && count < 0)
      invariant currentLine == from + i
      invariant EdgeLines(graph, lines, currentLine, count as int - i)
             == EdgeLines(g, lines, from, count as int)
    {
      if currentLine >= |lines| {
        return Failure(MissingLine);
      }
      ghost var before := graph;
      var line := lines[currentLine];
      currentLine := currentLine + 1;
      i := i + 1;
      if line == "" {
        continue;
      }
      var s := Split(line);
      if |s| != 3 {
        return Failure(BadEdgeLine);
      }
      var a, b := ParseInt(s[0]), ParseInt(s[1]);
      if a.None? || b.None? {
        return Failure(BadNumber);
      }
      var pair := Unordered(a.value, b.value);
      var mode := ParseMode(s[2]);
      if mode.None? {
        return Failure(UnknownMode);
      }
      assert ParseEdge(line) == Success((pair, mode.value));
      var next := PutEdgeValue(graph, pair, EdgeModes(graph, pair) + {mode.value});
      if next.None? {
        return Failure(SelfLoop);
      }
      graph := next.value;
      assert EdgeStep(before, line) == Success(graph);
    }
    return Success(graph);
  }

  /** The transport an edge line adds to `pair`: none for an empty line or another pair. */
  function LineModes(line: string, pair: EndpointPair): set<Transport> {
    if line == "" then {}
    else match ParseEdge(line)
      case Success((p, m)) => if p == pair then {m} else {}
      case Failure(_) => {}
  }

  /** The transports that the `count` edge lines from `from` on give `pair`. */
  function ModesFor(lines: seq<string>, from: nat, count: int, pair: EndpointPair): set<Transport>
    decreases count
  {
    if count <= 0 || from >= |lines| then {}
    else LineModes(lines[from], pair) + ModesFor(lines, from + 1, count - 1, pair)
  }

  /** The stations an edge line names. */
  function LineEndpoints(line: string): set<int32> {
    if line == "" then {}
    else match ParseEdge(line)
      case Success((p, _)) => {p.nodeU, p.nodeV}
      case Failure(_) => {}
  }

  /** The stations the `count` edge lines from `from` on name. */
  function EndpointsOf(lines: seq<string>, from: nat, count: int): set<int32>
    decreases count
  {
    if count <= 0 || from >= |lines| then {}
    else LineEndpoints(lines[from]) + EndpointsOf(lines, from + 1, count - 1)
  }

  /** The station a node line names. */
  function LineNode(line: string): set<int32> {
    if line == "" then {}
    else match ParseInt(line)
      case Some(n) => {n}
      case None => {}
  }

  /** The stations the `count` node lines from `from` on name. */
  function NodesOf(lines: seq<string>, from: nat, count: int): set<int32>
    decreases count
  {
    if count <= 0 || from >= |lines| then {}
    else LineNode(lines[from]) + NodesOf(lines, from + 1, count - 1)
  }

  /** Every edge of `g` carries at least one transport. */
  predicate NoBareEdges(g: Graph) {
    forall pair :: pair in g.edges ==> g.edges[pair] != {}
  }

  /**
   * A node loop that succeeds had all its lines, adds exactly the stations they name and
   * leaves the edges alone.
   */
  lemma {:induction false} NodeLinesResult(g: Graph, lines: seq<string>, from: nat, count: int)
    requires NodeLines(g, lines, from, count).Success?
    ensures count > 0 ==> from + count <= |lines|
    ensures NodeLines(g, lines, from, count).value == Graph(g.nodes + NodesOf(lines, from, count), g.edges)
    decreases count
  {
    if count > 0 {
      var g' := NodeStep(g, lines[from]).value;
      NodeLinesResult(g', lines, from + 1, count - 1);
    }
  }

  /** One edge line that is accepted adds its stations and its transport for its pair. */
  lemma EdgeStepResult(g: Graph, line: string)
    requires EdgeStep(g, line).Success?
    ensures EdgeStep(g, line).value.nodes == g.nodes + LineEndpoints(line)
    ensures forall pair :: EdgeModes(EdgeStep(g, line).value, pair)
                        == EdgeModes(g, pair) + LineModes(line, pair)
    ensures NoBareEdges(g) ==> NoBareEdges(EdgeStep(g, line).value)
  {
    if line != "" {
      var (p, m) := ParseEdge(line).value;
      var g' := EdgeStep(g, line).value;
      assert g' == PutEdgeValue(g, p, EdgeModes(g, p) + {m}).value;
      if NoBareEdges(g) {
        forall q | q in g'.edges
          ensures g'.edges[q] != {}
        {
          assert g'.edges[q] == EdgeModes(g', q);
        }
      }
    }
  }

  /** An edge loop that succeeds had all its lines and adds the stations they name. */
  lemma {:induction false} EdgeLinesNodes(g: Graph, lines: seq<string>, from: nat, count: int)
    requires EdgeLines(g, lines, from, count).Success?
    ensures count > 0 ==> from + count <= |lines|
    ensures EdgeLines(g, lines, from, count).value.nodes == g.nodes + EndpointsOf(lines, from, count)
    decreases count
  {
    if count > 0 {
      var g' := EdgeStep(g, lines[from]).value;
      EdgeStepResult(g, lines[from]);
      EdgeLinesNodes(g', lines, from + 1, count - 1);
    }
  }

  /**
   * In an edge loop that succeeds, each pair ends with the union of its transports before the
   * loop and on every line naming it, and no edge is left without a transport.
   */
  lemma {:induction false} EdgeLinesModes(g: Graph, lines: seq<string>, from: nat, count: int)
    requires EdgeLines(g, lines, from, count).Success?
    ensures forall pair :: EdgeModes(EdgeLines(g, lines, from, count).value, pair)
                        == EdgeModes(g, pair) + ModesFor(lines, from, count, pair)
    ensures NoBareEdges(g) ==> NoBareEdges(EdgeLines(g, lines, from, count).value)
    decreases count
  {
    if count > 0 {
      var g' := EdgeStep(g, lines[from]).value;
      EdgeStepResult(g, lines[from]);
      EdgeLinesModes(g', lines, from + 1, count - 1);
    }
  }

  /**
   * An edge loop started without edges connects a pair exactly when some of its lines names
   * it, by the union of the transports those lines give.
   */
  lemma EdgeLinesFromNoEdges(g: Graph, lines: seq<string>, from: nat, count: int)
    requires g.edges == map[]
    requires EdgeLines(g, lines, from, count).Success?
    ensures var r := EdgeLines(g, lines, from, count).value;
            forall pair :: (pair in r.edges <==> ModesFor(lines, from, count, pair) != {})
                        && EdgeModes(r, pair) == ModesFor(lines, from, count, pair)
  {
    EdgeLinesModes(g, lines, from, count);
    var r := EdgeLines(g, lines, from, count).value;
    forall pair
      ensures pair in r.edges <==> ModesFor(lines, from, count, pair) != {}
    {
      assert EdgeModes(r, pair) == ModesFor(lines, from, count, pair);
    }
  }

  /**
   * What a read of `lines` whose header announced `n` nodes and `e` edges returns when it
   * succeeds: the node count was not negative, the text had a line for every announced node and edge, the stations are those
   * the node and edge lines name, and a pair is connected exactly when some edge line names
   * it, by the union of the transports those lines give.
   */
  ghost predicate Describes(g: Graph, lines: seq<string>, n: int, e: int) {
    && n >= 0
    && 1 + n + (if e < 0 then 0 else e) <= |lines|
    && g.nodes == NodesOf(lines, 1, n) + EndpointsOf(lines, 1 + n, e)
    && forall pair :: (pair in g.edges <==> ModesFor(lines, 1 + n, e, pair) != {})
                   && EdgeModes(g, pair) == ModesFor(lines, 1 + n, e, pair)
  }

  /** The lines are all there, and the stations are those the node and edge lines name. */
  lemma ReadBodyNodes(lines: seq<string>, n: int32, e: int32)
    requires lines != []
    requires ReadBody(lines, n, e).Success?
    ensures n >= 0
    ensures 1 + n as int + (if e < 0 then 0 else e as int) <= |lines|
    ensures ReadBody(lines, n, e).value.nodes
         == NodesOf(lines, 1, n as int) + EndpointsOf(lines, 1 + n as int, e as int)
  {
    NodeLinesResult(EmptyGraph, lines, 1, n as int);
    var afterNodes := NodeLines(EmptyGraph, lines, 1, n as int).value;
    assert ReadBody(lines, n, e) == EdgeLines(afterNodes, lines, 1 + n as int, e as int);
    EdgeLinesNodes(afterNodes, lines, 1 + n as int, e as int);
  }

  /** A pair is connected exactly when some edge line names it, by the transports they give. */
  lemma ReadBodyEdges(lines: seq<string>, n: int32, e: int32)
    requires ReadBody(lines, n, e).Success?
    ensures var g := ReadBody(lines, n, e).value;
            forall pair :: (pair in g.edges <==> ModesFor(lines, 1 + n as int, e as int, pair) != {})
                        && EdgeModes(g, pair) == ModesFor(lines, 1 + n as int, e as int, pair)
  {
    NodeLinesResult(EmptyGraph, lines, 1, n as int);
    var afterNodes := NodeLines(EmptyGraph, lines, 1, n as int).value;
    assert afterNodes.edges == map[];
    assert ReadBody(lines, n, e) == EdgeLines(afterNodes, lines, 1 + n as int, e as int);
    EdgeLinesFromNoEdges(afterNodes, lines, 1 + n as int, e as int);
  }

  /** Once the header is read, a successful read is described by its lines as `Describes` states. */
  lemma ReadBodyContents(lines: seq<string>, n: int32, e: int32)
    requires lines != []
    requires ReadBody(lines, n, e).Success?
    ensures Describes(ReadBody(lines, n, e).value, lines, n as int, e as int)
  {
    ReadBodyNodes(lines, n, e);
    ReadBodyEdges(lines, n, e);
  }

  /**
   * A successful read had a header of two numbers, the first non-negative, and returns the
   * graph its node and edge lines describe.
   */
  lemma ReadGraphContents(content: string)
    requires ReadGraphSpec(content).Success?
    ensures var lines := Lines(content);
            && lines != [] && ParseHeader(lines[0]).Success?
            && var (n, e) := ParseHeader(lines[0]).value;
               Describes(ReadGraphSpec(content).value, lines, n as int, e as int)
  {
    var lines := Lines(content);
    var (n, e) := ParseHeader(lines[0]).value;
    assert ReadGraphSpec(content) == ReadBody(lines, n, e);
    ReadBodyContents(lines, n, e);
  }

  /** A node line the loop accepts: empty, or a number. */
  predicate NodeLineOk(line: string) {
    line == "" || ParseInt(line).Some?
  }

  /** An edge line the loop accepts: empty, or an edge between two distinct stations. */
  predicate EdgeLineOk(line: string) {
    line == "" || (ParseEdge(line).Success? && ParseEdge(line).value.0.nodeU != ParseEdge(line).value.0.nodeV)
  }

  /** The exception a rejected edge line ends the read with. */
  function EdgeLineError(line: string): GraphError {
    if ParseEdge(line).Failure? then ParseEdge(line).error else SelfLoop
  }

  /** A node line is accepted exactly when it is empty or a number, and otherwise fails to parse. */
  lemma NodeStepOk(g: Graph, line: string)
    ensures NodeStep(g, line).Success? <==> NodeLineOk(line)
    ensures !NodeLineOk(line) ==> NodeStep(g, line) == Failure(BadNumber)
  {
  }

  /** An edge line is accepted exactly when it is well formed, and otherwise fails with its exception. */
  lemma EdgeStepOk(g: Graph, line: string)
    ensures EdgeStep(g, line).Success? <==> EdgeLineOk(line)
    ensures !EdgeLineOk(line) ==> EdgeStep(g, line) == Failure(EdgeLineError(line))
  {
    if line != "" && ParseEdge(line).Success? {
      var (p, m) := ParseEdge(line).value;
      assert PutEdgeValue(g, p, EdgeModes(g, p) + {m}).None? <==> p.nodeU == p.nodeV;
    }
  }

  /**
   * When whether a step succeeds depends on its line alone, the loop succeeds exactly when all
   * its lines are there and each is accepted.
   */
  lemma {:induction false} StepLinesSucceedsIff(step: (Graph, string) -> Result<Graph, GraphError>,
                                                 ok: string -> bool, g: Graph, lines: seq<string>,
                                                 from: nat, count: int)
    requires forall h, l :: step(h, l).Success? <==> ok(l)
    ensures StepLines(step, g, lines, from, count).Success?
        <==> (count > 0 ==> from + count <= |lines|)
             && forall k :: from <= k < from + count && k < |lines| ==> ok(lines[k])
    decreases count
  {
    if count > 0 && from < |lines| && ok(lines[from]) {
      StepLinesSucceedsIff(step, ok, step(g, lines[from]).value, lines, from + 1, count - 1);
    }
  }

  /** The first rejected line ends the loop, with the exception that line's step raises. */
  lemma {:induction false} StepLinesFirstError(step: (Graph, string) -> Result<Graph, GraphError>,
                                               ok: string -> bool, error: string -> GraphError,
                                               g: Graph, lines: seq<string>, from: nat, count: int, k: nat)
    requires forall h, l :: step(h, l).Success? <==> ok(l)
    requires forall h, l :: !ok(l) ==> step(h, l) == Failure(error(l))
    requires from <= k < from + count && k < |lines|
    requires forall j :: from <= j < k ==> ok(lines[j])
    requires !ok(lines[k])
    ensures StepLines(step, g, lines, from, count) == Failure(error(lines[k]))
    decreases count
  {
    if from < k {
      assert ok(lines[from]);
      StepLinesFirstError(step, ok, error, step(g, lines[from]).value, lines, from + 1, count - 1, k);
    }
  }

  /** A loop whose steps never fail for want of lines does not either. */
  lemma {:induction false} StepLinesNeverNoLines(step: (Graph, string) -> Result<Graph, GraphError>,
                                                 g: Graph, lines: seq<string>, from: nat, count: int)
    requires forall h, l :: step(h, l) != Failure(NoLines)
    ensures StepLines(step, g, lines, from, count) != Failure(NoLines)
    decreases count
  {
    if count > 0 && from < |lines| && step(g, lines[from]).Success? {
      StepLinesNeverNoLines(step, step(g, lines[from]).value, lines, from + 1, count - 1);
    }
  }

  /** The node loop succeeds exactly when all its lines are there and each is empty or a number. */
  lemma NodeLinesSucceedsIff(g: Graph, lines: seq<string>, from: nat, count: int)
    ensures NodeLines(g, lines, from, count).Success?
        <==> (count > 0 ==> from + count <= |lines|)
             && forall k :: from <= k < from + count && k < |lines| ==> NodeLineOk(lines[k])
  {
    forall h, l ensures NodeStep(h, l).Success? <==> NodeLineOk(l) {
      NodeStepOk(h, l);
    }
    StepLinesSucceedsIff(NodeStep, NodeLineOk, g, lines, from, count);
  }

  /** The edge loop succeeds exactly when all its lines are there and each is accepted. */
  lemma EdgeLinesSucceedsIff(g: Graph, lines: seq<string>, from: nat, count: int)
    ensures EdgeLines(g, lines, from, count).Success?
        <==> (count > 0 ==> from + count <= |lines|)
             && forall k :: from <= k < from + count && k < |lines| ==> EdgeLineOk(lines[k])
  {
    forall h, l ensures EdgeStep(h, l).Success? <==> EdgeLineOk(l) {
      EdgeStepOk(h, l);
    }
    StepLinesSucceedsIff(EdgeStep, EdgeLineOk, g, lines, from, count);
  }

  /** The first node line that is not a number ends the node loop with `NumberFormatException`. */
  lemma NodeLinesFirstError(g: Graph, lines: seq<string>, from: nat, count: int, k: nat)
    requires from <= k < from + count && k < |lines|
    requires forall j :: from <= j < k ==> NodeLineOk(lines[j])
    requires !NodeLineOk(lines[k])
    ensures NodeLines(g, lines, from, count) == Failure(BadNumber)
  {
    forall h, l ensures (NodeStep(h, l).Success? <==> NodeLineOk(l))
                     && (!NodeLineOk(l) ==> NodeStep(h, l) == Failure(BadNumber)) {
      NodeStepOk(h, l);
    }
    StepLinesFirstError(NodeStep, NodeLineOk, _ => BadNumber, g, lines, from, count, k);
  }

  /** The first rejected edge line ends the edge loop with that line's exception. */
  lemma EdgeLinesFirstError(g: Graph, lines: seq<string>, from: nat, count: int, k: nat)
    requires from <= k < from + count && k < |lines|
    requires forall j :: from <= j < k ==> EdgeLineOk(lines[j])
    requires !EdgeLineOk(lines[k])
    ensures EdgeLines(g, lines, from, count) == Failure(EdgeLineError(lines[k]))
  {
    forall h, l ensures (EdgeStep(h, l).Success? <==> EdgeLineOk(l))
                     && (!EdgeLineOk(l) ==> EdgeStep(h, l) == Failure(EdgeLineError(l))) {
      EdgeStepOk(h, l);
    }
    StepLinesFirstError(EdgeStep, EdgeLineOk, EdgeLineError, g, lines, from, count, k);
  }

  /**
   * Once the header is read, the read succeeds exactly when the node count is non-negative,
   * the text has a line for every announced node and edge, every node line is empty or a
   * number, and every edge line is empty or an edge between two distinct stations by a known
   * transport.
   */
  lemma ReadBodySucceedsIff(lines: seq<string>, n: int32, e: int32)
    requires lines != []
    ensures ReadBody(lines, n, e).Success?
        <==> && n >= 0
             && 1 + n as int + (if e < 0 then 0 else e as int) <= |lines|
             && (forall k :: 1 <= k < 1 + n as int ==> NodeLineOk(lines[k]))
             && (forall k :: 1 + n as int <= k < 1 + n as int + e as int ==> EdgeLineOk(lines[k]))
  {
    if n >= 0 {
      NodeLinesSucceedsIff(EmptyGraph, lines, 1, n as int);
      if NodeLines(EmptyGraph, lines, 1, n as int).Success? {
        EdgeLinesSucceedsIff(NodeLines(EmptyGraph, lines, 1, n as int).value, lines, 1 + n as int, e as int);
      }
    }
  }

  /**
   * A read succeeds exactly when the text has a header of two numbers and the rest of it is
   * accepted as `ReadBodySucceedsIff` states.
   */
  lemma ReadGraphSucceedsIff(content: string)
    ensures ReadGraphSpec(content).Success?
        <==> var lines := Lines(content);
             && lines != []
             && ParseHeader(lines[0]).Success?
             && var n, e := ParseHeader(lines[0]).value.0 as int, ParseHeader(lines[0]).value.1 as int;
                && n >= 0
                && 1 + n + (if e < 0 then 0 else e) <= |lines|
                && (forall k :: 1 <= k < 1 + n ==> NodeLineOk(lines[k]))
                && (forall k :: 1 + n <= k < 1 + n + e ==> EdgeLineOk(lines[k]))
  {
    var lines := Lines(content);
    if lines != [] && ParseHeader(lines[0]).Success? {
      var (n, e) := ParseHeader(lines[0]).value;
      ReadBodySucceedsIff(lines, n, e);
    }
  }

  /**
   * A node line that is not a number, with every line before it accepted, ends the read with
   * `NumberFormatException`.
   */
  lemma ReadBodyBadNode(lines: seq<string>, n: int32, e: int32, k: nat)
    requires 1 <= k < 1 + n as int && k < |lines|
    requires forall j :: 1 <= j < k ==> NodeLineOk(lines[j])
    requires !NodeLineOk(lines[k])
    ensures ReadBody(lines, n, e) == Failure(BadNumber)
  {
    NodeLinesFirstError(EmptyGraph, lines, 1, n as int, k);
  }

  /**
   * A rejected edge line, with every node line and every edge line before it accepted, ends the
   * read with that line's exception: a bad field count, a bad number, an unknown transport or
   * a self-loop.
   */
  lemma ReadBodyBadEdge(lines: seq<string>, n: int32, e: int32, k: nat)
    requires n >= 0 && 1 + n as int <= k < 1 + n as int + e as int && k < |lines|
    requires forall j :: 1 <= j < 1 + n as int ==> NodeLineOk(lines[j])
    requires forall j :: 1 + n as int <= j < k ==> EdgeLineOk(lines[j])
    requires !EdgeLineOk(lines[k])
    ensures ReadBody(lines, n, e) == Failure(EdgeLineError(lines[k]))
  {
    NodeLinesSucceedsIff(EmptyGraph, lines, 1, n as int);
    EdgeLinesFirstError(NodeLines(EmptyGraph, lines, 1, n as int).value, lines, 1 + n as int, e as int, k);
  }

  /**
   * A text whose header holds two numbers and whose node line `k` is the first rejected one
   * makes `readGraph` throw `NumberFormatException`.
   */
  lemma ReadGraphBadNode(content: string, k: nat)
    requires var lines := Lines(content);
             && lines != [] && ParseHeader(lines[0]).Success?
             && 1 <= k < 1 + ParseHeader(lines[0]).value.0 as int && k < |lines|
             && (forall j :: 1 <= j < k ==> NodeLineOk(lines[j]))
             && !NodeLineOk(lines[k])
    ensures ReadGraphSpec(content) == Failure(BadNumber)
  {
    var lines := Lines(content);
    var (n, e) := ParseHeader(lines[0]).value;
    assert ReadGraphSpec(content) == ReadBody(lines, n, e);
    ReadBodyBadNode(lines, n, e, k);
  }

  /**
   * A text whose header holds two numbers, whose node lines are all accepted and whose edge
   * line `k` is the first rejected one makes `readGraph` throw that line's exception.
   */
  lemma ReadGraphBadEdge(content: string, k: nat)
    requires var lines := Lines(content);
             && lines != [] && ParseHeader(lines[0]).Success?
             && var n, e := ParseHeader(lines[0]).value.0 as int, ParseHeader(lines[0]).value.1 as int;
                && n >= 0 && 1 + n <= k < 1 + n + e && k < |lines|
                && (forall j :: 1 <= j < 1 + n ==> NodeLineOk(lines[j]))
                && (forall j :: 1 + n <= j < k ==> EdgeLineOk(lines[j]))
                && !EdgeLineOk(lines[k])
    ensures ReadGraphSpec(content) == Failure(EdgeLineError(Lines(content)[k]))
  {
    var lines := Lines(content);
    var (n, e) := ParseHeader(lines[0]).value;
    assert ReadGraphSpec(content) == ReadBody(lines, n, e);
    ReadBodyBadEdge(lines, n, e, k);
  }

  /** Once the header is read, the read never fails for want of a line to start from. */
  lemma ReadBodyNeverNoLines(lines: seq<string>, n: int32, e: int32)
    ensures ReadBody(lines, n, e) != Failure(NoLines)
  {
    if n >= 0 {
      forall h, l ensures NodeStep(h, l) != Failure(NoLines) && EdgeStep(h, l) != Failure(NoLines) {
        NodeStepOk(h, l);
        EdgeStepOk(h, l);
      }
      StepLinesNeverNoLines(NodeStep, EmptyGraph, lines, 1, n as int);
      if NodeLines(EmptyGraph, lines, 1, n as int).Success? {
        var afterNodes := NodeLines(EmptyGraph, lines, 1, n as int).value;
        assert ReadBody(lines, n, e) == EdgeLines(afterNodes, lines, 1 + n as int, e as int);
        StepLinesNeverNoLines(EdgeStep, afterNodes, lines, 1 + n as int, e as int);
      }
    }
  }
}
