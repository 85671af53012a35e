/** Moves: a single move with one ticket, or a double move with two tickets and a double ticket. */
module Moves {
  import opened JavaInts
  import opened Pieces
  import opened ScotlandYard

  datatype SingleMove = SingleMove(piece: Piece, source: int32, ticket: Ticket, destination: int32)

  datatype DoubleMove = DoubleMove(
    piece: Piece, source: int32,
    ticket1: Ticket, destination1: int32,
    ticket2: Ticket, destination2: int32)

  /** The closed sum of the two move classes. */
  datatype Move = Single(single: SingleMove) | Double(double: DoubleMove)

  /** `commencedBy()`: the piece given to the constructor. */
  function CommencedBy(m: Move): (p: Piece)
    ensures m.Single? ==> p == m.single.piece
    ensures m.Double? ==> p == m.double.piece
  {
    match m
    case Single(s) => s.piece
    case Double(d) => d.piece
  }

  /** `source()`: the location given to the constructor. */
  function Source(m: Move): (l: int32)
    ensures m.Single? ==> l == m.single.source
    ensures m.Double? ==> l == m.double.source
  {
    match m
    case Single(s) => s.source
    case Double(d) => d.source
  }

  /** `tickets()`: one ticket for a single move; two tickets then `DOUBLE` for a double move. */
  function Tickets(m: Move): (ts: seq<Ticket>)
    ensures m.Single? ==> ts == [m.single.ticket]
    ensures m.Double? ==> |ts| == 3 && ts[2] == ScotlandYard.Double
    ensures m.Double? ==> ts[0] == m.double.ticket1 && ts[1] == m.double.ticket2
  {
    match m
    case Single(s) => [s.ticket]
    case Double(d) => [d.ticket1, d.ticket2, ScotlandYard.Double]
  }

  /** `Visitor<T>`: one case per move class. */
  datatype Visitor<T> = Visitor(visitSingle: SingleMove -> T, visitDouble: DoubleMove -> T)

  /** `FunctionalVisitor(smf, dmf)`: a visitor that applies `smf` or `dmf`. */
  function FunctionalVisitor<T>(smf: SingleMove -> T, dmf: DoubleMove -> T): (v: Visitor<T>)
    ensures forall s :: v.visitSingle(s) == smf(s)
    ensures forall d :: v.visitDouble(d) == dmf(d)
  {
    Visitor(smf, dmf)
  }

  /** `accept(visitor)`: each move class calls the visitor case for its own class. */
  function Accept<T>(m: Move, v: Visitor<T>): (r: T)
    ensures m.Single? ==> r == v.visitSingle(m.single)
    ensures m.Double? ==> r == v.visitDouble(m.double)
  {
    match m
    case Single(s) => v.visitSingle(s)
    case Double(d) => v.visitDouble(d)
  }

  /** Through a functional visitor, a single move reaches `smf` and a double move `dmf`. */
  lemma AcceptFunctionalVisitor<T>(m: Move, smf: SingleMove -> T, dmf: DoubleMove -> T)
    ensures m.Single? ==> Accept(m, FunctionalVisitor(smf, dmf)) == smf(m.single)
    ensures m.Double? ==> Accept(m, FunctionalVisitor(smf, dmf)) == dmf(m.double)
  {
  }

  /** The two `equals` methods: same class, then every field compared. */
  function Equals(a: Move, b: Move): (r: bool)
    ensures r <==> a == b
    ensures a.Single? != b.Single? ==> !r
  {
    match (a, b)
    case (Single(x), Single(y)) =>
      x.source == y.source && x.destination == y.destination &&
      x.piece == y.piece && x.ticket == y.ticket
    case (Double(x), Double(y)) =>
      x.piece == y.piece && x.source == y.source &&
      x.ticket1 == y.ticket1 && x.destination1 == y.destination1 &&
      x.ticket2 == y.ticket2 && x.destination2 == y.destination2
    case _ => false
  }

  /** The identity hash codes of the enum constants, which the JVM chooses at run time. */
  datatype EnumHashes = EnumHashes(piece: Piece -> int32, ticket: Ticket -> int32)

  /**
   * The mathematical value behind `Arrays.hashCode`: the polynomial in 31 whose leading
   * coefficient is 1 and whose other coefficients are the element hash codes, in order.
   */
  function HashPolynomial(hs: seq<int32>): int
    decreases |hs|
  {
    if hs == [] then 1 else 31 * HashPolynomial(hs[..|hs| - 1]) + hs[|hs| - 1] as int
  }

  /**
   * `Arrays.hashCode` on element hash codes: `31 * h + e` from 1, in Java `int` arithmetic.
   * Wrapping at every step gives the `int` that wrapping the whole polynomial once gives.
   */
  function ObjectsHash(hs: seq<int32>): (h: int32)
    ensures h == Wrap(HashPolynomial(hs))
    decreases |hs|
  {
    if hs == [] then 1
    else
      var init := hs[..|hs| - 1];
      WrapMulAdd(31, HashPolynomial(init), hs[|hs| - 1] as int);
      Wrap(31 * ObjectsHash(init) as int + hs[|hs| - 1] as int)
  }

  /** The fields each class hashes; the source is not among them. */
  function HashedFields(m: Move, e: EnumHashes): (hs: seq<int32>)
    ensures |hs| == if m.Single? then 3 else 5
  {
    match m
    case Single(s) => [e.piece(s.piece), e.ticket(s.ticket), s.destination]
    case Double(d) =>
      [e.piece(d.piece), e.ticket(d.ticket1), d.destination1, e.ticket(d.ticket2), d.destination2]
  }

  /** `hashCode()`: the hashed fields' polynomial in 31, wrapped to an `int`. */
  function HashCode(m: Move, e: EnumHashes): (h: int32)
    ensures h == Wrap(HashPolynomial(HashedFields(m, e)))
  {
    ObjectsHash(HashedFields(m, e))
  }

  /**
   * `equals` and `hashCode` agree: the hashed fields are a subset of the compared ones, so
   * equal moves hash alike, and so do moves that differ only in their source.
   */
  lemma HashConsistentWithEquals(a: Move, b: Move, e: EnumHashes)
    ensures Equals(a, b) ==> HashCode(a, e) == HashCode(b, e)
    ensures a.Single? && b.Single? && a.single.(source := b.single.source) == b.single ==>
      HashCode(a, e) == HashCode(b, e)
    ensures a.Double? && b.Double? && a.double.(source := b.double.source) == b.double ==>
      HashCode(a, e) == HashCode(b, e)
  {
  }
}
