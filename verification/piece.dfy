/** The coloured counters of the game: five detectives and the single Mr X piece. */
module Pieces {

  /** The detective colours, in declaration order. */
  datatype Detective = Red | Green | Blue | White | Yellow

  /** Every detective colour. */
  const AllDetectives: set<Detective> := {Red, Green, Blue, White, Yellow}

  lemma AllDetectivesComplete()
    ensures forall d: Detective :: d in AllDetectives
  {
    forall d: Detective
      ensures d in AllDetectives
    {
      match d
      case Red =>
      case Green =>
      case Blue =>
      case White =>
      case Yellow =>
    }
  }

  /** A piece is one of the detective constants or the only constant of the Mr X enum. */
  datatype Piece = DetectivePiece(detective: Detective) | MrX

  /** The HTML colour of a piece. */
  function WebColour(p: Piece): (c: string)
    ensures |c| == 4 && c[0] == '#'
    ensures forall j :: 1 <= j < 4 ==> c[j] == '0' || c[j] == 'f'
  {
    match p
    case DetectivePiece(Red) => "#f00"
    case DetectivePiece(Green) => "#0f0"
    case DetectivePiece(Blue) => "#00f"
    case DetectivePiece(White) => "#fff"
    case DetectivePiece(Yellow) => "#ff0"
    case MrX => "#000"
  }

  /** Every detective constant answers true, the Mr X constant false. */
  predicate IsDetective(p: Piece)
    ensures IsDetective(p) <==> p != MrX
  {
    match p
    case DetectivePiece(_) => true
    case MrX => false
  }

  /** The interface default: the negation of `IsDetective`, so only Mr X answers true. */
  predicate IsMrX(p: Piece)
    ensures IsMrX(p) <==> p == MrX
  {
    !IsDetective(p)
  }

  /** The web colour identifies the piece: no two pieces share one. */
  lemma WebColourInjective(p: Piece, q: Piece)
    ensures WebColour(p) == WebColour(q) <==> p == q
  {
    if p != q {
      var cp, cq := WebColour(p), WebColour(q);
      assert cp[1..] != cq[1..];
    }
  }
}
