/**
 * The older offset grid: cells are (x, y) with rows of alternating
 * parity; a step straight north or south moves two rows, and whether a
 * diagonal step changes x depends on whether the row y is even.
 * The source's `y % 2 == 0` truncates toward zero, but a remainder of
 * zero means "even" under either convention, so Dafny's `%` is used.
 */
module Position {

  datatype Position = Position(x: int, y: int) {

    static function New(x: int, y: int): (p: Position)
      ensures p.x == x && p.y == y
    {
      Position(x, y)
    }

    predicate EvenRow() {
      y % 2 == 0
    }

    /** The six neighbours, in the order N, NE, SE, S, SW, NW. */
    function GetAllAdjacent(): (s: seq<Position>)
      ensures |s| == 6
      ensures s[0].y == y - 2 && s[3].y == y + 2
      ensures s[1].y == y - 1 && s[5].y == y - 1
      ensures s[2].y == y + 1 && s[4].y == y + 1
      ensures s[0].x == x && s[3].x == x
      ensures s[1].x == s[2].x == if EvenRow() then x else x + 1
      ensures s[4].x == s[5].x == if EvenRow() then x - 1 else x
    {
      [North(), NorthEast(), SouthEast(), South(), SouthWest(), NorthWest()]
    }

    function North(): (n: Position)
      ensures n.x == x && n.y == y - 2
    {
      New(x, y - 2)
    }

    function NorthEast(): (n: Position)
      ensures n.y == y - 1 && (n.x == x + 1 <==> !EvenRow()) && (n.x == x <==> EvenRow())
    {
      New(if y % 2 == 0 then x else x + 1, y - 1)
    }

    function SouthEast(): (n: Position)
      ensures n.y == y + 1 && (n.x == x + 1 <==> !EvenRow()) && (n.x == x <==> EvenRow())
    {
      New(if y % 2 == 0 then x else x + 1, y + 1)
    }

    function South(): (n: Position)
      ensures n.x == x && n.y == y + 2
    {
      New(x, y + 2)
    }

    function SouthWest(): (n: Position)
      ensures n.y == y + 1 && (n.x == x - 1 <==> EvenRow()) && (n.x == x <==> !EvenRow())
    {
      New(if y % 2 == 0 then x - 1 else x, y + 1)
    }

    function NorthWest(): (n: Position)
      ensures n.y == y - 1 && (n.x == x - 1 <==> EvenRow()) && (n.x == x <==> !EvenRow())
    {
      New(if y % 2 == 0 then x - 1 else x, y - 1)
    }
  }

  /** Opposite steps cancel, on rows of either parity. */
  lemma OppositesCancel(p: Position)
    ensures p.North().South() == p && p.South().North() == p
    ensures p.NorthEast().SouthWest() == p && p.SouthWest().NorthEast() == p
    ensures p.SouthEast().NorthWest() == p && p.NorthWest().SouthEast() == p
  {
  }

  /** The six adjacent positions are pairwise distinct and differ from the cell itself. */
  lemma AdjacentDistinct(p: Position)
    ensures forall i, j :: 0 <= i < j < 6 ==> p.GetAllAdjacent()[i] != p.GetAllAdjacent()[j]
    ensures p !in p.GetAllAdjacent()
  {
  }

  /** The worked examples of the direction tests. */
  lemma DirectionExamples()
    ensures Position(0, 0).North() == Position(0, -2)
    ensures Position(3, 3).North() == Position(3, 1)
    ensures Position(0, 0).NorthEast() == Position(0, -1)
    ensures Position(0, 1).NorthEast() == Position(1, 0)
    ensures Position(0, 0).SouthEast() == Position(0, 1)
    ensures Position(0, 1).SouthEast() == Position(1, 2)
    ensures Position(0, 0).South() == Position(0, 2)
    ensures Position(3, 1).South() == Position(3, 3)
    ensures Position(0, 0).SouthWest() == Position(-1, 1)
    ensures Position(0, 1).SouthWest() == Position(0, 2)
    ensures Position(0, 0).NorthWest() == Position(-1, -1)
    ensures Position(0, 1).NorthWest() == Position(0, 0)
  {
  }
}
