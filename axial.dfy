/**
 * Axial hex coordinates: a cell is (q, r); its six neighbours lie at fixed
 * offsets, listed N, NE, SE, S, SW, NW. Coordinates are unbounded integers
 * (the source's `i32` overflow is not modelled).
 */
module Axial {
  import opened Cmp
  import opened Wrappers
  import Fmt

  /** The offsets (dq, dr) of the six neighbours, in the order N, NE, SE, S, SW, NW. */
  const Offsets: seq<(int, int)> := [(0, -1), (1, -1), (1, 0), (0, 1), (-1, 1), (-1, 0)]

  datatype Axial = Axial(q: int, r: int) {

    static function New(q: int, r: int): (a: Axial)
      ensures a.q == q && a.r == r
    {
      Axial(q, r)
    }

    /** The origin, where the first tile goes. */
    static function Zero(): (a: Axial)
      ensures a.q == 0 && a.r == 0
    {
      New(0, 0)
    }

    /** The row of the cell on screen, in half-hex steps; cells of one column sit on rows of the column's parity. */
    function VerticalPos(): (v: int)
      ensures v % 2 == q % 2
    {
      q + r + r
    }

    function North(): (n: Axial)
      ensures n.q == q && n.VerticalPos() == VerticalPos() - 2
    {
      New(q, r - 1)
    }

    function NorthEast(): (n: Axial)
      ensures n.q == q + 1 && n.VerticalPos() == VerticalPos() - 1
    {
      New(q + 1, r - 1)
    }

    function SouthEast(): (n: Axial)
      ensures n.q == q + 1 && n.VerticalPos() == VerticalPos() + 1
    {
      New(q + 1, r)
    }

    function South(): (n: Axial)
      ensures n.q == q && n.VerticalPos() == VerticalPos() + 2
    {
      New(q, r + 1)
    }

    function SouthWest(): (n: Axial)
      ensures n.q == q - 1 && n.VerticalPos() == VerticalPos() + 1
    {
      New(q - 1, r + 1)
    }

    function NorthWest(): (n: Axial)
      ensures n.q == q - 1 && n.VerticalPos() == VerticalPos() - 1
    {
      New(q - 1, r)
    }

    /** The six neighbours, in the order N, NE, SE, S, SW, NW. */
    function SurroundingPositions(): (s: seq<Axial>)
      ensures |s| == 6
      ensures forall i :: 0 <= i < 6 ==> s[i] == Axial(q + Offsets[i].0, r + Offsets[i].1)
    {
      [North(), NorthEast(), SouthEast(), South(), SouthWest(), NorthWest()]
    }

    /**
     * The hand-written total order: `other.q` is compared with `q` first
     * (so larger q sorts first), then `other.r` with `r`.
     */
    function Cmp(other: Axial): (o: Ordering)
      ensures o == Less <==> q > other.q || (q == other.q && r > other.r)
      ensures o == Equal <==> this == other
      ensures o == Greater <==> q < other.q || (q == other.q && r < other.r)
    {
      match Compare(other.q, q)
      case Equal => Compare(other.r, r)
      case Greater => Greater
      case Less => Less
    }

    function PartialCmp(other: Axial): (o: Option<Ordering>)
      ensures o.Some? && o.value == Cmp(other)
    {
      Some(Cmp(other))
    }

    /** `Display`: "(q, r)". */
    function ToString(): (s: string)
      ensures |s| >= 6 && s[0] == '(' && s[|s| - 1] == ')'
    {
      "(" + Fmt.IntToString(q) + ", " + Fmt.IntToString(r) + ")"
    }
  }

  /** `a <= b` in the order of Axial.Cmp. */
  predicate Le(a: Axial, b: Axial) {
    a.Cmp(b) != Greater
  }

  /** `a < b` in the order of Axial.Cmp. */
  predicate Lt(a: Axial, b: Axial) {
    a.Cmp(b) == Less
  }

  /** b is one of a's six neighbours. */
  predicate Adjacent(a: Axial, b: Axial) {
    b in a.SurroundingPositions()
  }

  /** Index of the direction opposite to direction i (N and S, NE and SW, SE and NW). */
  function Opposite(i: nat): (j: nat)
    requires i < 6
    ensures j < 6 && Offsets[j].0 == -Offsets[i].0 && Offsets[j].1 == -Offsets[i].1
  {
    (i + 3) % 6
  }

  lemma OppositesCancel(a: Axial)
    ensures a.North().South() == a && a.South().North() == a
    ensures a.NorthEast().SouthWest() == a && a.SouthWest().NorthEast() == a
    ensures a.SouthEast().NorthWest() == a && a.NorthWest().SouthEast() == a
  {
  }

  /** Stepping in direction i and then in the opposite direction returns to the start. */
  lemma StepBack(a: Axial, i: nat)
    requires i < 6
    ensures a.SurroundingPositions()[i].SurroundingPositions()[Opposite(i)] == a
  {
  }

  /** The six neighbours are pairwise distinct and none is the cell itself. */
  lemma NeighboursDistinct(a: Axial)
    ensures forall i, j :: 0 <= i < j < 6 ==> a.SurroundingPositions()[i] != a.SurroundingPositions()[j]
    ensures a !in a.SurroundingPositions()
  {
  }

  /** (dq, dr) is one of the six neighbour offsets. */
  predicate IsOffset(dq: int, dr: int) {
    (dq == 0 && dr == -1) || (dq == 1 && dr == -1) || (dq == 1 && dr == 0)
      || (dq == 0 && dr == 1) || (dq == -1 && dr == 1) || (dq == -1 && dr == 0)
  }

  /** The set of neighbour offsets is closed under negation. */
  lemma OffsetNegation(a: Axial, b: Axial)
    ensures IsOffset(a.q - b.q, a.r - b.r) <==> IsOffset(b.q - a.q, b.r - a.r)
  {
  }

  /** b is a neighbour of a exactly when b - a is one of the six offsets. */
  lemma AdjacentByOffset(a: Axial, b: Axial)
    ensures Adjacent(a, b) <==> IsOffset(b.q - a.q, b.r - a.r)
  {
    var s := a.SurroundingPositions();
    var d := (b.q - a.q, b.r - a.r);
    if d == Offsets[0] {
      assert s[0] == b;
    } else if d == Offsets[1] {
      assert s[1] == b;
    } else if d == Offsets[2] {
      assert s[2] == b;
    } else if d == Offsets[3] {
      assert s[3] == b;
    } else if d == Offsets[4] {
      assert s[4] == b;
    } else if d == Offsets[5] {
      assert s[5] == b;
    }
  }

  /** Adjacency is symmetric. */
  lemma AdjacencySymmetric(a: Axial, b: Axial)
    ensures Adjacent(a, b) <==> Adjacent(b, a)
  {
    if Adjacent(a, b) {
      var i :| 0 <= i < 6 && a.SurroundingPositions()[i] == b;
      StepBack(a, i);
    }
    if Adjacent(b, a) {
      var i :| 0 <= i < 6 && b.SurroundingPositions()[i] == a;
      StepBack(b, i);
    }
  }

  /** Axial.Cmp is a total order: antisymmetric, transitive and total, with Equal only on equal cells. */
  lemma CmpIsTotalOrder(a: Axial, b: Axial, c: Axial)
    ensures a.Cmp(b) == b.Cmp(a).Reverse()
    ensures Le(a, b) || Le(b, a)
    ensures Le(a, b) && Le(b, a) ==> a == b
    ensures Le(a, b) && Le(b, c) ==> Le(a, c)
    ensures Lt(a, b) && Le(b, c) ==> Lt(a, c)
    ensures Le(a, b) && Lt(b, c) ==> Lt(a, c)
  {
  }

  /** Display splits as "(" + (q + ",") + (" " + r + ")"). */
  lemma ToStringShape(a: Axial)
    ensures a.ToString()[1..] == (Fmt.IntToString(a.q) + [',']) + (" " + Fmt.IntToString(a.r) + ")")
  {
  }

  /** Display distinguishes every pair of coordinates. */
  lemma ToStringInjective(a: Axial, b: Axial)
    ensures a.ToString() == b.ToString() ==> a == b
  {
    if a.ToString() == b.ToString() {
      var qa, qb := Fmt.IntToString(a.q), Fmt.IntToString(b.q);
      var ra, rb := Fmt.IntToString(a.r), Fmt.IntToString(b.r);
      ToStringShape(a);
      ToStringShape(b);
      Fmt.DelimitedInt(a.q, ',');
      Fmt.DelimitedInt(b.q, ',');
      Fmt.SplitAtDelimiter(qa + [','], " " + ra + ")", qb + [','], " " + rb + ")", ',');
      assert qa == (qa + [','])[..|qa|];
      assert qb == (qb + [','])[..|qb|];
      assert ra == (" " + ra + ")")[1..|ra| + 1];
      assert rb == (" " + rb + ")")[1..|rb| + 1];
      Fmt.IntToStringInjective(a.q, b.q);
      Fmt.IntToStringInjective(a.r, b.r);
    }
  }

  /** Display holds its closing parenthesis only at its end. */
  lemma ToStringClosed(a: Axial)
    ensures var s := a.ToString();
      |s| >= 1 && s[|s| - 1] == ')' && forall k :: 0 <= k < |s| - 1 ==> s[k] != ')'
  {
  }
}
