/**
 * Conversion between axial coordinates and three-field cube positions
 * (x, y, z), where x is q, z is r and y is the dependent -q - r.
 */
module CoordUtils {
  import opened Axial

  datatype Position = Position(x: int, y: int, z: int)

  /** A cube position is well formed when its three fields sum to zero. */
  predicate IsCube(p: Position) {
    p.x + p.y + p.z == 0
  }

  function PositionToAxial(position: Position): (a: Axial)
    ensures a.q == position.x && a.r == position.z
  {
    Axial.New(position.x, position.z)
  }

  function AxialToPosition(axial: Axial): (p: Position)
    ensures IsCube(p)
    ensures p.x == axial.q && p.z == axial.r
  {
    Position(axial.q, -axial.q - axial.r, axial.r)
  }

  /** Converting to cube form and back gives the same axial coordinate. */
  lemma AxialRoundTrip(a: Axial)
    ensures PositionToAxial(AxialToPosition(a)) == a
  {
  }

  /** Every well-formed cube position is the image of its axial form. */
  lemma CubeRoundTrip(p: Position)
    requires IsCube(p)
    ensures AxialToPosition(PositionToAxial(p)) == p
  {
  }
}
