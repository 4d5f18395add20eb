/**
 * A tile on the board: which tile, whose it is, and where it sits.
 * Placed tiles are equal, and ordered, by position alone.
 */
module PlacedTile {
  import opened Wrappers
  import opened Cmp
  import opened Axial
  import opened PlayerNumber
  import opened Tile

  datatype PlacedTile = PlacedTile(tile: Tile, player: PlayerNumber, position: Axial) {

    static function New(tile: Tile, position: Axial, player: PlayerNumber): (t: PlacedTile)
      ensures t.tile == tile && t.position == position && t.player == player
    {
      PlacedTile(tile, player, position)
    }

    /** `PartialEq`: same position, whatever the tile and the player. */
    predicate Eq(other: PlacedTile) {
      position == other.position
    }

    /** `Ord`: the order of the positions. */
    function Cmp(other: PlacedTile): (o: Ordering)
      ensures o == Equal <==> Eq(other)
      ensures o == Less <==> Lt(position, other.position)
      ensures o == Greater <==> Lt(other.position, position)
    {
      position.Cmp(other.position)
    }

    function PartialCmp(other: PlacedTile): (o: Option<Ordering>)
      ensures o == Some(Cmp(other))
    {
      position.PartialCmp(other.position)
    }
  }

  /** Eq is an equivalence, and Cmp is a total preorder consistent with it. */
  lemma EqAndCmpConsistent(a: PlacedTile, b: PlacedTile, c: PlacedTile)
    ensures a.Eq(a)
    ensures a.Eq(b) <==> b.Eq(a)
    ensures a.Eq(b) && b.Eq(c) ==> a.Eq(c)
    ensures a.Cmp(b) == b.Cmp(a).Reverse()
    ensures a.Cmp(b) != Greater && b.Cmp(c) != Greater ==> a.Cmp(c) != Greater
  {
    CmpIsTotalOrder(a.position, b.position, c.position);
  }

  /** Tiles that differ only in tile kind and player are still equal. */
  lemma EqIgnoresTileAndPlayer(a: PlacedTile, t: Tile, p: PlayerNumber)
    ensures a.Eq(PlacedTile(t, p, a.position))
    ensures a.Cmp(PlacedTile(t, p, a.position)) == Equal
  {
  }
}
