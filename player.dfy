/**
 * A player: the tiles still in hand and which player it is. It always
 * plays its first tile on the first cell the board offers.
 */
module Player {
  import opened Axial
  import opened PlayerNumber
  import opened Tile
  import opened Board

  datatype Player = Player(tiles: seq<Tile>, number: PlayerNumber) {

    static function New(tiles: seq<Tile>, number: PlayerNumber): (p: Player)
      ensures p.tiles == tiles && p.number == number
    {
      Player(tiles, number)
    }

    /**
     * The first tile in hand and the first cell the board offers this
     * player: the origin on an empty board, the origin's north neighbour
     * on a one-tile board, otherwise the least Placeable cell in the Axial
     * order. Both lists must be non-empty.
     */
    method GetTilePlacement(board: Board) returns (tile: Tile, position: Axial)
      requires |tiles| > 0
      requires |board.tiles| >= 2 ==> exists p :: Placeable(board.tiles, number, p)
      ensures tile == tiles[0]
      ensures
        if |board.tiles| == 0 then position == Axial.Zero()
        else if |board.tiles| == 1 then position == Axial.Zero().North()
        else (Placeable(board.tiles, number, position)
          && forall p :: Placeable(board.tiles, number, p) ==> Le(position, p))
    {
      var placements := board.GetPossibleTilePlacements(number);
      if |board.tiles| >= 2 {
        ghost var p :| Placeable(board.tiles, number, p);
        assert p in placements;
      }
      tile := tiles[0];
      position := placements[0];
      if |board.tiles| >= 2 {
        forall p | Placeable(board.tiles, number, p)
          ensures Le(position, p)
        {
          assert p in placements;
          var i :| 0 <= i < |placements| && placements[i] == p;
          if i > 0 {
            assert Lt(placements[0], placements[i]);
          }
          CmpIsTotalOrder(position, p, p);
        }
      }
    }
  }
}
