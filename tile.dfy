/**
 * The older tile representation: a closed set of five tile kinds, each of
 * which can render itself as one character, and the standard set of
 * eleven tiles each player starts with. The source's trait objects behind
 * reference-counted pointers are plain values here, and the factory
 * functions `ant`, `queen`, `grass_hopper`, `beetle` and `spider` are the
 * datatype's constructors.
 */
module Tile {

  datatype Tile = Ant | Queen | GrassHopper | Beetle | Spider {
    /**
     * The glyph drawn in the centre of the tile's hexagon. The Beetle's is
     * 'B'; the other four kinds' glyphs are defined in files outside this
     * model and are stood in for by their initials.
     */
    function Render(): (c: char)
      ensures this == Beetle ==> c == 'B'
    {
      match this
      case Ant => 'A'
      case Queen => 'Q'
      case GrassHopper => 'G'
      case Beetle => 'B'
      case Spider => 'S'
    }
  }

  /** How many times `t` occurs in `tiles`. */
  function Count(tiles: seq<Tile>, t: Tile): nat {
    multiset(tiles)[t]
  }

  /** The eleven tiles of a standard game, queen first. */
  function StandardGameTiles(): (tiles: seq<Tile>)
    ensures |tiles| == 11
    ensures tiles[0] == Queen
  {
    [Queen, Beetle, Beetle, Spider, Spider, Ant, Ant, Ant, GrassHopper, GrassHopper, GrassHopper]
  }

  /** A standard game has one queen, two beetles, two spiders, three ants and three grasshoppers. */
  lemma StandardGameTilesCounts(t: Tile)
    ensures Count(StandardGameTiles(), t) == match t
      case Queen => 1
      case Beetle | Spider => 2
      case Ant | GrassHopper => 3
  {
    var tiles := StandardGameTiles();
    assert multiset(tiles) == multiset{Queen, Beetle, Beetle, Spider, Spider, Ant, Ant, Ant, GrassHopper, GrassHopper, GrassHopper};
  }
}
