/**
 * The board: a map from cell to the tile placed there, plus the renderer
 * that every placement is also pushed to. The placement rule is rescanned
 * from the map on every call.
 */
module Board {
  import opened Wrappers
  import opened Axial
  import opened PlayerNumber
  import opened Tile
  import opened PlacedTile
  import opened Render

  /** Sorted in the Axial order. */
  predicate Sorted(s: seq<Axial>) {
    forall i, j :: 0 <= i < j < |s| ==> Le(s[i], s[j])
  }

  /** Sorted in the Axial order with no element repeated. */
  predicate StrictlySorted(s: seq<Axial>) {
    forall i, j :: 0 <= i < j < |s| ==> Lt(s[i], s[j])
  }

  /** Every occupied neighbour of `p` holds a tile of `player`. */
  predicate AdjacentTilesAllSamePlayer(tiles: map<Axial, PlacedTile>, p: Axial, player: PlayerNumber) {
    forall i :: 0 <= i < 6 && p.SurroundingPositions()[i] in tiles ==>
      tiles[p.SurroundingPositions()[i]].player == player
  }

  /** `p` is one of the six neighbours of some cell of `cells`. */
  ghost predicate NextToAny(cells: set<Axial>, p: Axial) {
    exists c :: c in cells && p in c.SurroundingPositions()
  }

  /**
   * Where `player` may put a new tile once two or more are down: a free
   * cell next to a placed tile, all of whose occupied neighbours are the
   * player's.
   */
  ghost predicate Placeable(tiles: map<Axial, PlacedTile>, player: PlayerNumber, p: Axial) {
    p !in tiles && NextToAny(tiles.Keys, p) && AdjacentTilesAllSamePlayer(tiles, p, player)
  }

  /** The all-same-player test over the six neighbour cells is a test over the occupied cells next to `p`. */
  lemma AllSameByCells(tiles: map<Axial, PlacedTile>, p: Axial, player: PlayerNumber)
    ensures AdjacentTilesAllSamePlayer(tiles, p, player) <==>
      forall c :: c in tiles && Adjacent(p, c) ==> tiles[c].player == player
  {
    var s := p.SurroundingPositions();
    if AdjacentTilesAllSamePlayer(tiles, p, player) {
      forall c | c in tiles && Adjacent(p, c)
        ensures tiles[c].player == player
      {
        var i :| 0 <= i < 6 && s[i] == c;
      }
    }
  }

  lemma NextToAnyStep(cells: set<Axial>, c: Axial, p: Axial)
    ensures NextToAny(cells + {c}, p) <==> NextToAny(cells, p) || p in c.SurroundingPositions()
  {
    if p in c.SurroundingPositions() {
      assert c in cells + {c};
    }
    if NextToAny(cells, p) {
      var d :| d in cells && p in d.SurroundingPositions();
      assert d in cells + {c};
    }
  }

  /**
   * Two strictly sorted sequences with the same elements are equal: a
   * sorted, de-duplicated listing of a set is unique.
   */
  lemma {:induction false} SortedUnique(a: seq<Axial>, b: seq<Axial>)
    requires StrictlySorted(a) && StrictlySorted(b)
    requires forall p :: p in a <==> p in b
    ensures a == b
  {
    assert a == [] <==> b == [] by {
      if a != [] {
        assert a[0] in b;
      }
      if b != [] {
        assert b[0] in a;
      }
    }
    if a != [] {
      assert a[0] in b && b[0] in a;
      var j :| 0 <= j < |b| && b[j] == a[0];
      var k :| 0 <= k < |a| && a[k] == b[0];
      assert j == 0 || k == 0;
      assert a[0] == b[0];
      forall p
        ensures p in a[1..] <==> p in b[1..]
      {
        assert a == [a[0]] + a[1..] && b == [b[0]] + b[1..];
        if p in a[1..] {
          var i :| 1 <= i < |a| && a[i] == p;
          assert Lt(a[0], a[i]);
          assert a[i] in a;
          var m :| 0 <= m < |b| && b[m] == p;
          assert m != 0;
          assert b[1..][m - 1] == p;
        }
        if p in b[1..] {
          var i :| 1 <= i < |b| && b[i] == p;
          assert Lt(b[0], b[i]);
          assert b[i] in b;
          var m :| 0 <= m < |a| && a[m] == p;
          assert m != 0;
          assert a[1..][m - 1] == p;
        }
      }
      SortedUnique(a[1..], b[1..]);
      assert a == [a[0]] + a[1..] && b == [b[0]] + b[1..];
    }
  }

  /** A sequence whose neighbours are in order is strictly sorted. */
  lemma {:induction false} ChainStrictlySorted(s: seq<Axial>)
    requires forall i :: 0 <= i < |s| - 1 ==> Lt(s[i], s[i + 1])
    ensures StrictlySorted(s)
  {
    if |s| > 1 {
      ChainStrictlySorted(s[1..]);
      forall j | 1 <= j < |s|
        ensures Lt(s[0], s[j])
      {
        if j > 1 {
          assert Lt(s[1..][0], s[1..][j - 1]);
          CmpIsTotalOrder(s[0], s[1], s[j]);
        }
      }
      forall i, j | 0 <= i < j < |s|
        ensures Lt(s[i], s[j])
      {
        if i > 0 {
          assert Lt(s[1..][i - 1], s[1..][j - 1]);
        }
      }
    }
  }

  /** Sequences with the same multiset have the same elements. */
  lemma SameElements(s: seq<Axial>, t: seq<Axial>)
    requires multiset(s) == multiset(t)
    ensures forall p :: p in s <==> p in t
  {
    forall p
      ensures p in s <==> p in t
    {
      assert p in s <==> p in multiset(s);
      assert p in t <==> p in multiset(t);
    }
  }

  /** `x` inserted into the sorted `s` after every element not above it. */
  method InsertSorted(s: seq<Axial>, x: Axial) returns (r: seq<Axial>)
    requires Sorted(s)
    ensures Sorted(r) && multiset(r) == multiset(s) + multiset{x}
  {
    var k := 0;
    while k < |s| && Le(s[k], x)
      invariant 0 <= k <= |s|
      invariant forall i :: 0 <= i < k ==> Le(s[i], x)
    {
      k := k + 1;
    }
    r := s[..k] + [x] + s[k..];
    InsertionPoint(s, x, k);
  }

  /**
   * Inserting `x` at an index with everything before it at most `x` and
   * the next element above it keeps `s` sorted and adds exactly `x`.
   */
  lemma InsertionPoint(s: seq<Axial>, x: Axial, k: nat)
    requires Sorted(s) && k <= |s|
    requires forall i :: 0 <= i < k ==> Le(s[i], x)
    requires k < |s| ==> !Le(s[k], x)
    ensures Sorted(s[..k] + [x] + s[k..])
    ensures multiset(s[..k] + [x] + s[k..]) == multiset(s) + multiset{x}
  {
    forall i, j | 0 <= i < j < |s| + 1
      ensures Le((s[..k] + [x] + s[k..])[i], (s[..k] + [x] + s[k..])[j])
    {
      InsertionPair(s, x, k, i, j);
    }
    assert s == s[..k] + s[k..];
  }

  /** One pair of positions of the sequence InsertionPoint builds. */
  lemma InsertionPair(s: seq<Axial>, x: Axial, k: nat, i: nat, j: nat)
    requires Sorted(s) && k <= |s| && i < j <= |s|
    requires forall i :: 0 <= i < k ==> Le(s[i], x)
    requires k < |s| ==> !Le(s[k], x)
    ensures Le((s[..k] + [x] + s[k..])[i], (s[..k] + [x] + s[k..])[j])
  {
    var r := s[..k] + [x] + s[k..];
    if j < k {
      assert r[i] == s[i] && r[j] == s[j];
    } else if j == k {
      assert r[i] == s[i] && r[j] == x;
    } else if i < k {
      assert r[i] == s[i] && r[j] == s[j - 1];
    } else if i == k {
      assert r[i] == x && r[j] == s[j - 1];
      assert Le(s[k], s[j - 1]);
      CmpIsTotalOrder(x, s[k], s[j - 1]);
    } else {
      assert r[i] == s[i - 1] && r[j] == s[j - 1];
    }
  }

  /** The ordering `sort` gives the collected cells, modelled as insertion sort. */
  method Sort(s: seq<Axial>) returns (r: seq<Axial>)
    ensures Sorted(r) && multiset(r) == multiset(s)
  {
    r := [];
    for n := 0 to |s|
      invariant Sorted(r) && multiset(r) == multiset(s[..n])
    {
      r := InsertSorted(r, s[n]);
      assert s[..n + 1] == s[..n] + [s[n]];
    }
    assert s[..|s|] == s;
  }

  /**
   * `dedup`: drops every element equal to the one before it; the same
   * elements remain, and a sorted input comes out strictly sorted.
   */
  method Dedup(s: seq<Axial>) returns (r: seq<Axial>)
    ensures forall p :: p in r <==> p in s
    ensures forall i :: 0 <= i < |r| - 1 ==> r[i] != r[i + 1]
    ensures Sorted(s) ==> StrictlySorted(r)
  {
    r := [];
    for n := 0 to |s|
      invariant forall p :: p in r <==> p in s[..n]
      invariant forall i :: 0 <= i < |r| - 1 ==> r[i] != r[i + 1]
      invariant n > 0 <==> |r| > 0
      invariant n > 0 ==> r[|r| - 1] == s[n - 1]
      invariant Sorted(s) ==> StrictlySorted(r)
    {
      assert s[..n + 1] == s[..n] + [s[n]];
      if |r| == 0 || r[|r| - 1] != s[n] {
        if Sorted(s) && |r| > 0 {
          forall i | 0 <= i < |r|
            ensures Lt(r[i], s[n])
          {
            CmpIsTotalOrder(r[i], r[|r| - 1], s[n]);
          }
        }
        r := r + [s[n]];
      }
    }
    assert s[..|s|] == s;
  }

  /** A board whose cells `positions` hold ants of players One, Two, One, … in turn. */
  function TilesAt(positions: seq<Axial>): (tiles: map<Axial, PlacedTile>)
    ensures forall p :: p in tiles <==> p in positions
    ensures forall p :: p in tiles ==> tiles[p].position == p
  {
    if positions == [] then map[]
    else
      var n := |positions| - 1;
      var player := if n % 2 == 0 then One else Two;
      TilesAt(positions[..n])[positions[n] := PlacedTile.New(Ant, positions[n], player)]
  }

  lemma TilesAtStep(positions: seq<Axial>, n: nat)
    requires n < |positions|
    ensures TilesAt(positions[..n + 1]) ==
      TilesAt(positions[..n])[positions[n] := PlacedTile.New(Ant, positions[n], if n % 2 == 0 then One else Two)]
  {
    assert positions[..n + 1][..n] == positions[..n];
  }

  class Board {
    var tiles: map<Axial, PlacedTile>
    const render: RenderStdout

    /** The map files every tile under its own position, and the renderer holds exactly the placed cells. */
    ghost predicate Valid()
      reads this, render
    {
      && render.Valid()
      && (forall p :: p in tiles ==> tiles[p].position == p)
      && (forall p :: p in tiles <==> p in Positions(render.pushed))
    }

    constructor ()
      ensures Valid() && fresh(render)
      ensures tiles == map[] && render.pushed == []
    {
      tiles := map[];
      render := new RenderStdout();
    }

    /**
     * Puts the tile on `position` for `player`, replacing whatever was
     * there, and pushes the same placed tile to the renderer.
     */
    method PlaceTile(tile: Tile, position: Axial, player: PlayerNumber)
      requires Valid()
      modifies this, render
      ensures Valid()
      ensures tiles == old(tiles)[position := PlacedTile.New(tile, position, player)]
      ensures render.pushed == old(render.pushed) + [PlacedTile.New(tile, position, player)]
      ensures exists k :: InsertedAt(old(render.pieces), PlacedTile.New(tile, position, player), k, render.pieces)
    {
      var placed := PlacedTile.New(tile, position, player);
      tiles := tiles[position := placed];
      PositionsAppend(render.pushed, placed);
      render.Push(placed);
    }

    /** Draws the board through its renderer: nothing while the board is empty. */
    method Render() returns (out: Option<string>)
      requires Valid()
      ensures out.None? <==> tiles == map[]
      ensures out.Some? ==> |out.value| == (render.CharactersWide() + 1) * render.CharactersHigh()
      ensures out.Some? ==> forall i :: 0 <= i < |out.value| ==>
        out.value[i] == render.CellAfter(|render.pieces|, i % (render.CharactersWide() + 1), i / (render.CharactersWide() + 1))
    {
      assert tiles == map[] <==> render.pushed == [] by {
        if tiles != map[] {
          var p :| p in tiles;
          assert p in Positions(render.pushed);
        }
        if render.pushed != [] {
          assert Positions(render.pushed)[0] in tiles;
        }
      }
      out := render.Render();
    }

    /**
     * The cells where `player` may put a tile: the origin on an empty
     * board; the origin's six neighbours when one tile is down, wherever
     * it is; otherwise every Placeable cell, sorted, each once.
     */
    method GetPossibleTilePlacements(player: PlayerNumber) returns (placements: seq<Axial>)
      ensures if |tiles| == 0 then placements == [Axial.Zero()]
        else if |tiles| == 1 then placements == Axial.Zero().SurroundingPositions()
        else StrictlySorted(placements) && forall p :: p in placements <==> Placeable(tiles, player, p)
    {
      if |tiles| == 0 {
        placements := [Axial.Zero()];
      } else if |tiles| == 1 {
        placements := Axial.Zero().SurroundingPositions();
      } else {
        placements := SortedPlacements(player);
      }
    }

    /** The two-or-more-tiles case: the collected cells, sorted, then de-duplicated. */
    method SortedPlacements(player: PlayerNumber) returns (placements: seq<Axial>)
      ensures StrictlySorted(placements)
      ensures forall p :: p in placements <==> Placeable(tiles, player, p)
    {
      var collected := CollectPlacements(player);
      var sorted := Sort(collected);
      placements := Dedup(sorted);
      SameElements(collected, sorted);
    }

    /**
     * The neighbours of every placed tile, in the map's iteration order,
     * kept when free and when every occupied neighbour is the player's;
     * a cell can appear more than once.
     */
    method CollectPlacements(player: PlayerNumber) returns (cells: seq<Axial>)
      ensures forall p :: p in cells <==> Placeable(tiles, player, p)
    {
      cells := [];
      var done: set<Axial> := {};
      var rest := tiles.Keys;
      while rest != {}
        invariant done + rest == tiles.Keys && done !! rest
        invariant forall p :: p in cells <==>
          p !in tiles && AdjacentTilesAllSamePlayer(tiles, p, player) && NextToAny(done, p)
        decreases rest
      {
        var c :| c in rest;
        var around := c.SurroundingPositions();
        for i := 0 to 6
          invariant forall p :: p in cells <==>
            p !in tiles && AdjacentTilesAllSamePlayer(tiles, p, player) && (NextToAny(done, p) || p in around[..i])
        {
          var p := around[i];
          assert around[..i + 1] == around[..i] + [p];
          if p !in tiles && AdjacentTilesAllSamePlayer(tiles, p, player) {
            cells := cells + [p];
          }
        }
        assert around[..6] == around;
        forall p {
          NextToAnyStep(done, c, p);
        }
        done := done + {c};
        rest := rest - {c};
      }
    }
  }

  /** `board_with_tiles_at`: places an ant on each cell in turn, players alternating from One. */
  method BoardWithTilesAt(positions: seq<Axial>) returns (b: Board)
    ensures fresh(b) && b.Valid()
    ensures b.tiles == TilesAt(positions)
  {
    b := new Board();
    var current := One;
    for n := 0 to |positions|
      invariant fresh(b) && fresh(b.render) && b.Valid()
      invariant b.tiles == TilesAt(positions[..n])
      invariant current == if n % 2 == 0 then One else Two
    {
      PlaceNext(b, positions, n, current);
      NextTurn(n, current);
      current := current.Other();
    }
    assert positions[..|positions|] == positions;
  }

  /** The player after turn n is the one whose turn n + 1 is: players alternate from One. */
  lemma NextTurn(n: nat, current: PlayerNumber)
    requires current == if n % 2 == 0 then One else Two
    ensures current.Other() == if (n + 1) % 2 == 0 then One else Two
  {
  }

  /** One turn of BoardWithTilesAt: an ant on cell n for `current`, whose turn it is. */
  method PlaceNext(b: Board, positions: seq<Axial>, n: nat, current: PlayerNumber)
    requires n < |positions| && b.Valid() && b.tiles == TilesAt(positions[..n])
    requires current == if n % 2 == 0 then One else Two
    modifies b, b.render
    ensures b.Valid() && b.tiles == TilesAt(positions[..n + 1])
  {
    TilesAtStep(positions, n);
    b.PlaceTile(Ant, positions[n], current);
  }

  /** The placement rule on a board whose only occupied cell is `a`, as offset arithmetic. */
  lemma PlaceableOnOneCell(tiles: map<Axial, PlacedTile>, a: Axial, player: PlayerNumber, p: Axial)
    requires tiles.Keys == {a}
    ensures Placeable(tiles, player, p) <==>
      p != a && IsOffset(p.q - a.q, p.r - a.r) && tiles[a].player == player
  {
    AllSameByCells(tiles, p, player);
    AdjacentByOffset(a, p);
    AdjacentByOffset(p, a);
    OffsetNegation(p, a);
    if IsOffset(p.q - a.q, p.r - a.r) {
      assert a in tiles.Keys && Adjacent(a, p);
    }
  }

  /**
   * With a single tile on the board, the general rule allows the tile's
   * owner exactly the tile's six neighbours and allows the other player
   * no cell at all.
   */
  lemma OneTileCase(t: PlacedTile, player: PlayerNumber)
    ensures forall p :: Placeable(map[t.position := t], player, p) <==> t.player == player && Adjacent(t.position, p)
  {
    var tiles := map[t.position := t];
    assert tiles.Keys == {t.position} && tiles[t.position] == t;
    forall p
      ensures Placeable(tiles, player, p) <==> t.player == player && Adjacent(t.position, p)
    {
      PlaceableOnOneCell(tiles, t.position, player, p);
      AdjacentByOffset(t.position, p);
      NeighboursDistinct(t.position);
    }
  }

  /**
   * Why one tile is a special case: the placements offered for a single
   * tile, the origin's six neighbours, are what the general rule allows
   * only when that tile sits on the origin and belongs to the player
   * asking; for the other player the general rule would allow none.
   */
  lemma OneTileAtOrigin(t: PlacedTile, player: PlayerNumber)
    requires t.position == Axial.Zero()
    ensures forall p :: Placeable(map[Axial.Zero() := t], player, p) <==>
      t.player == player && p in Axial.Zero().SurroundingPositions()
  {
    OneTileCase(t, player);
  }

  /** A cell's north and south neighbours are both next to another cell only when that cell is the first one. */
  lemma ColumnOffsets(dq: int, dr: int)
    requires IsOffset(dq, dr - 1) && IsOffset(dq, dr + 1)
    ensures dq == 0 && dr == 0
  {
  }

  /** Two distinct cells are told apart by some cell next to exactly one of them. */
  lemma DistinguishingNeighbour(a: Axial, b: Axial) returns (p: Axial)
    requires a != b
    ensures Adjacent(a, p) != Adjacent(b, p)
  {
    AdjacentByOffset(b, a);
    if IsOffset(a.q - b.q, a.r - b.r) {
      NeighboursDistinct(a);
      p := a;
    } else {
      var north, south := Axial(a.q, a.r - 1), Axial(a.q, a.r + 1);
      AdjacentByOffset(a, north);
      AdjacentByOffset(a, south);
      AdjacentByOffset(b, north);
      AdjacentByOffset(b, south);
      if IsOffset(north.q - b.q, north.r - b.r) && IsOffset(south.q - b.q, south.r - b.r) {
        ColumnOffsets(a.q - b.q, a.r - b.r);
        assert false;
      }
      p := if IsOffset(north.q - b.q, north.r - b.r) then south else north;
    }
  }

  /**
   * The converse of OneTileAtOrigin: with a single tile, the six
   * neighbours of any other cell `c` (the origin, say) are not what the
   * general rule allows the tile's owner; they differ at some cell.
   */
  lemma OneTileElsewhere(t: PlacedTile, c: Axial)
    requires t.position != c
    ensures exists p :: Placeable(map[t.position := t], t.player, p) != (p in c.SurroundingPositions())
  {
    var p := DistinguishingNeighbour(t.position, c);
    OneTileCase(t, t.player);
    assert Placeable(map[t.position := t], t.player, p) != Adjacent(c, p);
  }

  /** Origin (One) and its south neighbour (Two), as the two-tile examples place them. */
  function TwoTiles(): map<Axial, PlacedTile> {
    TilesAt([Axial(0, 0), Axial(0, 1)])
  }

  lemma TwoTilesContents()
    ensures TwoTiles() == map[Axial(0, 0) := PlacedTile(Ant, One, Axial(0, 0)),
                              Axial(0, 1) := PlacedTile(Ant, Two, Axial(0, 1))]
  {
    assert [Axial(0, 0), Axial(0, 1)][..1] == [Axial(0, 0)];
  }

  /** The placement rule on a board whose occupied cells are `a` and `b`, as offset arithmetic. */
  lemma PlaceableOnTwoCells(tiles: map<Axial, PlacedTile>, a: Axial, b: Axial, player: PlayerNumber, p: Axial)
    requires tiles.Keys == {a, b}
    ensures Placeable(tiles, player, p) <==>
      && p != a && p != b
      && (IsOffset(p.q - a.q, p.r - a.r) || IsOffset(p.q - b.q, p.r - b.r))
      && (IsOffset(p.q - a.q, p.r - a.r) ==> tiles[a].player == player)
      && (IsOffset(p.q - b.q, p.r - b.r) ==> tiles[b].player == player)
  {
    AllSameByCells(tiles, p, player);
    AdjacentByOffset(a, p);
    AdjacentByOffset(b, p);
    AdjacentByOffset(p, a);
    OffsetNegation(p, a);
    AdjacentByOffset(p, b);
    OffsetNegation(p, b);
    if IsOffset(p.q - a.q, p.r - a.r) {
      assert a in tiles.Keys && Adjacent(a, p);
    }
    if IsOffset(p.q - b.q, p.r - b.r) {
      assert b in tiles.Keys && Adjacent(b, p);
    }
  }

  /** Membership in a three-element sequence, spelled out. */
  lemma MemberOfThree<T>(l: seq<T>, x: T)
    requires |l| == 3
    ensures x in l <==> x == l[0] || x == l[1] || x == l[2]
  {
  }

  /** The arithmetic behind TwoTilesPlayerOne: next to (0, 0), clear of it, and not next to (0, 1). */
  lemma TwoTilesPlayerOneOffsets(q: int, r: int)
    ensures
      && !(q == 0 && r == 0) && !(q == 0 && r == 1)
      && (IsOffset(q, r) || IsOffset(q, r - 1))
      && !IsOffset(q, r - 1)
      <==>
      (q == 1 && r == -1) || (q == 0 && r == -1) || (q == -1 && r == 0)
  {
  }

  /** The arithmetic behind TwoTilesPlayerTwo: next to (0, 1), clear of it, and not next to (0, 0). */
  lemma TwoTilesPlayerTwoOffsets(q: int, r: int)
    ensures
      && !(q == 0 && r == 0) && !(q == 0 && r == 1)
      && (IsOffset(q, r) || IsOffset(q, r - 1))
      && !IsOffset(q, r)
      <==>
      (q == 1 && r == 1) || (q == 0 && r == 2) || (q == -1 && r == 2)
  {
  }

  /** With origin (One) and south (Two) down, player One may use exactly the origin's NE, N and NW. */
  lemma TwoTilesPlayerOne()
    ensures forall p :: Placeable(TwoTiles(), One, p) <==> p in [Axial(1, -1), Axial(0, -1), Axial(-1, 0)]
  {
    var tiles := TwoTiles();
    TwoTilesContents();
    assert tiles.Keys == {Axial(0, 0), Axial(0, 1)};
    assert tiles[Axial(0, 0)].player == One && tiles[Axial(0, 1)].player == Two;
    forall p
      ensures Placeable(tiles, One, p) <==> p in [Axial(1, -1), Axial(0, -1), Axial(-1, 0)]
    {
      PlaceableOnTwoCells(tiles, Axial(0, 0), Axial(0, 1), One, p);
      TwoTilesPlayerOneOffsets(p.q, p.r);
      MemberOfThree([Axial(1, -1), Axial(0, -1), Axial(-1, 0)], p);
      assert p == Axial(p.q, p.r);
    }
  }

  /** With origin (One) and south (Two) down, player Two may use exactly the south cell's SE, S and SW. */
  lemma TwoTilesPlayerTwo()
    ensures forall p :: Placeable(TwoTiles(), Two, p) <==> p in [Axial(1, 1), Axial(0, 2), Axial(-1, 2)]
  {
    var tiles := TwoTiles();
    TwoTilesContents();
    assert tiles.Keys == {Axial(0, 0), Axial(0, 1)};
    assert tiles[Axial(0, 0)].player == One && tiles[Axial(0, 1)].player == Two;
    forall p
      ensures Placeable(tiles, Two, p) <==> p in [Axial(1, 1), Axial(0, 2), Axial(-1, 2)]
    {
      PlaceableOnTwoCells(tiles, Axial(0, 0), Axial(0, 1), Two, p);
      TwoTilesPlayerTwoOffsets(p.q, p.r);
      MemberOfThree([Axial(1, 1), Axial(0, 2), Axial(-1, 2)], p);
      assert p == Axial(p.q, p.r);
    }
  }

  /** Origin (One), south (Two) and north (One), as the three-tile example places them. */
  function ThreeTiles(): map<Axial, PlacedTile> {
    TilesAt([Axial(0, 0), Axial(0, 1), Axial(0, -1)])
  }

  lemma ThreeTilesContents()
    ensures ThreeTiles() == map[Axial(0, 0) := PlacedTile(Ant, One, Axial(0, 0)),
                                Axial(0, 1) := PlacedTile(Ant, Two, Axial(0, 1)),
                                Axial(0, -1) := PlacedTile(Ant, One, Axial(0, -1))]
  {
    var ps := [Axial(0, 0), Axial(0, 1), Axial(0, -1)];
    assert ps[..2] == [Axial(0, 0), Axial(0, 1)];
    TwoTilesContents();
  }

  /** The placement rule on a board whose occupied cells are `a`, `b` and `c`, as offset arithmetic. */
  lemma PlaceableOnThreeCells(tiles: map<Axial, PlacedTile>, a: Axial, b: Axial, c: Axial, player: PlayerNumber, p: Axial)
    requires tiles.Keys == {a, b, c}
    ensures Placeable(tiles, player, p) <==>
      && p != a && p != b && p != c
      && (IsOffset(p.q - a.q, p.r - a.r) || IsOffset(p.q - b.q, p.r - b.r) || IsOffset(p.q - c.q, p.r - c.r))
      && (IsOffset(p.q - a.q, p.r - a.r) ==> tiles[a].player == player)
      && (IsOffset(p.q - b.q, p.r - b.r) ==> tiles[b].player == player)
      && (IsOffset(p.q - c.q, p.r - c.r) ==> tiles[c].player == player)
  {
    AllSameByCells(tiles, p, player);
    AdjacentByOffset(a, p);
    AdjacentByOffset(b, p);
    AdjacentByOffset(c, p);
    AdjacentByOffset(p, a);
    OffsetNegation(p, a);
    AdjacentByOffset(p, b);
    OffsetNegation(p, b);
    AdjacentByOffset(p, c);
    OffsetNegation(p, c);
    if IsOffset(p.q - a.q, p.r - a.r) {
      assert a in tiles.Keys && Adjacent(a, p);
    }
    if IsOffset(p.q - b.q, p.r - b.r) {
      assert b in tiles.Keys && Adjacent(b, p);
    }
    if IsOffset(p.q - c.q, p.r - c.r) {
      assert c in tiles.Keys && Adjacent(c, p);
    }
  }

  /** The five cells in the Axial order: the origin's NE, the north cell's NE and N, the origin's NW, the north cell's NW. */
  lemma ThreeTilesListingOrdered()
    ensures var l := [Axial(1, -1), Axial(1, -2), Axial(0, -2), Axial(-1, 0), Axial(-1, -1)];
      forall i :: 0 <= i < |l| - 1 ==> Lt(l[i], l[i + 1])
  {
  }

  /** Membership in a five-element sequence, spelled out. */
  lemma MemberOfFive<T>(l: seq<T>, x: T)
    requires |l| == 5
    ensures x in l <==> x == l[0] || x == l[1] || x == l[2] || x == l[3] || x == l[4]
  {
  }

  /** The arithmetic behind ThreeTilesPlayerOne: next to a cell of player one and clear of (0, 1). */
  lemma ThreeTilesPlayerOneOffsets(q: int, r: int)
    ensures
      && !(q == 0 && r == 0) && !(q == 0 && r == 1) && !(q == 0 && r == -1)
      && (IsOffset(q, r) || IsOffset(q, r - 1) || IsOffset(q, r + 1))
      && !IsOffset(q, r - 1)
      <==>
      (q == 1 && r == -1) || (q == 1 && r == -2) || (q == 0 && r == -2) || (q == -1 && r == 0) || (q == -1 && r == -1)
  {
  }

  /** With origin and north (One) around south (Two), player One may use exactly five cells. */
  lemma ThreeTilesPlayerOne()
    ensures forall p :: Placeable(ThreeTiles(), One, p) <==> p in [Axial(1, -1), Axial(1, -2), Axial(0, -2), Axial(-1, 0), Axial(-1, -1)]
  {
    var tiles := ThreeTiles();
    ThreeTilesContents();
    assert tiles.Keys == {Axial(0, 0), Axial(0, 1), Axial(0, -1)};
    assert tiles[Axial(0, 0)].player == One && tiles[Axial(0, 1)].player == Two && tiles[Axial(0, -1)].player == One;
    forall p
      ensures Placeable(tiles, One, p) <==> p in [Axial(1, -1), Axial(1, -2), Axial(0, -2), Axial(-1, 0), Axial(-1, -1)]
    {
      PlaceableOnThreeCells(tiles, Axial(0, 0), Axial(0, 1), Axial(0, -1), One, p);
      ThreeTilesPlayerOneOffsets(p.q, p.r);
      var l := [Axial(1, -1), Axial(1, -2), Axial(0, -2), Axial(-1, 0), Axial(-1, -1)];
      MemberOfFive(l, p);
      assert p == Axial(p.q, p.r);
    }
  }

  /** board.rs's placement examples on an empty board and a one-tile board. */
  method SmallBoardExamples() returns (empty: seq<Axial>, single: seq<Axial>)
    ensures empty == [Axial(0, 0)]
    ensures |single| == 6
  {
    var b := new Board();
    empty := b.GetPossibleTilePlacements(One);
    var b1 := BoardWithTilesAt([Axial(0, 0)]);
    assert b1.tiles.Keys == {Axial(0, 0)};
    single := b1.GetPossibleTilePlacements(Two);
  }

  /** Any sorted, duplicate-free listing of the rule's cells is the one listing. */
  lemma ListingOf(ps: seq<Axial>, tiles: map<Axial, PlacedTile>, player: PlayerNumber, expected: seq<Axial>)
    requires StrictlySorted(ps) && forall p :: p in ps <==> Placeable(tiles, player, p)
    requires forall p :: Placeable(tiles, player, p) <==> p in expected
    requires forall i :: 0 <= i < |expected| - 1 ==> Lt(expected[i], expected[i + 1])
    ensures ps == expected
  {
    ChainStrictlySorted(expected);
    SortedUnique(ps, expected);
  }

  /** The only strictly sorted listing of the cells player One may use next to TwoTiles(). */
  lemma TwoTilesListingOne(ps: seq<Axial>)
    requires StrictlySorted(ps) && forall p :: p in ps <==> Placeable(TwoTiles(), One, p)
    ensures ps == [Axial(1, -1), Axial(0, -1), Axial(-1, 0)]
  {
    TwoTilesPlayerOne();
    ListingOf(ps, TwoTiles(), One, [Axial(1, -1), Axial(0, -1), Axial(-1, 0)]);
  }

  /** The only strictly sorted listing of the cells player Two may use next to TwoTiles(). */
  lemma TwoTilesListingTwo(ps: seq<Axial>)
    requires StrictlySorted(ps) && forall p :: p in ps <==> Placeable(TwoTiles(), Two, p)
    ensures ps == [Axial(1, 1), Axial(0, 2), Axial(-1, 2)]
  {
    TwoTilesPlayerTwo();
    ListingOf(ps, TwoTiles(), Two, [Axial(1, 1), Axial(0, 2), Axial(-1, 2)]);
  }

  /** The only strictly sorted listing of the cells player One may use next to ThreeTiles(). */
  lemma ThreeTilesListing(ps: seq<Axial>)
    requires StrictlySorted(ps) && forall p :: p in ps <==> Placeable(ThreeTiles(), One, p)
    ensures ps == [Axial(1, -1), Axial(1, -2), Axial(0, -2), Axial(-1, 0), Axial(-1, -1)]
  {
    ThreeTilesPlayerOne();
    ThreeTilesListingOrdered();
    ListingOf(ps, ThreeTiles(), One, [Axial(1, -1), Axial(1, -2), Axial(0, -2), Axial(-1, 0), Axial(-1, -1)]);
  }

  /** board.rs's two-tile example for player One. */
  method TwoTilesExampleOne() returns (placements: seq<Axial>)
    ensures placements == [Axial(1, -1), Axial(0, -1), Axial(-1, 0)]
  {
    var b := BoardWithTilesAt([Axial(0, 0), Axial(0, 1)]);
    TwoTilesContents();
    assert |b.tiles| == 2 by {
      assert b.tiles.Keys == {Axial(0, 0), Axial(0, 1)};
    }
    placements := b.GetPossibleTilePlacements(One);
    TwoTilesListingOne(placements);
  }

  /** board.rs's two-tile example for player Two. */
  method TwoTilesExampleTwo() returns (placements: seq<Axial>)
    ensures placements == [Axial(1, 1), Axial(0, 2), Axial(-1, 2)]
  {
    var b := BoardWithTilesAt([Axial(0, 0), Axial(0, 1)]);
    TwoTilesContents();
    assert |b.tiles| == 2 by {
      assert b.tiles.Keys == {Axial(0, 0), Axial(0, 1)};
    }
    placements := b.GetPossibleTilePlacements(Two);
    TwoTilesListingTwo(placements);
  }

  /** board.rs's three-tile example. */
  method ThreeTilesExample() returns (placements: seq<Axial>)
    ensures placements == [Axial(1, -1), Axial(1, -2), Axial(0, -2), Axial(-1, 0), Axial(-1, -1)]
  {
    var b := BoardWithTilesAt([Axial(0, 0), Axial(0, 1), Axial(0, -1)]);
    ThreeTilesContents();
    assert |b.tiles| == 3 by {
      assert b.tiles.Keys == {Axial(0, 0), Axial(0, 1), Axial(0, -1)};
    }
    placements := b.GetPossibleTilePlacements(One);
    ThreeTilesListing(placements);
  }
}
