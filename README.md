# rust-hive placement engine and ASCII board, in Dafny

This project models the core of rust-hive, a Hive-like board game on a hexagonal grid.

- **Coordinates.** Cells use axial coordinates `(q, r)`. Every cell has six neighbours at fixed offsets, listed N, NE, SE, S, SW, NW. The vertical position `q + 2r` is the cell's row on screen.
- **Order on cells.** A hand-written total order sorts cells by descending q, then by descending r.
- **The board.** The board maps each occupied cell to the tile placed there: which tile, whose it is, and where it is. Placing a tile also pushes it to the renderer.
- **Legal placements.** The board offers a player the following cells:
  - the origin, on an empty board;
  - the origin's six neighbours, when one tile is down, wherever that tile is;
  - otherwise, every free cell next to a placed tile whose occupied neighbours all belong to the player, sorted and with no duplicates.
- **The renderer.**
  - It keeps the pushed pieces sorted by position, inserting each at its binary-search index.
  - It tracks the topmost, bottommost, leftmost and rightmost cells pushed.
  - From these bounds it computes the drawing's width and height and each cell's position in the drawing.
  - It stamps a 5-row, 8-column hexagon for each piece into a row-major character grid, which has one extra column holding '\n'.
- **Tiles and players.**
  - The older tile kinds render as one character. The standard set has eleven tiles.
  - The newer tiles are a colour paired with a kind, stored in a `Tiles` wrapper around a hash map.
  - Placed tiles are equal and ordered by position alone.
  - The two players swap with `other`.
- **Other coordinate systems.**
  - An offset grid (`x`, `y`), where diagonal steps depend on the parity of the row.
  - A conversion between axial coordinates and three-field cube positions.

How the source is represented:

- Coordinates are unbounded integers.
- Hash maps are Dafny `map`s.
- Reference-counted pointers are plain values.
- State that the source changes in place is modelled as classes:
  - `Board`, over a `map` field and its renderer;
  - `RenderStdout`, over a `seq` of pieces and an optional `Bounds`;
  - `CharacterBuffer2D`, over an `array<char>`;
  - the `Tiles` wrapper, over a `map` field.
- The renderer's `render` returns the text it would print, instead of printing it.

The repository's three-field cube `Position` (used by `src/coord_utils.rs`) is not the two-field `Position` of `src/position.rs`. Each is modelled as written, in its own module (`CoordUtils.Position` and `Position.Position`). Likewise, `src/tile.rs` and `src/tile/mod.rs` are two alternative tile representations, modelled as the modules `ColouredTile` and `Tile`.

The board keeps no incremental frontier of placement cells, and it has no movement check or in-place copy: it rescans its map on every call.

Files:
- `prelude.dfy`: `Option`, and Rust's `Ordering`.
- `fmt.dfy`: decimal formatting of integers, and the lemmas showing that `Display` strings can be read back.
- `axial.dfy`, `bounds.dfy`, `position.dfy`, `coord_utils.dfy`: coordinates.
- `tile.dfy`, `coloured_tile.dfy`, `placed_tile.dfy`, `player_number.dfy`, `player.dfy`: tiles and players.
- `character_buffer_2d.dfy`, `render.dfy`: the renderer.
- `board.dfy`: the board.

## Model

| member | source | states |
|---|---|---|
| Axial.Axial.New | src/axial.rs:33-35 | stores q and r unchanged |
| Axial.Axial.Zero | src/axial.rs:37-39 | the origin is (0, 0) |
| Axial.Axial.VerticalPos | src/axial.rs:41-43 | the screen row has the parity of q, so the cells of one column sit on alternate rows; each direction's contract states how it moves this row |
| Axial.Axial.North | src/axial.rs:56-58 | keeps q and lowers the vertical position by 2 |
| Axial.Axial.NorthEast | src/axial.rs:60-62 | adds 1 to q and lowers the vertical position by 1 |
| Axial.Axial.SouthEast | src/axial.rs:64-66 | adds 1 to q and raises the vertical position by 1 |
| Axial.Axial.South | src/axial.rs:68-70 | keeps q and raises the vertical position by 2 |
| Axial.Axial.SouthWest | src/axial.rs:72-74 | subtracts 1 from q and raises the vertical position by 1 |
| Axial.Axial.NorthWest | src/axial.rs:76-78 | subtracts 1 from q and lowers the vertical position by 1 |
| Axial.Axial.SurroundingPositions | src/axial.rs:45-54 | exactly six cells; cell i is the start plus offset i of N(0,-1), NE(1,-1), SE(1,0), S(0,1), SW(-1,1), NW(-1,0) |
| Axial.Axial.Cmp | src/axial.rs:16-24 | Less exactly when q is larger, or q is equal and r is larger; Equal exactly on equal cells; Greater in the mirrored case |
| Axial.Axial.PartialCmp | src/axial.rs:26-30 | is never None, and always carries Cmp's answer |
| Axial.Opposite | src/axial.rs:45-78 | each direction has an opposite direction whose offset is the negated offset |
| Axial.OppositesCancel | src/axial.rs:56-78 | N then S, NE then SW, SE then NW (and each the other way round) return to the start |
| Axial.StepBack | src/axial.rs:45-78 | stepping to any neighbour and then in the opposite direction returns to the start |
| Axial.NeighboursDistinct | src/axial.rs:45-78 | the six neighbours are pairwise distinct, and none is the cell itself |
| Axial.AdjacentByOffset | src/axial.rs:45-78 | b is a neighbour of a exactly when b - a is one of the six offsets |
| Axial.OffsetNegation | src/axial.rs:45-78 | the six offsets are closed under negation |
| Axial.AdjacencySymmetric | src/axial.rs:45-78 | b is among a's neighbours exactly when a is among b's |
| Axial.CmpIsTotalOrder | src/axial.rs:16-30 | Cmp is antisymmetric (swapping the operands reverses it), total and transitive, and Equal only on equal cells |
| Axial.Axial.ToString | src/axial.rs:10-14 | the display is at least six characters long, opens with '(' and closes with ')' |
| Axial.ToStringInjective | src/axial.rs:10-14 | the "(q, r)" display of different cells differs |
| Axial.ToStringClosed | src/axial.rs:10-14 | the display ends with its only ')' |
| Fmt.ParseIntToString | src/axial.rs:10-14 | the decimal text of an integer reads back as that integer |
| Fmt.IntToStringInjective | src/axial.rs:10-14 | different integers are displayed differently |
| Bounds.Bounds.Zero | src/bounds.rs:23-25 | all four corners are the origin |
| Bounds.Bounds.New | src/bounds.rs:27-34 | stores top, bottom, left and right in the fields of the same names |
| Bounds.Bounds.ToString | src/bounds.rs:12-20 | the display starts with "(top: " and ends with ')' |
| Bounds.BoundsToStringInjective | src/bounds.rs:12-20 | the "(top: T, bottom: B, left: L, right: R)" display determines all four corners, so different bounds display differently |
| Position.Position.New | src/position.rs:17-19 | stores x and y unchanged |
| Position.Position.North | src/position.rs:30-32 | keeps x and moves two rows up |
| Position.Position.NorthEast | src/position.rs:34-37 | moves one row up; x grows by 1 exactly on odd rows and is kept on even rows |
| Position.Position.SouthEast | src/position.rs:39-42 | moves one row down; x grows by 1 exactly on odd rows and is kept on even rows |
| Position.Position.South | src/position.rs:44-46 | keeps x and moves two rows down |
| Position.Position.SouthWest | src/position.rs:48-51 | moves one row down; x shrinks by 1 exactly on even rows and is kept on odd rows |
| Position.Position.NorthWest | src/position.rs:53-56 | moves one row up; x shrinks by 1 exactly on even rows and is kept on odd rows |
| Position.Position.GetAllAdjacent | src/position.rs:21-28 | six positions in the order N, NE, SE, S, SW, NW: two rows up, one up, one down, two down, one down and one up; N and S keep x, NE and SE move x right on odd rows only, SW and NW move x left on even rows only |
| Position.OppositesCancel | src/position.rs:30-56 | N/S, NE/SW and SE/NW undo each other on rows of either parity |
| Position.AdjacentDistinct | src/position.rs:21-56 | the six adjacent positions are pairwise distinct and differ from the position itself |
| Position.DirectionExamples | src/position.rs:82-110 | all twelve tested moves, two per direction, e.g. (0,0) N is (0,-2), (0,1) NE is (1,0), (0,0) SW is (-1,1) and (0,1) NW is (0,0) |
| CoordUtils.AxialToPosition | src/coord_utils.rs:8-10 | the cube triple keeps q as x and r as z, and its three fields sum to zero |
| CoordUtils.PositionToAxial | src/coord_utils.rs:4-6 | keeps x as q and z as r, dropping y |
| CoordUtils.AxialRoundTrip | src/coord_utils.rs:4-10 | axial to cube and back gives the same cell |
| CoordUtils.CubeRoundTrip | src/coord_utils.rs:4-10 | a cube position whose fields sum to zero survives a trip to axial and back |
| PlacedTile.PlacedTile.New | src/placed_tile.rs:15-21 | stores tile, position and player unchanged |
| PlacedTile.PlacedTile.Cmp | src/placed_tile.rs:24-28 | Equal exactly when the tiles are equal, Less and Greater exactly as their positions compare |
| PlacedTile.PlacedTile.PartialCmp | src/placed_tile.rs:30-34 | never None, and always carries Cmp's answer |
| PlacedTile.EqAndCmpConsistent | src/placed_tile.rs:24-40 | equality is an equivalence, and Cmp is antisymmetric and transitive and answers Equal exactly on equal tiles |
| PlacedTile.EqIgnoresTileAndPlayer | src/placed_tile.rs:36-40 | tiles on the same cell are equal whatever their kind and player |
| PlayerNumber.PlayerNumber.Other | src/player.rs:13-18 | the opponent is never the player |
| PlayerNumber.OtherInvolution | src/player.rs:12-18 | One and Two swap, and taking the opponent twice gives the player back |
| Player.Player.New | src/player.rs:27-29 | stores the tiles and the number unchanged |
| Player.Player.GetTilePlacement | src/player.rs:31-33 | the first tile in hand, and the first cell offered: the origin on an empty board, the origin's north neighbour with one tile, otherwise the least legal cell in the Axial order; both lists must be non-empty |
| Tile.Tile.Render | src/tile/mod.rs:9-11 | a single character; the Beetle draws 'B' |
| Tile.StandardGameTiles | src/tile/mod.rs:33-47 | eleven tiles, queen first |
| Tile.StandardGameTilesCounts | src/tile/mod.rs:33-47 | one queen, two beetles, two spiders, three ants and three grasshoppers |
| ColouredTile.Colour.Other | src/tile.rs:11-18 | the other colour is never the same colour |
| ColouredTile.OtherInvolution | src/tile.rs:11-18 | White and Black swap, and taking the other colour twice gives the colour back |
| ColouredTile.Tiles.Len | src/tile.rs:34-36 | the number of keys in the map |
| ColouredTile.Tiles.Get | src/tile.rs:58-60 | Some of the stored tile exactly for the keys in the map |
| ColouredTile.Tiles.ContainsKey | src/tile.rs:50-52 | holds exactly when Get is Some |
| ColouredTile.Tiles.Insert | src/tile.rs:46-48 | returns the previous entry (None if absent); afterwards Get(k) is the new tile, every other key is unchanged, and Len grows by one exactly when the key was new |
| ColouredTile.Tiles.Extend | src/tile.rs:38-40 | each key of the other map takes its value from there; every other key keeps its old entry |
| ColouredTile.Tiles.Clear | src/tile.rs:62-64 | afterwards Len is 0 and no key is contained |
| ColouredTile.Tiles.Keys | src/tile.rs:54-56 | each key of the map exactly once, nothing else |
| ColouredTile.Tiles.Iter | src/tile.rs:42-44 | each entry of the map exactly once, each with its stored tile |
| CharacterBuffer2D.CharacterBuffer2D.constructor | src/character_buffer_2d.rs:9-17 | a width * height buffer of spaces |
| CharacterBuffer2D.CharacterBuffer2D.Set | src/character_buffer_2d.rs:19-21 | needs x + y * width inside the buffer; writes that cell, so Get(x, y) reads the value back, and changes no other cell |
| CharacterBuffer2D.CharacterBuffer2D.Get | src/character_buffer_2d.rs:29-31 | reads the cell at x + y * width; what it reads is stated by Set (a written cell reads back) and ToString (the string is the cells in row-major order) |
| CharacterBuffer2D.CharacterBuffer2D.SetColumn | src/character_buffer_2d.rs:23-27 | needs col < width whenever there is a row; afterwards every cell of column col is the value and every other cell is unchanged |
| CharacterBuffer2D.CharacterBuffer2D.ToString | src/character_buffer_2d.rs:33-35 | width * height characters; the character at x + y * width is Get(x, y) |
| CharacterBuffer2D.RowMajorInBounds | src/character_buffer_2d.rs:19-31 | a cell inside the grid has its index inside the buffer |
| CharacterBuffer2D.CharacterBuffer2D.SetColumnRow | src/character_buffer_2d.rs:24-26 | one turn of set_column's loop: writing row y of the column extends the filled rows from 0..y to 0..y+1 and leaves every other cell as it was |
| CharacterBuffer2D.ColumnOfCell | src/character_buffer_2d.rs:23-27 | every buffer index lies in one of the height rows, which is why set_column covers each cell of the column |
| Render.BinarySearch | src/render.rs:55-58 | on sorted pieces, a Found index holds an equal piece, and NotFound means none is equal; either way every piece before the index is at most the tile and every piece from it on is at least the tile |
| Render.InsertKeepsSorted | src/render.rs:55-59 | inserting at such an index keeps the pieces sorted, and adds exactly the tile to their contents |
| Render.RenderStdout.constructor | src/render.rs:48-53 | no bounds and no pieces |
| Render.RenderStdout.Push | src/render.rs:55-60 | the tile is inserted into the pieces at one index, in front of a piece on the same cell when there is one (the `Ok` index); the pieces stay sorted and are a permutation of everything pushed; the first push sets all four corners to the tile's position |
| Render.SearchInsertion | src/render.rs:55-59 | inserting at a binary-search answer, `Ok` or `Err`, puts the tile in front of a piece on its cell whenever there is one |
| Render.InsertedBeforeSameCell | src/render.rs:55-59 | a tile pushed onto an occupied cell is followed by a piece on that cell, so that piece is stamped after it |
| Render.RenderStdout.UpdateBounds | src/render.rs:110-136 | the first position sets all four corners; later ones move a corner only when strictly beyond it, so the bounds stay the first extremes of the positions seen |
| Render.BoundsAreExtremes | src/render.rs:110-136 | the tracked left and right are the least and greatest q, and the tracked top and bottom the least and greatest vertical position, of all pushed cells |
| Render.BoundsCover | src/render.rs:110-136 | every pushed cell lies between the bounds' corners |
| Render.BoundsStep | src/render.rs:113-134 | widening each corner the new cell lies strictly beyond gives the bounds of the extended history |
| Render.RenderStdout.CharactersWide | src/render.rs:138-146 | 0 without bounds |
| Render.RenderStdout.CharactersHigh | src/render.rs:148-159 | 0 without bounds, else 5 plus 2 per step of vertical position from top to bottom |
| Render.RenderStdout.DimensionsOf | src/render.rs:138-159 | width and height are 8 + 6 * (greatest q - least q) and 5 + 2 * (greatest - least vertical position) of the pushed cells, whatever the push order |
| Render.RenderStdout.RenderPositionExample | src/render.rs:320-329 | with the origin and its SW neighbour pushed, the origin is drawn at (6, 0) and the neighbour at (0, 2) |
| Render.RenderStdout.PieceInside | src/render.rs:83-95 | every piece's template lands inside the drawing, clear of the newline column |
| Render.RenderStdout.RenderPosition | src/render.rs:101-108 | the leftmost column starts at drawing column 0 and the top row at drawing row 0; a cell is at a non-negative column exactly when it is not left of the left bound, and at a non-negative row exactly when it is not above the top bound |
| Render.RenderStdout.RenderPositionInjective | src/render.rs:101-108 | different cells start their hexagons at different places |
| Render.RenderStdout.RenderPositionShift | src/render.rs:101-108 | moving between two cells moves the hexagon 6 columns per step of q and 2 rows per step of vertical position |
| Render.RenderStdout.RenderPositionSteps | src/render.rs:101-108 | the hexagons of neighbouring cells interlock: S is 4 rows down, SE 6 columns right and 2 rows down, and so on |
| Render.RenderStdout.NewlineColumnKept | src/render.rs:79-95 | however many pieces are stamped, the extra column still holds '\n' |
| Render.RenderStdout.Render | src/render.rs:62-99 | nothing without bounds; otherwise (width + 1) * height characters, each the template character of the last piece covering it, else '\n' in the extra column, else ' ' |
| Render.RenderStdout.Draw | src/render.rs:62-95 | the grid is (width + 1) by height, and each cell holds what the pieces, stamped in sorted order, leave there |
| Render.RenderStdout.DrawPiece | src/render.rs:83-95 | stamping one more piece changes exactly the cells its template covers |
| Render.Stamp | src/render.rs:83-94 | the template, with 'x' replaced by the glyph, is written at the target, and every other cell is unchanged |
| Render.DimensionExamplesSmall | src/render.rs:340-503 | the sizes of the empty, single-tile and u-shaped layouts |
| Render.DimensionExamplesVertical | src/render.rs:507-612 | the sizes of the vertical columns of two, three and four tiles |
| Render.DimensionExamplesDiagonal | src/render.rs:615-715 | the sizes of the diagonal layouts |
| Render.DimensionExamplesAdjacent | src/render.rs:718-826 | the sizes of the diagonally adjacent pairs |
| Board.Board.constructor | src/board.rs:22-27 | an empty map and a renderer with nothing pushed |
| Board.Board.PlaceTile | src/board.rs:29-33 | the map gains (or overwrites) the entry at the position with the new placed tile, and everything else is unchanged; the same tile is pushed to the renderer, so the renderer still holds exactly the occupied cells, and the renderer's pieces gain the tile in front of a piece already on the cell, if any |
| Board.Board.Render | src/board.rs:35-37 | nothing exactly on an empty board; otherwise the renderer's drawing, (width + 1) * height characters, each the character the stamped pieces leave in its cell |
| Board.Board.GetPossibleTilePlacements | src/board.rs:39-66 | the origin on an empty board; the origin's six neighbours with one tile; otherwise exactly the cells that are free, next to a placed tile, and whose occupied neighbours all belong to the player, strictly sorted |
| Board.Board.SortedPlacements | src/board.rs:53-63 | the collected cells after sort and dedup are strictly sorted and are exactly the legal cells |
| Board.Board.CollectPlacements | src/board.rs:54-60 | a cell is collected exactly when it is legal for the player |
| Board.InsertSorted | src/board.rs:61 | inserting into a sorted list keeps it sorted and adds exactly the element |
| Board.InsertionPoint | src/board.rs:61 | putting an element after the elements at most it and before the first one greater keeps a sorted list sorted and adds exactly the element |
| Board.Sort | src/board.rs:61 | the result is sorted and a permutation of the input |
| Board.Dedup | src/board.rs:62 | the same elements remain, no two neighbours are equal, and a sorted input comes out strictly sorted |
| Board.SortedUnique | src/board.rs:61-62 | two strictly sorted lists with the same elements are equal, so the sorted, deduplicated listing of the legal cells is unique |
| Board.AllSameByCells | src/board.rs:42-48 | the all-same-player test over the six neighbours is the test over the occupied cells next to the cell |
| Board.TilesAt | src/board.rs:75-83 | the helper's board holds exactly the given cells, each under its own position |
| Board.BoardWithTilesAt | src/board.rs:75-83 | places an ant on each cell in turn, players alternating from One |
| Board.PlaceNext | src/board.rs:78-81 | one turn of the helper's loop: placing the ant on cell n for the player whose turn it is extends the board to the first n + 1 cells |
| Board.NextTurn | src/board.rs:77-81 | after turn n the current player is the one whose turn n + 1 is, so players alternate from One |
| Board.OneTileCase | src/board.rs:52 | with a single tile, the general rule would allow exactly the tile's six neighbours to its owner and nothing to the other player |
| Board.OneTileAtOrigin | src/board.rs:52 | for a tile on the origin, the single-tile answer (the origin's neighbours) is exactly what the general rule allows the tile's owner, and for the other player the general rule allows nothing |
| Board.DistinguishingNeighbour | src/axial.rs:45-78 | any two different cells have a cell next to exactly one of them |
| Board.OneTileElsewhere | src/board.rs:52 | for a tile anywhere but a given cell, that cell's six neighbours (the origin's, say) differ from what the general rule allows the tile's owner at some cell, so the single-tile answer agrees with the general rule only for a tile on the origin |
| Board.SmallBoardExamples | src/board.rs:95-109 | an empty board offers [origin]; a one-tile board offers six cells |
| Board.TwoTilesPlayerOne | src/board.rs:111-122 | with origin (One) and south (Two), player One may use exactly the origin's NE, N and NW |
| Board.TwoTilesPlayerTwo | src/board.rs:124-141 | with origin (One) and south (Two), player Two may use exactly the south cell's SE, S and SW |
| Board.ThreeTilesPlayerOne | src/board.rs:143-162 | with origin and north (One) and south (Two), player One may use exactly five cells |
| Board.TwoTilesExampleOne | src/board.rs:111-122 | the board returns [(1,-1), (0,-1), (-1,0)] for player One |
| Board.TwoTilesExampleTwo | src/board.rs:124-141 | the board returns [(1,1), (0,2), (-1,2)] for player Two |
| Board.ThreeTilesExample | src/board.rs:143-162 | the board returns [(1,-1), (1,-2), (0,-2), (-1,0), (-1,-1)] for player One |

## Left out

- Printing: the `println!` at src/render.rs:96 and the stdout wrapper in src/output/mod.rs are I/O. `Render` returns the text instead.
- src/main.rs, src/game.rs, src/bin/main.rs and benches/board.rs are drivers, demos and benchmarks. They are not part of this model. src/main.rs calls `Player::new` with one argument, while src/player.rs:27 takes two; the model follows src/player.rs.
- src/nav_mesh.rs is an empty stub and is not part of this model.
- The render tests at src/render.rs:180-312 treat `render` as returning a `String`, and they expect rows that differ from the template. No property is taken from them.
- Coordinates are unbounded: `i32` overflow is not modelled. Neither are the `usize` casts in `render_position`, `characters_wide` and `characters_high`, which cannot see negative values for pushed cells.
- Tile.Tile.Render: only the Beetle's glyph 'B' is from the source (src/tile/beetle.rs:6-8). The glyphs of the other four kinds come from files that are not part of this model, so the model uses their initials and the contract states only the Beetle's glyph.
- Hash-map iteration order is left open, as an arbitrary choice of key.
- Board.Board.CollectPlacements: collects each placed cell's free neighbours in an unspecified order rather than in the hash map's order.
- Board.Sort: is modelled as insertion sort on a sequence rather than Rust's in-place stable sort. Its contract (sorted and a permutation) determines the result either way.
- `Rc` sharing is not modelled: a placed tile is a value, and the copy in the map and the copy in the renderer are equal values.
- Render.RenderStdout.CharactersWide: its contract states only the no-bounds case. The width for given bounds is stated in terms of the pushed cells by DimensionsOf.
- CharacterBuffer2D.CharacterBuffer2D.Get: has no contract of its own. It is the reading side of Set and ToString, whose contracts state it.
- Axial.Axial.ToString and Bounds.Bounds.ToString: their own contracts state only the shape of the text. That the text determines the value is stated by ToStringInjective and BoundsToStringInjective.
- The source's out-of-range `set` and `get` panic. The model makes the in-range index a precondition instead of modelling the panic.
- Player.Player.GetTilePlacement: the `[0]` indexing at src/player.rs:32 panics on an empty hand or an empty list of placements. The model requires a non-empty hand and, with two or more tiles down, a legal cell for the player, instead of modelling the panic.
- The `unsafe` unchecked template reads of the `get_char!` macro in `render` (src/render.rs:63-73, used at line 87) stay inside the template because StampChar requires a column below the template width and a row below its height, and every template row has the template width. The buffer writes those reads feed are kept in range by Stamp's precondition and PieceInside.
- The factory functions of src/tile/mod.rs:13-31 are the constructors of `Tile.Tile`. Closing the kinds at five is the datatype itself.
