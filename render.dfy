/**
 * The ASCII renderer: it keeps the pushed pieces sorted by position and
 * tracks the bounding cells of everything pushed; rendering stamps one
 * 5-row, 8-column hexagon template per piece into a character grid that
 * has one extra column of '\n'. Printing the grid is left out: `Render`
 * returns the text that would be printed.
 */
module Render {
  import opened Wrappers
  import opened Cmp
  import opened Axial
  import opened Bounds
  import opened PlacedTile
  import CharacterBuffer2D

  /** The hexagon drawn for each piece; its 'x' is replaced by the tile's glyph. */
  const Template: seq<string> := [
    "  ____   ",
    " /    \\ ",
    "/  x   \\",
    "\\      /",
    " \\____/ "
  ]

  const TemplateWidth: nat := 8
  const TemplateHeight: nat := 5
  const TemplateWidthAdd: nat := 6
  const TemplateHeightVertAdd: nat := 4
  const TemplateHeightHorizAdd: nat := 2

  /** The template character at column sx, row sy, with 'x' replaced by `glyph`. */
  function StampChar(sx: nat, sy: nat, glyph: char): char
    requires sx < TemplateWidth && sy < TemplateHeight
  {
    var c := Template[sy][sx];
    if c == 'x' then glyph else c
  }

  /** Cell (x, y) lies under a template stamped with its top-left corner at (tx, ty). */
  predicate InTemplate(x: int, y: int, tx: int, ty: int) {
    tx <= x < tx + TemplateWidth && ty <= y < ty + TemplateHeight
  }

  /** The two orders in which bounds pick their extreme cells. */
  datatype Measure = Column | Row

  function Key(m: Measure, a: Axial): int {
    match m
    case Column => a.q
    case Row => a.VerticalPos()
  }

  /** `a` is the first cell of `h` with the least key. */
  ghost predicate IsFirstMin(h: seq<Axial>, a: Axial, m: Measure) {
    exists k :: 0 <= k < |h| && h[k] == a
      && (forall j :: 0 <= j < |h| ==> Key(m, a) <= Key(m, h[j]))
      && (forall j :: 0 <= j < k ==> Key(m, h[j]) > Key(m, a))
  }

  /** `a` is the first cell of `h` with the greatest key. */
  ghost predicate IsFirstMax(h: seq<Axial>, a: Axial, m: Measure) {
    exists k :: 0 <= k < |h| && h[k] == a
      && (forall j :: 0 <= j < |h| ==> Key(m, h[j]) <= Key(m, a))
      && (forall j :: 0 <= j < k ==> Key(m, h[j]) < Key(m, a))
  }

  /**
   * `b` holds the extremes of the cells `h` in push order: left and right
   * the first cells of least and greatest q, top and bottom the first cells
   * of least and greatest vertical position.
   */
  ghost predicate BoundsOf(h: seq<Axial>, b: Bounds) {
    IsFirstMin(h, b.left, Column) && IsFirstMax(h, b.right, Column)
      && IsFirstMin(h, b.top, Row) && IsFirstMax(h, b.bottom, Row)
  }

  /** The least key among the cells `h`. */
  function MinKey(h: seq<Axial>, m: Measure): int
    requires |h| > 0
  {
    if |h| == 1 then Key(m, h[0])
    else if Key(m, h[0]) <= MinKey(h[1..], m) then Key(m, h[0])
    else MinKey(h[1..], m)
  }

  /** The greatest key among the cells `h`. */
  function MaxKey(h: seq<Axial>, m: Measure): int
    requires |h| > 0
  {
    if |h| == 1 then Key(m, h[0])
    else if Key(m, h[0]) >= MaxKey(h[1..], m) then Key(m, h[0])
    else MaxKey(h[1..], m)
  }

  /** MinKey is a key of some cell and no cell's key is smaller; MaxKey likewise. */
  lemma {:induction false} KeyExtremes(h: seq<Axial>, m: Measure)
    requires |h| > 0
    ensures forall j :: 0 <= j < |h| ==> MinKey(h, m) <= Key(m, h[j]) <= MaxKey(h, m)
    ensures exists j :: 0 <= j < |h| && MinKey(h, m) == Key(m, h[j])
    ensures exists j :: 0 <= j < |h| && MaxKey(h, m) == Key(m, h[j])
  {
    if |h| > 1 {
      KeyExtremes(h[1..], m);
      assert forall j :: 1 <= j < |h| ==> h[j] == h[1..][j - 1];
      var lo :| 0 <= lo < |h| - 1 && MinKey(h[1..], m) == Key(m, h[1..][lo]);
      var hi :| 0 <= hi < |h| - 1 && MaxKey(h[1..], m) == Key(m, h[1..][hi]);
      assert MinKey(h, m) == Key(m, h[0]) || MinKey(h, m) == Key(m, h[lo + 1]);
      assert MaxKey(h, m) == Key(m, h[0]) || MaxKey(h, m) == Key(m, h[hi + 1]);
    } else {
      assert MinKey(h, m) == Key(m, h[0]);
    }
  }

  lemma PairExtremes(x: Axial, y: Axial, m: Measure)
    ensures MinKey([x, y], m) == if Key(m, x) <= Key(m, y) then Key(m, x) else Key(m, y)
    ensures MaxKey([x, y], m) == if Key(m, x) >= Key(m, y) then Key(m, x) else Key(m, y)
  {
    assert [x, y][1..] == [y];
  }

  /**
   * The size of a drawing of the cells `h`, from the cells alone: 8 columns
   * plus 6 per step of q, 5 rows plus 2 per step of vertical position.
   */
  function Dimensions(h: seq<Axial>): (int, int) {
    if h == [] then (0, 0)
    else
      (TemplateWidth + TemplateWidthAdd * (MaxKey(h, Column) - MinKey(h, Column)),
       TemplateHeight + TemplateHeightHorizAdd * (MaxKey(h, Row) - MinKey(h, Row)))
  }

  /** The extremes that bounds record are the least and greatest keys. */
  lemma BoundsAreExtremes(h: seq<Axial>, b: Bounds)
    requires BoundsOf(h, b)
    ensures b.left.q == MinKey(h, Column) && b.right.q == MaxKey(h, Column)
    ensures b.top.VerticalPos() == MinKey(h, Row) && b.bottom.VerticalPos() == MaxKey(h, Row)
  {
    KeyExtremes(h, Column);
    KeyExtremes(h, Row);
  }

  /** Every cell of `h` lies between the bounds' extremes. */
  lemma BoundsCover(h: seq<Axial>, b: Bounds, p: Axial)
    requires BoundsOf(h, b) && p in h
    ensures b.left.q <= p.q <= b.right.q
    ensures b.top.VerticalPos() <= p.VerticalPos() <= b.bottom.VerticalPos()
  {
  }

  lemma FirstMinStep(h: seq<Axial>, a: Axial, p: Axial, m: Measure)
    requires IsFirstMin(h, a, m)
    ensures IsFirstMin(h + [p], if Key(m, a) > Key(m, p) then p else a, m)
  {
    var h' := h + [p];
    if Key(m, a) > Key(m, p) {
      assert h'[|h|] == p;
    } else {
      var k :| 0 <= k < |h| && h[k] == a
        && (forall j :: 0 <= j < |h| ==> Key(m, a) <= Key(m, h[j]))
        && (forall j :: 0 <= j < k ==> Key(m, h[j]) > Key(m, a));
      assert h'[k] == a;
    }
  }

  /** Widening each corner of `b` that `p` lies strictly beyond gives the bounds of `h + [p]`. */
  lemma BoundsStep(h: seq<Axial>, b: Bounds, p: Axial, b': Bounds)
    requires BoundsOf(h, b)
    requires b'.left == (if b.left.q > p.q then p else b.left)
    requires b'.right == (if b.right.q < p.q then p else b.right)
    requires b'.top == (if b.top.VerticalPos() > p.VerticalPos() then p else b.top)
    requires b'.bottom == (if b.bottom.VerticalPos() < p.VerticalPos() then p else b.bottom)
    ensures BoundsOf(h + [p], b')
  {
    FirstMinStep(h, b.left, p, Column);
    FirstMaxStep(h, b.right, p, Column);
    FirstMinStep(h, b.top, p, Row);
    FirstMaxStep(h, b.bottom, p, Row);
  }

  lemma FirstMaxStep(h: seq<Axial>, a: Axial, p: Axial, m: Measure)
    requires IsFirstMax(h, a, m)
    ensures IsFirstMax(h + [p], if Key(m, a) < Key(m, p) then p else a, m)
  {
    var h' := h + [p];
    if Key(m, a) < Key(m, p) {
      assert h'[|h|] == p;
    } else {
      var k :| 0 <= k < |h| && h[k] == a
        && (forall j :: 0 <= j < |h| ==> Key(m, h[j]) <= Key(m, a))
        && (forall j :: 0 <= j < k ==> Key(m, h[j]) < Key(m, a));
      assert h'[k] == a;
    }
  }

  /** The positions of `ps`, in order. */
  function Positions(ps: seq<PlacedTile>): (h: seq<Axial>)
    ensures |h| == |ps| && forall i :: 0 <= i < |ps| ==> h[i] == ps[i].position
  {
    seq(|ps|, i requires 0 <= i < |ps| => ps[i].position)
  }

  lemma PositionsAppend(ps: seq<PlacedTile>, t: PlacedTile)
    ensures Positions(ps + [t]) == Positions(ps) + [t.position]
  {
  }

  /**
   * Inserting `t` where everything before is at most `t` and everything
   * after at least `t` keeps a sorted sequence sorted, and adds `t` to its
   * contents.
   */
  lemma InsertKeepsSorted(ps: seq<PlacedTile>, t: PlacedTile, k: nat)
    requires SortedByPosition(ps) && k <= |ps|
    requires forall i :: 0 <= i < k ==> ps[i].Cmp(t) != Greater
    requires forall i :: k <= i < |ps| ==> ps[i].Cmp(t) != Less
    ensures SortedByPosition(ps[..k] + [t] + ps[k..])
    ensures multiset(ps[..k] + [t] + ps[k..]) == multiset(ps) + multiset{t}
  {
    var r := ps[..k] + [t] + ps[k..];
    forall i, j | 0 <= i < j < |r|
      ensures r[i].Cmp(r[j]) != Greater
    {
      if j == k {
      } else if i == k {
        EqAndCmpConsistent(r[i], r[j], r[j]);
      }
    }
    assert ps == ps[..k] + ps[k..];
  }

  /** Sorted in the order of `PlacedTile::cmp`. */
  predicate SortedByPosition(ps: seq<PlacedTile>) {
    forall i, j :: 0 <= i < j < |ps| ==> ps[i].Cmp(ps[j]) != Greater
  }

  /**
   * `after` is `before` with `tile` inserted at index k, the way push
   * inserts it: when a piece on the tile's cell is already there, k is the
   * index of such a piece, so the tile goes in front of it.
   */
  predicate InsertedAt(before: seq<PlacedTile>, tile: PlacedTile, k: nat, after: seq<PlacedTile>) {
    && k <= |before|
    && after == before[..k] + [tile] + before[k..]
    && ((exists i :: 0 <= i < |before| && before[i].position == tile.position) ==>
          k < |before| && before[k].position == tile.position)
  }

  /**
   * A tile pushed onto an occupied cell is followed by a piece on the same
   * cell, whose template is stamped after the tile's.
   */
  lemma InsertedBeforeSameCell(before: seq<PlacedTile>, tile: PlacedTile, k: nat, after: seq<PlacedTile>, i: nat)
    requires InsertedAt(before, tile, k, after)
    requires i < |before| && before[i].position == tile.position
    ensures k + 1 < |after| && after[k] == tile && after[k + 1].position == tile.position
  {
  }

  /** Inserting at the index a binary search answers is insertion the way push does it. */
  lemma SearchInsertion(ps: seq<PlacedTile>, t: PlacedTile, r: SearchResult)
    requires r.index <= |ps|
    requires r.Found? ==> r.index < |ps| && ps[r.index].Cmp(t) == Equal
    requires r.NotFound? ==> forall i :: 0 <= i < |ps| ==> ps[i].Cmp(t) != Equal
    ensures InsertedAt(ps, t, r.index, ps[..r.index] + [t] + ps[r.index..])
  {
    if exists i :: 0 <= i < |ps| && ps[i].position == t.position {
      var i :| 0 <= i < |ps| && ps[i].position == t.position;
      assert ps[i].Cmp(t) == Equal;
    }
  }

  /** The answer of a binary search: `Ok(index)` or `Err(index)`. */
  datatype SearchResult = Found(index: nat) | NotFound(index: nat)

  /**
   * `binary_search` on a sorted slice: a match if there is one, otherwise
   * the index where `t` can be inserted; either way, inserting `t` at the
   * index keeps the slice sorted.
   */
  method BinarySearch(ps: seq<PlacedTile>, t: PlacedTile) returns (r: SearchResult)
    requires SortedByPosition(ps)
    ensures r.index <= |ps|
    ensures r.Found? ==> r.index < |ps| && ps[r.index].Cmp(t) == Equal
    ensures r.NotFound? ==> forall i :: 0 <= i < |ps| ==> ps[i].Cmp(t) != Equal
    ensures forall i :: 0 <= i < r.index ==> ps[i].Cmp(t) != Greater
    ensures forall i :: r.index <= i < |ps| ==> ps[i].Cmp(t) != Less
  {
    var lo, hi := 0, |ps|;
    while lo < hi
      invariant 0 <= lo <= hi <= |ps|
      invariant forall i :: 0 <= i < lo ==> ps[i].Cmp(t) == Less
      invariant forall i :: hi <= i < |ps| ==> ps[i].Cmp(t) != Less
      decreases hi - lo
    {
      var mid := lo + (hi - lo) / 2;
      if ps[mid].Cmp(t) == Less {
        forall i | lo <= i < mid
          ensures ps[i].Cmp(t) == Less
        {
          EqAndCmpConsistent(ps[i], ps[mid], t);
          CmpIsTotalOrder(ps[i].position, ps[mid].position, t.position);
        }
        lo := mid + 1;
      } else {
        forall i | mid < i < hi
          ensures ps[i].Cmp(t) != Less
        {
          CmpIsTotalOrder(t.position, ps[mid].position, ps[i].position);
        }
        hi := mid;
      }
    }
    if lo < |ps| && ps[lo].Cmp(t) == Equal {
      r := Found(lo);
    } else {
      r := NotFound(lo);
    }
  }

  class RenderStdout {
    var bounds: Option<Bounds>
    var pieces: seq<PlacedTile>
    /** Every piece pushed so far, in push order. */
    ghost var pushed: seq<PlacedTile>

    ghost predicate Valid()
      reads this
    {
      && SortedByPosition(pieces)
      && multiset(pieces) == multiset(pushed)
      && (bounds.None? <==> pushed == [])
      && (bounds.Some? ==> BoundsOf(Positions(pushed), bounds.value))
    }

    constructor ()
      ensures Valid()
      ensures bounds == None && pieces == [] && pushed == []
    {
      bounds := None;
      pieces := [];
      pushed := [];
    }

    /**
     * Records the tile: `pieces` gains it at its binary-search position and
     * stays sorted, and the bounds take in its position.
     */
    method Push(tile: PlacedTile)
      requires Valid()
      modifies this
      ensures Valid()
      ensures pushed == old(pushed) + [tile]
      ensures exists k :: InsertedAt(old(pieces), tile, k, pieces)
      ensures old(bounds).None? ==> bounds == Some(Bounds.New(tile.position, tile.position, tile.position, tile.position))
    {
      UpdateBounds(tile.position);
      var found := BinarySearch(pieces, tile);
      var pos := found.index;
      InsertKeepsSorted(pieces, tile, pos);
      SearchInsertion(pieces, tile, found);
      pieces := pieces[..pos] + [tile] + pieces[pos..];
      PositionsAppend(pushed, tile);
      pushed := pushed + [tile];
    }

    /**
     * Takes `pos` into the bounds: the first push sets all four corners to
     * it; later pushes replace a corner only when `pos` lies strictly
     * beyond it.
     */
    method UpdateBounds(pos: Axial)
      requires bounds.None? <==> pushed == []
      requires bounds.Some? ==> BoundsOf(Positions(pushed), bounds.value)
      modifies this`bounds
      ensures bounds.Some? && BoundsOf(Positions(pushed) + [pos], bounds.value)
      ensures old(bounds).None? ==> bounds == Some(Bounds.New(pos, pos, pos, pos))
    {
      match bounds {
        case None =>
          bounds := Some(Bounds.New(pos, pos, pos, pos));
          assert ([] + [pos])[0] == pos;
        case Some(b) =>
          var left := if b.left.q > pos.q then pos else b.left;
          var right := if b.right.q < pos.q then pos else b.right;
          var top := if b.top.VerticalPos() > pos.VerticalPos() then pos else b.top;
          var bottom := if b.bottom.VerticalPos() < pos.VerticalPos() then pos else b.bottom;
          BoundsStep(Positions(pushed), b, pos, Bounds(top, bottom, left, right));
          bounds := Some(Bounds(top, bottom, left, right));
      }
    }

    /** The width of the drawing: 8 columns for the first hexagon and 6 for each further column of cells. */
    function CharactersWide(): (w: int)
      reads this
      ensures bounds.None? ==> w == 0
    {
      match bounds
      case None => 0
      case Some(b) =>
        TemplateWidth + (b.right.q - b.left.q) * TemplateWidthAdd
    }

    /**
     * The height of the drawing: 5 rows for the first hexagon, 2 for each
     * step in q and 4 for each step in r from top to bottom, which is 2 for
     * each step of vertical position.
     */
    function CharactersHigh(): (h: int)
      reads this
      ensures bounds.None? ==> h == 0
      ensures bounds.Some? ==> h == TemplateHeight + TemplateHeightHorizAdd * (bounds.value.bottom.VerticalPos() - bounds.value.top.VerticalPos())
    {
      match bounds
      case None => 0
      case Some(b) =>
        var qheight := b.bottom.q - b.top.q;
        var rheight := b.bottom.r - b.top.r;
        TemplateHeight + qheight * TemplateHeightHorizAdd + rheight * TemplateHeightVertAdd
    }

    /** Where a cell's hexagon starts in the drawing: (column, row) of its template's top-left corner. */
    function RenderPosition(position: Axial): (target: (int, int))
      reads this
      requires bounds.Some?
      ensures position.q == bounds.value.left.q ==> target.0 == 0
      ensures position.VerticalPos() == bounds.value.top.VerticalPos() ==> target.1 == 0
      ensures bounds.value.left.q <= position.q <==> target.0 >= 0
      ensures bounds.value.top.VerticalPos() <= position.VerticalPos() <==> target.1 >= 0
    {
      var b := bounds.value;
      (TemplateWidthAdd * (position.q - b.left.q),
       TemplateHeightHorizAdd * (position.VerticalPos() - b.top.VerticalPos()))
    }

    /** Different cells start their hexagons at different places in the drawing. */
    lemma RenderPositionInjective(a: Axial, b: Axial)
      requires bounds.Some? && a != b
      ensures RenderPosition(a) != RenderPosition(b)
    {
      if a.q == b.q {
        assert a.VerticalPos() != b.VerticalPos();
      }
    }

    /**
     * The drawing's size depends only on which cells were pushed, not on
     * their order: it is `Dimensions` of the pushed positions.
     */
    lemma DimensionsOf()
      requires Valid()
      ensures (CharactersWide(), CharactersHigh()) == Dimensions(Positions(pushed))
    {
      var h := Positions(pushed);
      if bounds.Some? {
        var b := bounds.value;
        BoundsAreExtremes(h, b);
        assert |h| > 0;
        var (w, ht) := Dimensions(h);
        assert w == TemplateWidth + TemplateWidthAdd * (b.right.q - b.left.q);
        assert CharactersWide() == w;
        assert ht == TemplateHeight + TemplateHeightHorizAdd * (b.bottom.VerticalPos() - b.top.VerticalPos());
        assert CharactersHigh() == ht;
      }
    }

    /**
     * With the origin and its south-west neighbour pushed, the neighbour is
     * drawn at the left edge two rows down and the origin six columns in.
     */
    lemma RenderPositionExample()
      requires Valid() && Positions(pushed) == [Axial(0, 0), Axial(-1, 1)]
      ensures RenderPosition(Axial(-1, 1)) == (0, TemplateHeightHorizAdd)
      ensures RenderPosition(Axial(0, 0)) == (TemplateWidthAdd, 0)
    {
      BoundsAreExtremes(Positions(pushed), bounds.value);
      PairExtremes(Axial(0, 0), Axial(-1, 1), Column);
      PairExtremes(Axial(0, 0), Axial(-1, 1), Row);
      assert bounds.value.left.q == -1;
      assert bounds.value.top.VerticalPos() == 0;
    }

    /**
     * The character at column x, row y of the drawing once the first k
     * pieces are stamped: the template character of the last of them
     * whose hexagon covers the cell, else '\n' in the extra last column,
     * else ' '.
     */
    ghost function CellAfter(k: nat, x: int, y: int): char
      reads this
      requires bounds.Some? && k <= |pieces|
      decreases k
    {
      if k == 0 then
        (if x == CharactersWide() then '\n' else ' ')
      else
        var target := RenderPosition(pieces[k - 1].position);
        if InTemplate(x, y, target.0, target.1)
        then StampChar(x - target.0, y - target.1, pieces[k - 1].tile.Render())
        else CellAfter(k - 1, x, y)
    }

    /** Stamping piece k over the drawing of the first k pieces. */
    lemma CellAfterStep(k: nat, x: int, y: int)
      requires bounds.Some? && k < |pieces|
      ensures var target := RenderPosition(pieces[k].position);
        CellAfter(k + 1, x, y) ==
          if InTemplate(x, y, target.0, target.1)
          then StampChar(x - target.0, y - target.1, pieces[k].tile.Render())
          else CellAfter(k, x, y)
    {
    }

    /** Every piece's hexagon lies inside the drawing, clear of the newline column. */
    lemma PieceInside(k: nat)
      requires Valid() && bounds.Some? && k < |pieces|
      ensures var target := RenderPosition(pieces[k].position);
        0 <= target.0 && target.0 + TemplateWidth <= CharactersWide()
        && 0 <= target.1 && target.1 + TemplateHeight <= CharactersHigh()
    {
      assert pieces[k] in multiset(pushed);
      var i :| 0 <= i < |pushed| && pushed[i] == pieces[k];
      assert Positions(pushed)[i] == pieces[k].position;
      BoundsCover(Positions(pushed), bounds.value, pieces[k].position);
    }

    /**
     * Hexagons of neighbouring cells interlock: the cell to the south is
     * drawn 4 rows lower, the cells to the south-east and north-east 6
     * columns to the right and 2 rows lower or higher.
     */
    lemma RenderPositionSteps(p: Axial)
      requires bounds.Some?
      ensures var t := RenderPosition(p);
        && RenderPosition(p.North()) == (t.0, t.1 - 4)
        && RenderPosition(p.South()) == (t.0, t.1 + 4)
        && RenderPosition(p.NorthEast()) == (t.0 + 6, t.1 - 2)
        && RenderPosition(p.SouthEast()) == (t.0 + 6, t.1 + 2)
        && RenderPosition(p.SouthWest()) == (t.0 - 6, t.1 + 2)
        && RenderPosition(p.NorthWest()) == (t.0 - 6, t.1 - 2)
    {
      RenderPositionShift(p, p.North());
      RenderPositionShift(p, p.South());
      RenderPositionShift(p, p.NorthEast());
      RenderPositionShift(p, p.SouthEast());
      RenderPositionShift(p, p.SouthWest());
      RenderPositionShift(p, p.NorthWest());
    }

    /** Moving from cell a to cell b moves the hexagon 6 columns per step of q and 2 rows per step of vertical position. */
    lemma RenderPositionShift(a: Axial, b: Axial)
      requires bounds.Some?
      ensures RenderPosition(b).0 == RenderPosition(a).0 + TemplateWidthAdd * (b.q - a.q)
      ensures RenderPosition(b).1 == RenderPosition(a).1 + TemplateHeightHorizAdd * (b.VerticalPos() - a.VerticalPos())
    {
    }

    /** No hexagon reaches the newline column, so every row of the drawing ends in '\n'. */
    lemma {:induction false} NewlineColumnKept(k: nat, y: int)
      requires Valid() && bounds.Some? && k <= |pieces|
      ensures CellAfter(k, CharactersWide(), y) == '\n'
    {
      if k > 0 {
        PieceInside(k - 1);
        NewlineColumnKept(k - 1, y);
      }
    }

    /**
     * The text `render` prints: nothing without bounds; otherwise the
     * (width + 1) * height grid, row-major, where each cell holds what
     * CellAfter says once every piece is stamped in `pieces` order.
     */
    method Render() returns (out: Option<string>)
      requires Valid()
      ensures bounds.None? <==> out.None?
      ensures out.Some? ==> |out.value| == (CharactersWide() + 1) * CharactersHigh()
      ensures out.Some? ==> forall i :: 0 <= i < |out.value| ==>
        out.value[i] == CellAfter(|pieces|, i % (CharactersWide() + 1), i / (CharactersWide() + 1))
    {
      if bounds.None? {
        out := None;
      } else {
        var buffer := Draw();
        out := Some(buffer.ToString());
      }
    }

    /** The drawing as a character grid, one column wider than the pieces need for the '\n's. */
    method Draw() returns (buffer: CharacterBuffer2D.CharacterBuffer2D)
      requires Valid() && bounds.Some?
      ensures buffer.Valid()
      ensures buffer.width == CharactersWide() + 1 && buffer.height == CharactersHigh()
      ensures forall i :: 0 <= i < buffer.buffer.Length ==>
        buffer.buffer[i] == CellAfter(|pieces|, i % buffer.width, i / buffer.width)
    {
      var height := CharactersHigh();
      var width := CharactersWide();
      buffer := new CharacterBuffer2D.CharacterBuffer2D(width + 1, height);
      buffer.SetColumn(width, '\n');
      var w1 := width + 1;
      for k := 0 to |pieces|
        invariant fresh(buffer.buffer)
        invariant buffer.Valid() && buffer.width == w1 && buffer.height == height
        invariant forall i :: 0 <= i < buffer.buffer.Length ==>
          buffer.buffer[i] == CellAfter(k, i % w1, i / w1)
      {
        DrawPiece(buffer, k);
      }
    }

    /** Stamps piece `k` over the cells drawn for the pieces before it. */
    method DrawPiece(buffer: CharacterBuffer2D.CharacterBuffer2D, k: nat)
      requires Valid() && bounds.Some? && k < |pieces|
      requires buffer.Valid() && buffer.width == CharactersWide() + 1 && buffer.height == CharactersHigh()
      requires forall i :: 0 <= i < buffer.buffer.Length ==>
        buffer.buffer[i] == CellAfter(k, i % buffer.width, i / buffer.width)
      modifies buffer.buffer
      ensures forall i :: 0 <= i < buffer.buffer.Length ==>
        buffer.buffer[i] == CellAfter(k + 1, i % buffer.width, i / buffer.width)
    {
      var piece := pieces[k];
      var target := RenderPosition(piece.position);
      PieceInside(k);
      Stamp(buffer, target.0, target.1, piece.tile.Render());
      forall i | 0 <= i < buffer.buffer.Length {
        CellAfterStep(k, i % buffer.width, i / buffer.width);
      }
    }
  }

  /**
   * Writes the template, row by row and column by column, with its top-left
   * corner at (tx, ty); every write lands inside the grid.
   */
  method Stamp(buffer: CharacterBuffer2D.CharacterBuffer2D, tx: nat, ty: nat, glyph: char)
    requires buffer.Valid()
    requires tx + TemplateWidth < buffer.width && ty + TemplateHeight <= buffer.height
    modifies buffer.buffer
    ensures forall i :: 0 <= i < buffer.buffer.Length ==>
      buffer.buffer[i] == if InTemplate(i % buffer.width, i / buffer.width, tx, ty)
        then StampChar(i % buffer.width - tx, i / buffer.width - ty, glyph)
        else old(buffer.buffer[i])
  {
    var w := buffer.width;
    for sy := 0 to TemplateHeight
      invariant forall i :: 0 <= i < buffer.buffer.Length ==>
        buffer.buffer[i] == if Written(i % w, i / w, tx, ty, sy, 0)
          then StampChar(i % w - tx, i / w - ty, glyph)
          else old(buffer.buffer[i])
    {
      for sx := 0 to TemplateWidth
        invariant forall i :: 0 <= i < buffer.buffer.Length ==>
          buffer.buffer[i] == if Written(i % w, i / w, tx, ty, sy, sx)
            then StampChar(i % w - tx, i / w - ty, glyph)
            else old(buffer.buffer[i])
      {
        var c := StampChar(sx, sy, glyph);
        CharacterBuffer2D.RowMajorInBounds(tx + sx, ty + sy, w, buffer.height);
        CharacterBuffer2D.RowMajorIndex(tx + sx, ty + sy, w);
        buffer.Set(tx + sx, ty + sy, c);
        forall i | 0 <= i < buffer.buffer.Length {
          StampStep(i, w, tx, ty, sy, sx);
        }
      }
      forall i | 0 <= i < buffer.buffer.Length {
        RowDone(i % w, i / w, tx, ty, sy);
      }
    }
    forall i | 0 <= i < buffer.buffer.Length {
      RowDone(i % w, i / w, tx, ty, TemplateHeight);
    }
  }

  /** The cells of the template at (tx, ty) written once rows 0..sy-1 and columns 0..sx-1 of row sy are done. */
  predicate Written(x: int, y: int, tx: int, ty: int, sy: int, sx: int) {
    tx <= x < tx + TemplateWidth && ty <= y
      && (y < ty + sy || (y == ty + sy && x < tx + sx))
  }

  lemma RowDone(x: int, y: int, tx: int, ty: int, sy: nat)
    ensures Written(x, y, tx, ty, sy, TemplateWidth) <==> Written(x, y, tx, ty, sy + 1, 0)
    ensures sy == TemplateHeight ==> (Written(x, y, tx, ty, sy, 0) <==> InTemplate(x, y, tx, ty))
  {
  }

  /** Writing cell (tx + sx, ty + sy) extends the written part by exactly that cell. */
  lemma StampStep(i: nat, w: nat, tx: nat, ty: nat, sy: nat, sx: nat)
    requires tx + sx < w && sx < TemplateWidth
    ensures Written(i % w, i / w, tx, ty, sy, sx + 1) <==>
      (Written(i % w, i / w, tx, ty, sy, sx) || i == (tx + sx) + (ty + sy) * w)
  {
    CharacterBuffer2D.RowMajorIndex(tx + sx, ty + sy, w);
    CharacterBuffer2D.DivMod(i, w);
  }

  /** Drawing sizes (columns, rows) of render.rs's single-cell and u-shaped layouts. */
  lemma DimensionExamplesSmall()
    ensures Dimensions([]) == (0, 0)
    ensures Dimensions([Axial(0, 0)]) == (8, 5)
    ensures Dimensions([Axial(1, 0)]) == (8, 5)
    ensures Dimensions([Axial(0, 0), Axial(1, 0), Axial(2, -1)]) == (20, 7)
    ensures Dimensions([Axial(1, 0), Axial(2, 0), Axial(3, -1)]) == (20, 7)
  {
  }

  /** Drawing sizes of render.rs's vertical layouts. */
  lemma DimensionExamplesVertical()
    ensures Dimensions([Axial(0, 0), Axial(0, 1)]) == (8, 9)
    ensures Dimensions([Axial(0, 0), Axial(0, 1), Axial(0, 2)]) == (8, 13)
    ensures Dimensions([Axial(0, 0), Axial(0, 1), Axial(0, 2), Axial(0, 3)]) == (8, 17)
  {
  }

  /** Drawing sizes of render.rs's diagonal layouts. */
  lemma DimensionExamplesDiagonal()
    ensures Dimensions([Axial(0, 0), Axial(3, 0)]) == (26, 11)
    ensures Dimensions([Axial(1, 0), Axial(4, 0)]) == (26, 11)
    ensures Dimensions([Axial(0, 0), Axial(3, -1)]) == (26, 7)
  {
  }

  /** Drawing sizes of render.rs's diagonally adjacent layouts. */
  lemma DimensionExamplesAdjacent()
    ensures Dimensions([Axial(0, 0), Axial(1, 0)]) == (14, 7)
    ensures Dimensions([Axial(0, 0), Axial(-1, 1)]) == (14, 7)
    ensures Dimensions([Axial(1, 0), Axial(2, 0)]) == (14, 7)
    ensures Dimensions([Axial(0, 2), Axial(2, -1)]) == (20, 13)
  {
  }
}
