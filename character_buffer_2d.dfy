/**
 * A width-by-height grid of characters stored row-major in one buffer:
 * cell (x, y) lives at index x + y * width. Like the source, `Set` and
 * `Get` check only that this index is inside the buffer, not that x is
 * inside the row.
 */
module CharacterBuffer2D {

  /** Row-major indices decode back to their column and row. */
  lemma RowMajorIndex(x: nat, y: nat, width: nat)
    requires x < width
    ensures (x + y * width) % width == x
    ensures (x + y * width) / width == y
  {
    var i := x + y * width;
    var q, m := i / width, i % width;
    assert i == q * width + m;
    assert (q - y) * width == x - m;
    if q > y {
      MulAtLeast(q - y, width);
    } else if q < y {
      MulAtLeast(y - q, width);
    }
  }

  lemma DivMod(i: nat, width: nat)
    requires width > 0
    ensures i == i % width + (i / width) * width
  {
  }

  /** The cells of column `col` in rows 0..y+1 are those in rows 0..y and cell (col, y). */
  lemma ColumnStep(i: nat, col: nat, y: nat, width: nat)
    requires col < width
    ensures (i % width == col && i / width < y + 1) <==>
      ((i % width == col && i / width < y) || i == col + y * width)
  {
    RowMajorIndex(col, y, width);
    DivMod(i, width);
  }

  /** A positive multiple of w is at least w. */
  lemma MulAtLeast(k: int, w: nat)
    requires k >= 1
    ensures k * w >= w
  {
  }

  /** A cell inside the grid has its index inside the buffer. */
  lemma RowMajorInBounds(x: nat, y: nat, width: nat, height: nat)
    requires x < width && y < height
    ensures x + y * width < width * height
  {
    assert x + y * width < (y + 1) * width;
    MulAtLeast(height - y, width);
    assert (y + 1) * width <= height * width by {
      assert height * width - (y + 1) * width == (height - y - 1) * width;
    }
  }

  class CharacterBuffer2D {
    const buffer: array<char>
    const width: nat
    const height: nat

    ghost predicate Valid()
      reads this
    {
      buffer.Length == width * height
    }

    /** A blank grid: width * height spaces. */
    constructor (width: nat, height: nat)
      ensures Valid() && fresh(buffer)
      ensures this.width == width && this.height == height
      ensures forall i :: 0 <= i < buffer.Length ==> buffer[i] == ' '
    {
      this.width := width;
      this.height := height;
      buffer := new char[width * height](_ => ' ');
    }

    function Get(x: nat, y: nat): char
      reads this, buffer
      requires x + y * width < buffer.Length
    {
      buffer[x + y * width]
    }

    /** Writes one cell; reading it back gives `val`, and no other cell changes. */
    method Set(x: nat, y: nat, val: char)
      requires x + y * width < buffer.Length
      modifies buffer
      ensures buffer[x + y * width] == val
      ensures forall i :: 0 <= i < buffer.Length && i != x + y * width ==> buffer[i] == old(buffer[i])
    {
      buffer[x + y * width] := val;
    }

    /** Fills column `col` of every row with `val`; no other cell changes. */
    method SetColumn(col: nat, val: char)
      requires Valid()
      requires height > 0 ==> col < width
      modifies buffer
      ensures forall i :: 0 <= i < buffer.Length ==>
        buffer[i] == if i % width == col then val else old(buffer[i])
    {
      ghost var before := buffer[..];
      for y := 0 to height
        invariant forall i :: 0 <= i < buffer.Length ==>
          buffer[i] == if i % width == col && i / width < y then val else before[i]
      {
        SetColumnRow(col, y, val, before);
      }
      forall i | 0 <= i < buffer.Length && i % width == col
        ensures i / width < height
      {
        ColumnOfCell(i, width, height);
      }
    }

    /** One step of SetColumn: rows 0..y of column `col` are filled once row y is. */
    method SetColumnRow(col: nat, y: nat, val: char, ghost before: seq<char>)
      requires Valid() && col < width && y < height && |before| == buffer.Length
      requires forall i :: 0 <= i < buffer.Length ==>
        buffer[i] == if i % width == col && i / width < y then val else before[i]
      modifies buffer
      ensures forall i :: 0 <= i < buffer.Length ==>
        buffer[i] == if i % width == col && i / width < y + 1 then val else before[i]
    {
      RowMajorInBounds(col, y, width, height);
      Set(col, y, val);
      forall i | 0 <= i < buffer.Length {
        ColumnStep(i, col, y, width);
      }
    }

    /** The grid's characters in row-major order. */
    function ToString(): (s: string)
      reads this, buffer
      requires Valid()
      ensures |s| == width * height
      ensures forall i :: 0 <= i < |s| ==> s[i] == buffer[i]
      ensures forall x: nat, y: nat :: x + y * width < |s| ==> s[x + y * width] == Get(x, y)
    {
      buffer[..]
    }
  }

  /** An index inside a width * height buffer lies in one of its rows. */
  lemma ColumnOfCell(i: nat, width: nat, height: nat)
    requires width > 0 && i < width * height
    ensures i / width < height
  {
    DivMod(i, width);
    MulLess(i / width, height, width);
  }

  lemma MulLess(a: int, b: int, w: nat)
    requires w > 0 && a * w < b * w
    ensures a < b
  {
  }
}
