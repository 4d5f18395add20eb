/**
 * The rectangle of the rendered board: the topmost, bottommost, leftmost
 * and rightmost placed cells.
 */
module Bounds {
  import opened Axial
  import Fmt

  datatype Bounds = Bounds(top: Axial, bottom: Axial, left: Axial, right: Axial) {

    static function Zero(): (b: Bounds)
      ensures b.top == Axial.Zero() && b.bottom == Axial.Zero()
      ensures b.left == Axial.Zero() && b.right == Axial.Zero()
    {
      New(Axial.Zero(), Axial.Zero(), Axial.Zero(), Axial.Zero())
    }

    static function New(top: Axial, bottom: Axial, left: Axial, right: Axial): (b: Bounds)
      ensures b.top == top && b.bottom == bottom && b.left == left && b.right == right
    {
      Bounds(top, bottom, left, right)
    }

    /** `Display`: "(top: T, bottom: B, left: L, right: R)", each corner as "(q, r)". */
    function ToString(): (s: string)
      ensures "(top: " <= s && s[|s| - 1] == ')'
    {
      Field("(top: ", top, Field(", bottom: ", bottom, Field(", left: ", left, Field(", right: ", right, ")"))))
    }
  }

  /** A tag, a corner in its "(q, r)" form, and whatever follows. */
  function Field(tag: string, a: Axial, rest: string): string {
    tag + (a.ToString() + rest)
  }

  /** Behind a given tag, a corner and what follows it can be read back. */
  lemma FieldInjective(tag: string, a: Axial, rest: string, b: Axial, rest': string)
    requires Field(tag, a, rest) == Field(tag, b, rest')
    ensures a == b && rest == rest'
  {
    assert Field(tag, a, rest)[|tag|..] == a.ToString() + rest;
    assert Field(tag, b, rest')[|tag|..] == b.ToString() + rest';
    ToStringClosed(a);
    ToStringClosed(b);
    Fmt.SplitAtDelimiter(a.ToString(), rest, b.ToString(), rest', ')');
    ToStringInjective(a, b);
  }

  /** Display distinguishes every pair of bounds. */
  lemma BoundsToStringInjective(a: Bounds, b: Bounds)
    ensures a.ToString() == b.ToString() ==> a == b
  {
    if a.ToString() == b.ToString() {
      var rightA, rightB := Field(", right: ", a.right, ")"), Field(", right: ", b.right, ")");
      var leftA, leftB := Field(", left: ", a.left, rightA), Field(", left: ", b.left, rightB);
      var bottomA, bottomB := Field(", bottom: ", a.bottom, leftA), Field(", bottom: ", b.bottom, leftB);
      FieldInjective("(top: ", a.top, bottomA, b.top, bottomB);
      FieldInjective(", bottom: ", a.bottom, leftA, b.bottom, leftB);
      FieldInjective(", left: ", a.left, rightA, b.left, rightB);
      FieldInjective(", right: ", a.right, ")", b.right, ")");
    }
  }
}
