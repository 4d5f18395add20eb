/** The two players of a game (the `PlayerNumber` enum of player.rs). */
module PlayerNumber {

  datatype PlayerNumber = One | Two {
    /** The opponent. */
    function Other(): (p: PlayerNumber)
      ensures p != this
    {
      match this
      case One => Two
      case Two => One
    }
  }

  /** Taking the opponent twice gives the player back. */
  lemma OtherInvolution(p: PlayerNumber)
    ensures p.Other().Other() == p
    ensures One.Other() == Two && Two.Other() == One
  {
  }
}
