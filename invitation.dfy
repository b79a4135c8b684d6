/** src/components/Invitation.tsx: ten taps on the heart open the question,
    and "yes" moves on to the teaser before the dashboard. */
module Invitation {

  const TapsToQuestion := 10

  datatype InvitationPhase = Tapping | Question | Teaser

  /** The order the phases come in. */
  function Rank(phase: InvitationPhase): (r: nat)
    ensures r <= 2
    ensures r == 0 <==> phase == Tapping
    ensures r == 2 <==> phase == Teaser
  {
    match phase
    case Tapping => 0
    case Question => 1
    case Teaser => 2
  }

  class InvitationCard {
    var taps: int
    var phase: InvitationPhase
    /** The offset of the "no" button, which runs away from the pointer. */
    var noX: real
    var noY: real

    /** The heart is tapped while fewer than ten taps have been counted. */
    predicate Valid()
      reads this
    {
      taps >= 0 && (phase == Tapping <==> taps < TapsToQuestion)
    }

    constructor()
      ensures Valid()
      ensures taps == 0 && phase == Tapping && noX == 0.0 && noY == 0.0
    {
      taps := 0;
      phase := Tapping;
      noX := 0.0;
      noY := 0.0;
    }

    /** `handleTap` on the heart, which shows only while tapping: one more
        tap, and the question once the tenth arrives. */
    method HandleTap()
      requires Valid() && phase == Tapping
      modifies this
      ensures Valid()
      ensures taps == old(taps) + 1
      ensures phase == (if taps >= TapsToQuestion then Question else Tapping)
      ensures Rank(phase) >= Rank(old(phase))
      ensures noX == old(noX) && noY == old(noY)
    {
      var nextTaps := taps + 1;
      taps := nextTaps;
      if nextTaps >= TapsToQuestion {
        phase := Question;
      }
    }

    /** `handleYes` on the question screen: on to the teaser. */
    method HandleYes()
      requires Valid() && phase == Question
      modifies this
      ensures Valid()
      ensures phase == Teaser && taps == old(taps)
      ensures Rank(phase) > Rank(old(phase))
      ensures noX == old(noX) && noY == old(noY)
    {
      phase := Teaser;
    }

    /** `resetNoButton`, run on every window resize. */
    method ResetNoButton()
      requires Valid()
      modifies this
      ensures Valid()
      ensures noX == 0.0 && noY == 0.0
      ensures taps == old(taps) && phase == old(phase)
    {
      noX := 0.0;
      noY := 0.0;
    }
  }
}
