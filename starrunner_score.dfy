/**
 * StarRunner's star score: `starsCollected`, `starScore` and the `ouchActive`
 * flag of the lava overlay. A star pickup sets the score to 1000 points per
 * star collected so far; touching lava takes off 300 points, never going
 * below zero, and only when the overlay from an earlier touch is gone. The
 * overlay's one-second timer enters as whether it has run out.
 */
module StarScore {
  /** `CONFIG.POINTS_PER_STAR`. */
  const PointsPerStar: nat := 1000

  /** `CONFIG.LAVA_PENALTY`. */
  const LavaPenalty: nat := 300

  /** The three globals as a value. */
  datatype Tally = Tally(stars: nat, score: int, ouch: bool)

  /** What happens to the score in a frame. */
  datatype Event =
    | Restart      // a new game starts
    | Pickup       // a star is collected
    | Lava         // the player touches lava
    | OuchOver     // the overlay timer runs out

  /** The reset in `startGame`: no stars, no points; the overlay stays as it is. */
  function Restarted(t: Tally): Tally
  {
    t.(stars := 0, score := 0)
  }

  /** A star pickup in `checkStarCollection`. */
  function Collected(t: Tally): Tally
  {
    var stars := t.stars + 1;
    t.(stars := stars, score := stars * PointsPerStar)
  }

  /** Lava in `checkLavaHoles`: without the overlay up, lose the penalty (floored at 0) and raise it. */
  function Burned(t: Tally): Tally
  {
    if t.ouch then t
    else t.(score := if t.score - LavaPenalty > 0 then t.score - LavaPenalty else 0, ouch := true)
  }

  /** `updateOuchOverlay` once the timer has run out. */
  function Cooled(t: Tally): Tally
  {
    t.(ouch := false)
  }

  function Apply(t: Tally, e: Event): Tally
  {
    match e
    case Restart => Restarted(t)
    case Pickup => Collected(t)
    case Lava => Burned(t)
    case OuchOver => Cooled(t)
  }

  /** The tally after the events `es`, in order. */
  function Play(t: Tally, es: seq<Event>): Tally
  {
    if |es| == 0 then t else Apply(Play(t, es[..|es| - 1]), es[|es| - 1])
  }

  /** The score is never negative and never above 1000 points per star. */
  predicate Sound(t: Tally)
  {
    0 <= t.score <= t.stars * PointsPerStar
  }

  function Pickups(es: seq<Event>): nat
  {
    if |es| == 0 then 0 else Pickups(es[..|es| - 1]) + (if es[|es| - 1] == Pickup then 1 else 0)
  }

  /** Each event keeps the score sound. */
  lemma ApplySound(t: Tally, e: Event)
    requires Sound(t)
    ensures Sound(Apply(t, e))
  {
    if e == Pickup {
      assert Collected(t).score == (t.stars + 1) * PointsPerStar;
    }
  }

  /** From the start of a game, whatever happens, the score stays within 0 and 1000 per star. */
  lemma {:induction false} PlaySound(t: Tally, es: seq<Event>)
    requires Sound(t)
    ensures Sound(Play(t, es))
  {
    if |es| > 0 {
      PlaySound(t, es[..|es| - 1]);
      ApplySound(Play(t, es[..|es| - 1]), es[|es| - 1]);
    }
  }

  /** Right after a pickup the score is exactly 1000 points per star collected. */
  lemma PickupScore(t: Tally, es: seq<Event>)
    requires |es| > 0 && es[|es| - 1] == Pickup
    ensures Play(t, es).score == Play(t, es).stars * PointsPerStar
    ensures Play(t, es).stars >= 1
  {
  }

  /** Without a restart, the star count grows by one per pickup and by nothing else. */
  lemma {:induction false} StarsCounted(t: Tally, es: seq<Event>)
    requires Restart !in es
    ensures Play(t, es).stars == t.stars + Pickups(es)
  {
    if |es| > 0 {
      assert es[..|es| - 1] <= es;
      StarsCounted(t, es[..|es| - 1]);
    }
  }

  /**
   * Touching lava with the overlay down costs 300 points, or all that is
   * left when that is less; with the overlay up it costs nothing. The score
   * never goes below zero.
   */
  lemma BurnedPenalty(t: Tally)
    ensures Burned(t).ouch && Burned(t).stars == t.stars
    ensures t.ouch ==> Burned(t).score == t.score
    ensures !t.ouch && t.score >= LavaPenalty ==> Burned(t).score == t.score - LavaPenalty
    ensures !t.ouch && t.score < LavaPenalty ==> Burned(t).score == 0
    ensures t.score >= 0 ==> Burned(t).score >= 0
  {
  }

  /** Staying in the lava while the overlay is up is charged once. */
  lemma LavaOnce(t: Tally)
    ensures Burned(Burned(t)) == Burned(t)
  {
  }

  /** A pickup recomputes the score from the star count, so an earlier lava penalty is forgotten. */
  lemma PickupForgetsLava(t: Tally)
    ensures Collected(Burned(t)).score == Collected(t).score
    ensures Collected(Burned(t)).stars == Collected(t).stars
  {
  }

  /** The globals `starsCollected`, `starScore` and `ouchActive`. */
  class ScoreKeeper {
    var starsCollected: nat
    var starScore: int
    var ouchActive: bool

    function Snapshot(): Tally
      reads this
    {
      Tally(starsCollected, starScore, ouchActive)
    }

    /** The declarations at the top of the script. */
    constructor ()
      ensures Snapshot() == Tally(0, 0, false)
    {
      starsCollected := 0;
      starScore := 0;
      ouchActive := false;
    }

    /** The reset at the end of `startGame`. */
    method ResetScore()
      modifies this
      ensures Snapshot() == Restarted(old(Snapshot()))
    {
      starsCollected := 0;
      starScore := 0;
    }

    /** `checkStarCollection` for one star within reach. */
    method CollectStar()
      modifies this
      ensures Snapshot() == Collected(old(Snapshot()))
    {
      starsCollected := starsCollected + 1;
      starScore := starsCollected * PointsPerStar;
    }

    /** `checkLavaHoles` once the player is down at the lava, then `showOuchOverlay`. */
    method HitLava()
      modifies this
      ensures Snapshot() == Burned(old(Snapshot()))
    {
      if !ouchActive {
        starScore := if starScore - LavaPenalty > 0 then starScore - LavaPenalty else 0;
        ouchActive := true;
      }
    }

    /** `updateOuchOverlay`: `expired` says whether the timer ran out in this frame. */
    method UpdateOuch(expired: bool)
      modifies this
      ensures Snapshot() == if expired then Cooled(old(Snapshot())) else old(Snapshot())
    {
      if ouchActive {
        if expired {
          ouchActive := false;
        }
      }
    }
  }
}
