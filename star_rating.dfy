/** The star rating: a committed `rating`, a transient `hoverRating` while
    the pointer is over a star, and the fill of each of `maxStars` stars. */
module StarRating {
  import opened Wrappers

  /** `hoverRating || rating`: a hover of 0 means no hover. */
  function EffectiveRating(hoverRating: int, rating: int): (r: int)
    ensures hoverRating != 0 ==> r == hoverRating
    ensures hoverRating == 0 ==> r == rating
  {
    if hoverRating != 0 then hoverRating else rating
  }

  /** `getStarFill(starIndex)`. */
  predicate IsFilled(starIndex: nat, hoverRating: int, rating: int) {
    starIndex < EffectiveRating(hoverRating, rating)
  }

  /** The fill of each rendered star, `[...Array(maxStars)]` in order. */
  function Fills(maxStars: nat, hoverRating: int, rating: int): (r: seq<bool>)
    ensures |r| == maxStars
    ensures forall i :: 0 <= i < maxStars ==> (r[i] <==> IsFilled(i, hoverRating, rating))
  {
    seq(maxStars, i requires 0 <= i => IsFilled(i, hoverRating, rating))
  }

  function CountFilled(fills: seq<bool>): nat
    decreases |fills|
  {
    if fills == [] then 0
    else CountFilled(fills[..|fills| - 1]) + (if fills[|fills| - 1] then 1 else 0)
  }

  /** The filled stars are a prefix: star `i` is filled exactly when `i` is
      below the effective rating, so `min(maxStars, max(0, effective))` of
      them are filled and none after an unfilled one. */
  lemma {:induction false} FilledPrefix(maxStars: nat, hoverRating: int, rating: int)
    ensures var eff := EffectiveRating(hoverRating, rating);
            CountFilled(Fills(maxStars, hoverRating, rating))
              == if eff <= 0 then 0 else if eff < maxStars then eff else maxStars
    ensures forall i, j :: 0 <= i < j < maxStars && Fills(maxStars, hoverRating, rating)[j]
              ==> Fills(maxStars, hoverRating, rating)[i]
    decreases maxStars
  {
    if maxStars > 0 {
      var fills := Fills(maxStars, hoverRating, rating);
      FilledPrefix(maxStars - 1, hoverRating, rating);
      assert fills[..maxStars - 1] == Fills(maxStars - 1, hoverRating, rating);
    }
  }

  class StarRating {
    const maxStars: nat
    const readonly: bool
    var rating: int
    var hoverRating: int

    /** A hover names one of the stars, or none. */
    ghost predicate Valid()
      reads this
    {
      0 <= hoverRating <= maxStars
    }

    constructor (maxStars: nat, initialRating: int, readonly: bool)
      ensures Valid()
      ensures this.maxStars == maxStars && this.readonly == readonly
      ensures rating == initialRating && hoverRating == 0
    {
      this.maxStars := maxStars;
      this.readonly := readonly;
      rating := initialRating;
      hoverRating := 0;
    }

    /** `handleStarClick(starIndex)`; returns what `onRatingChange` is
        called with. */
    method HandleStarClick(starIndex: nat) returns (reported: Option<int>)
      requires Valid() && starIndex < maxStars
      modifies this
      ensures Valid()
      ensures readonly ==> rating == old(rating) && reported == None
      ensures !readonly ==> rating == starIndex + 1 && reported == Some(starIndex + 1)
      ensures hoverRating == old(hoverRating)
    {
      if readonly {
        return None;
      }
      var newRating := starIndex + 1;
      rating := newRating;
      reported := Some(newRating);
    }

    method HandleStarHover(starIndex: nat)
      requires Valid() && starIndex < maxStars
      modifies this
      ensures Valid()
      ensures hoverRating == if readonly then old(hoverRating) else starIndex + 1
      ensures rating == old(rating)
    {
      if !readonly {
        hoverRating := starIndex + 1;
      }
    }

    method HandleMouseLeave()
      requires Valid()
      modifies this
      ensures Valid()
      ensures hoverRating == if readonly then old(hoverRating) else 0
      ensures rating == old(rating)
    {
      if !readonly {
        hoverRating := 0;
      }
    }

    /** What the stars show right now. */
    function StarFills(): seq<bool>
      reads this
    {
      Fills(maxStars, hoverRating, rating)
    }
  }

  /** While hovering star `i` the first `i + 1` stars fill, whatever the
      committed rating; after the pointer leaves, the committed rating
      shows again. */
  lemma HoverPreview(maxStars: nat, starIndex: nat, rating: int)
    requires starIndex < maxStars
    ensures CountFilled(Fills(maxStars, starIndex + 1, rating)) == starIndex + 1
    ensures Fills(maxStars, 0, rating) == seq(maxStars, i requires 0 <= i => i < rating)
  {
    FilledPrefix(maxStars, starIndex + 1, rating);
  }
}
