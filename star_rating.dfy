/** Renter/StarRating.jsx: five clickable stars and a submit button. A click sets the
    rating until a rating has been submitted; submitting hands a chosen rating to the
    parent. */
module StarRating {
  import opened Http

  /** The stars the component renders, 1 to 5. */
  predicate IsStar(value: int) {
    1 <= value <= 5
  }

  class StarRatingState {
    var rating: int
    var submitted: bool

    /** The rating is 0 (none chosen) or a star, and a submitted rating is a star. */
    ghost predicate Valid()
      reads this
    {
      (rating == 0 || IsStar(rating)) && (submitted ==> IsStar(rating))
    }

    constructor ()
      ensures Valid() && rating == 0 && !submitted
    {
      rating := 0;
      submitted := false;
    }

    /** `handleStarClick(value)` for one of the rendered stars: ignored once submitted. */
    method ClickStar(value: int)
      requires Valid() && IsStar(value)
      modifies this`rating
      ensures Valid()
      ensures old(submitted) ==> rating == old(rating)
      ensures !old(submitted) ==> rating == value
    {
      if !submitted {
        rating := value;
      }
    }

    /** `handleSubmit`: the rating handed to `onRatingSubmit`, if any. Without a chosen
        star nothing is submitted; with one it is submitted every time the button is
        pressed, also after the first submission. */
    method Submit() returns (submittedRating: Option<int>)
      requires Valid()
      modifies this`submitted
      ensures Valid()
      ensures rating == 0 ==> submittedRating.None? && submitted == old(submitted)
      ensures rating != 0 ==> submittedRating == Some(rating) && submitted
      ensures submittedRating.Some? ==> IsStar(submittedRating.value)
    {
      if rating > 0 {
        submittedRating := Some(rating);
        submitted := true;
      } else {
        submittedRating := None;
      }
    }
  }
}
