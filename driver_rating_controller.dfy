/** Controller/driverRatingController.js: renters rate the customers who drove their
    vehicles, and the customer dashboard reads a driver's average. */
module DriverRatingController {
  import opened Http
  import opened Collection
  import opened DriverRatingModel
  import Averages

  const RatingRangeMessage: string := "Rating must be between 1 and 5"
  const InternalErrorMessage: string := "Internal server error"

  /** Every stored rating satisfies the schema. */
  ghost predicate AllValid(docs: seq<Doc<DriverRating>>) {
    forall i :: 0 <= i < |docs| ==> Valid(docs[i].data)
  }

  /** `submitDriverRating`: a given rating below 1 or above 5 gives 400; a missing e-mail
      or rating passes that check but fails validation (500); otherwise one rating is
      appended (201). There is no duplicate check, and every stored rating stays valid. */
  method SubmitDriverRating(ratings: Table<DriverRating>, driverEmail: Option<string>, rating: Option<int>)
    returns (r: Reply<Doc<DriverRating>>)
    requires ratings.Valid()
    modifies ratings
    ensures ratings.Valid()
    ensures r.BadRequest? <==> rating.Some? && (rating.value < 1 || rating.value > 5)
    ensures r.Created? <==> NewDriverRating(driverEmail, rating).Some?
    ensures r.Created? ==> Some(r.body.data) == NewDriverRating(driverEmail, rating)
                           && r.body.id == old(ratings.nextId)
                           && ratings.docs == old(ratings.docs) + [r.body]
    ensures !r.Created? ==> ratings.docs == old(ratings.docs)
    ensures r.Created? || r.BadRequest? || r.ServerError?
    ensures old(AllValid(ratings.docs)) ==> AllValid(ratings.docs)
  {
    if rating.Some? && (rating.value < 1 || rating.value > 5) {
      return BadRequest(RatingRangeMessage);
    }
    var d := NewDriverRating(driverEmail, rating);
    if d.None? {
      return ServerError(InternalErrorMessage);
    }
    var id := ratings.Insert(d.value);
    r := Created(Doc(id, d.value));
  }

  /** `DriverRating.find({ driverEmail })`, reduced to the scores, in stored order. */
  function ScoresOf(docs: seq<Doc<DriverRating>>, driverEmail: string): (r: seq<int>)
    ensures |r| <= |docs|
  {
    if docs == [] then []
    else (if docs[0].data.driverEmail == driverEmail then [docs[0].data.rating] else [])
         + ScoresOf(docs[1..], driverEmail)
  }

  /** A rating stored for a driver adds its score to that driver's scores, even when the
      same renter rated the same driver before: repeated ratings all count. */
  lemma {:induction false} ScoresOfAppend(docs: seq<Doc<DriverRating>>, d: Doc<DriverRating>, driverEmail: string)
    ensures ScoresOf(docs + [d], driverEmail)
            == ScoresOf(docs, driverEmail) + (if d.data.driverEmail == driverEmail then [d.data.rating] else [])
  {
    if docs != [] {
      assert (docs + [d])[1..] == docs[1..] + [d];
      ScoresOfAppend(docs[1..], d, driverEmail);
    } else {
      assert [d][1..] == [];
    }
  }

  lemma {:induction false} ScoresOfInRange(docs: seq<Doc<DriverRating>>, driverEmail: string)
    requires AllValid(docs)
    ensures forall k :: 0 <= k < |ScoresOf(docs, driverEmail)| ==> 1 <= ScoresOf(docs, driverEmail)[k] <= 5
  {
    if docs != [] {
      ScoresOfInRange(docs[1..], driverEmail);
    }
  }

  /** `getAverageDriverRating`: 5 for a driver without ratings (not 0, whatever the
      comment beside it says), otherwise the mean of the driver's scores. */
  function GetAverageDriverRating(docs: seq<Doc<DriverRating>>, driverEmail: string): (r: Reply<real>)
    ensures r.Ok?
    ensures ScoresOf(docs, driverEmail) == [] ==> r.body == 5.0
    ensures ScoresOf(docs, driverEmail) != [] ==>
              r.body * (|ScoresOf(docs, driverEmail)| as real) == Averages.Sum(ScoresOf(docs, driverEmail)) as real
  {
    Ok(Averages.AverageOrDefault(ScoresOf(docs, driverEmail)))
  }

  /** Since every stored rating came through validation, a driver's average lies in
      [1, 5]. */
  lemma AverageDriverRatingInRange(docs: seq<Doc<DriverRating>>, driverEmail: string)
    requires AllValid(docs)
    ensures 1.0 <= GetAverageDriverRating(docs, driverEmail).body <= 5.0
  {
    ScoresOfInRange(docs, driverEmail);
    Averages.AverageBounds(ScoresOf(docs, driverEmail), 1, 5);
  }
}
