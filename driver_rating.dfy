/** Model/DriverRating.js: a renter's rating of a customer as a driver. */
module DriverRatingModel {
  import opened Http
  import VehicleModel

  datatype DriverRating = DriverRating(driverEmail: string, rating: int)

  /** What the schema guarantees of every stored rating: an e-mail and a score in 1..5. */
  predicate Valid(d: DriverRating) {
    d.driverEmail != "" && 1 <= d.rating <= 5
  }

  /** Builds and validates a new rating: none unless `driverEmail` and `rating` are given
      and the rating lies within the schema's `min: 1` and `max: 5`. */
  function NewDriverRating(driverEmail: Option<string>, rating: Option<int>): (r: Option<DriverRating>)
    ensures r.Some? <==> VehicleModel.Supplied(driverEmail) && rating.Some? && 1 <= rating.value <= 5
    ensures r.Some? ==> Valid(r.value)
    ensures r.Some? ==> Some(r.value.driverEmail) == driverEmail && Some(r.value.rating) == rating
  {
    if VehicleModel.Supplied(driverEmail) && rating.Some? && 1 <= rating.value <= 5
    then Some(DriverRating(driverEmail.value, rating.value))
    else None
  }
}
