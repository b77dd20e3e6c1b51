/** Customer/VehicleRating.jsx: the star form under each of the customer's bookings.
    It checks its inputs in a fixed order before posting to `rateVehicle`, and shows
    either a thank-you or the server's message. The vehicle id comes from the populated
    booking: null once the vehicle was deleted. The server handler runs on the
    collections passed in. */
module VehicleRatingForm {
  import opened Http
  import opened Collection
  import Text
  import VehicleModel
  import VehicleController

  const MissingVehicleMessage: string := "Error: Vehicle ID is missing."
  const InvalidEmailMessage: string := "Error: Valid user email is required."
  const InvalidRatingMessage: string := "Error: Please select a rating between 1 and 5."
  const ThanksMessage: string := "Thank you for rating this vehicle!"
  const FallbackMessage: string := "Failed to submit rating. Please try again."

  /** The client-side checks of `handleRatingSubmit`, first failure first: the error
      message, or none when the request may be sent. */
  function Validate(vehicleId: Option<Id>, userEmail: string, rating: int): (r: Option<string>)
    ensures r.None? <==> vehicleId.Some? && Text.IsEmail(userEmail) && 1 <= rating <= 5
    ensures vehicleId.None? ==> r == Some(MissingVehicleMessage)
    ensures vehicleId.Some? && !Text.IsEmail(userEmail) ==> r == Some(InvalidEmailMessage)
    ensures vehicleId.Some? && Text.IsEmail(userEmail) && !(1 <= rating <= 5) ==> r == Some(InvalidRatingMessage)
  {
    if vehicleId.None? then Some(MissingVehicleMessage)
    else if userEmail == "" || !Text.IsEmail(userEmail) then Some(InvalidEmailMessage)
    else if rating < 1 || rating > 5 then Some(InvalidRatingMessage)
    else None
  }

  /** The message shown for the server's answer: the thank-you on success, otherwise the
      server's own message, or the fallback when it sent none. */
  function ReplyMessage<T>(r: Reply<T>): (m: string)
    ensures r.Succeeded() ==> m == ThanksMessage
    ensures !r.Succeeded() && r.message != "" ==> m == r.message
    ensures !r.Succeeded() && r.message == "" ==> m == FallbackMessage
  {
    if r.Succeeded() then ThanksMessage
    else if r.message != "" then r.message
    else FallbackMessage
  }

  class VehicleRatingState {
    var rating: int
    var message: string

    constructor ()
      ensures rating == 0 && message == ""
    {
      rating := 0;
      message := "";
    }

    /** A star button sets the rating; there is no lock after submitting. */
    method ClickStar(star: int)
      requires 1 <= star <= 5
      modifies this`rating
      ensures rating == star
    {
      rating := star;
    }

    /** `handleRatingSubmit`: a failed check shows its message and sends nothing;
        otherwise `rateVehicle` runs and its answer decides the message. Every rating it
        stores is therefore in 1..5, although the server itself does not check that. */
    method Submit(vehicleId: Option<Id>, userEmail: string,
                  vehicles: Table<VehicleModel.Vehicle>, ratings: Table<VehicleController.VehicleRating>)
      requires vehicles.Valid() && ratings.Valid()
      modifies this`message, ratings
      ensures ratings.Valid()
      ensures Validate(vehicleId, userEmail, rating).Some? ==>
                message == Validate(vehicleId, userEmail, rating).value && ratings.docs == old(ratings.docs)
      ensures Validate(vehicleId, userEmail, rating).None? ==>
                (message == ThanksMessage <==>
                   Lookup(vehicles.docs, vehicleId.value).Some?
                   && !old(VehicleController.HasRated(ratings.docs, vehicleId.value, userEmail)))
      ensures message == ThanksMessage ==>
                |ratings.docs| == |old(ratings.docs)| + 1
                && ratings.docs[..|old(ratings.docs)|] == old(ratings.docs)
                && ratings.docs[|old(ratings.docs)|].data
                   == VehicleController.VehicleRating(vehicleId.value, userEmail, rating)
      ensures message != ThanksMessage ==> ratings.docs == old(ratings.docs)
      ensures forall i :: |old(ratings.docs)| <= i < |ratings.docs| ==> 1 <= ratings.docs[i].data.rating <= 5
    {
      var err := Validate(vehicleId, userEmail, rating);
      if err.Some? {
        message := err.value;
        return;
      }
      var r := VehicleController.RateVehicle(vehicles, ratings, VehicleController.Populated(vehicleId.value),
                                             userEmail, rating);
      message := ReplyMessage(r);
      assert ThanksMessage != VehicleController.VehicleNotFoundMessage && ThanksMessage != VehicleController.AlreadyRatedMessage;
    }
  }
}
