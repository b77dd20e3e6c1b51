/** Renter/ConfirmedBookings.jsx: the renter's confirmed bookings. "Received Vehicle back"
    opens a star rating of the customer; submitting it rates the driver, marks the booking
    Received, patches the list and makes the vehicle Available again. The three requests
    run one after the other and the first failure stops the rest, so earlier effects stay.
    The server's handlers run on the collections passed in. */
module ConfirmedBookings {
  import opened Http
  import opened Collection
  import opened BookingModel
  import VehicleModel
  import DriverRatingModel
  import BookingController
  import VehicleController
  import DriverRatingController
  import opened RenterViews

  /** What the rating modal was opened for: `{ bookingId, userEmail }`. */
  datatype Selection = Selection(bookingId: Id, userEmail: string)

  /** How far `handleRatingSubmit` got. */
  datatype Outcome =
    | NoSelection        // `selectedBooking` is null: destructuring it throws
    | RatingRejected     // the driver rating was not stored
    | BookingMissing     // the booking status update found nothing
    | VehicleMissing     // the listed vehicle no longer exists
    | Completed

  /** How far `handleRatingSubmit` gets, from the state before it: no selection, a
      rating the schema refuses, an unknown booking, and a listed vehicle that no longer
      exists each stop it at that stage. */
  function RatingStage(selected: Option<Selection>, rating: int, bookingDocs: seq<Doc<Booking>>,
                       vehicleDocs: seq<Doc<VehicleModel.Vehicle>>, views: seq<BookingView>): Outcome
  {
    if selected.None? then NoSelection
    else if DriverRatingModel.NewDriverRating(Some(selected.value.userEmail), Some(rating)).None? then RatingRejected
    else if Lookup(bookingDocs, selected.value.bookingId).None? then BookingMissing
    else
      var vid := ListedVehicle(views, selected.value.bookingId);
      if vid.Some? && Lookup(vehicleDocs, vid.value).None? then VehicleMissing else Completed
  }

  class ConfirmedBookingsPage {
    var bookings: seq<BookingView>
    var showRatingModal: bool
    var selected: Option<Selection>

    constructor ()
      ensures bookings == [] && !showRatingModal && selected.None?
    {
      bookings := [];
      showRatingModal := false;
      selected := None;
    }

    /** `fetchBookings` given the answer of `getConfirmedBooking`. */
    method Fetch(renterEmail: string, response: Reply<seq<BookingView>>)
      modifies this`bookings
      ensures renterEmail != "" && response.Succeeded() ==> bookings == response.body
      ensures renterEmail == "" || !response.Succeeded() ==> bookings == old(bookings)
    {
      if renterEmail != "" && response.Succeeded() {
        bookings := response.body;
      }
    }

    /** `handleReceivedVehicle` */
    method ReceivedVehicleClicked(bookingId: Id, userEmail: string)
      modifies this`selected, this`showRatingModal
      ensures selected == Some(Selection(bookingId, userEmail)) && showRatingModal
    {
      selected := Some(Selection(bookingId, userEmail));
      showRatingModal := true;
    }

    /** `handleRatingSubmit(rating)`: the stages run as `RatingStage` says, each only
        when the one before it succeeded, and the modal closes whatever happened. Once
        both the rating and the booking update succeeded the list is patched, whether
        or not the vehicle is then released. */
    method SubmitRating(rating: int, ratings: Table<DriverRatingModel.DriverRating>,
                        bookingTable: Table<Booking>, vehicleTable: Table<VehicleModel.Vehicle>)
      returns (outcome: Outcome)
      requires ratings.Valid() && bookingTable.Valid() && vehicleTable.Valid()
      modifies this`bookings, this`showRatingModal, ratings, bookingTable`docs, vehicleTable`docs
      ensures ratings.Valid() && bookingTable.Valid() && vehicleTable.Valid()
      ensures !showRatingModal && selected == old(selected)
      ensures outcome == RatingStage(selected, rating, old(bookingTable.docs), old(vehicleTable.docs), old(bookings))
      ensures outcome == NoSelection ==>
                ratings.docs == old(ratings.docs) && bookingTable.docs == old(bookingTable.docs)
                && vehicleTable.docs == old(vehicleTable.docs)
      ensures selected.Some? ==> SubmitEffects(selected.value, rating, outcome, old(bookings),
                                               old(ratings.docs), old(ratings.nextId), old(bookingTable.docs),
                                               old(vehicleTable.docs), ratings.docs, bookingTable.docs,
                                               vehicleTable.docs)
      ensures outcome == VehicleMissing || outcome == Completed ==>
                bookings == WithStatus(old(bookings), selected.value.bookingId, Received)
      ensures outcome != VehicleMissing && outcome != Completed ==> bookings == old(bookings)
    {
      showRatingModal := false;
      if selected.None? {
        outcome := NoSelection;
      } else {
        var s := selected.value;
        outcome := SubmitSelected(s, rating, bookings, ratings, bookingTable, vehicleTable);
        if outcome == VehicleMissing || outcome == Completed {
          bookings := WithStatus(bookings, s.bookingId, Received);
        }
      }
    }
  }

  /** What the three requests of `handleRatingSubmit` leave in the collections, for a
      selection and the stage reached: a rejected rating changes nothing; otherwise the
      rating is appended and the booking is marked Received; only a completed run makes
      the listed vehicle, if any, Available. */
  ghost predicate SubmitEffects(s: Selection, rating: int, outcome: Outcome, views: seq<BookingView>,
                                ratings0: seq<Doc<DriverRatingModel.DriverRating>>, nextId: Id,
                                bookings0: seq<Doc<Booking>>, vehicles0: seq<Doc<VehicleModel.Vehicle>>,
                                ratings1: seq<Doc<DriverRatingModel.DriverRating>>,
                                bookings1: seq<Doc<Booking>>, vehicles1: seq<Doc<VehicleModel.Vehicle>>)
  {
    && (outcome == RatingRejected ==> ratings1 == ratings0 && bookings1 == bookings0)
    && (outcome != RatingRejected ==>
          ratings1 == ratings0 + [Doc(nextId, DriverRatingModel.DriverRating(s.userEmail, rating))]
          && bookings1 == Modify(bookings0, s.bookingId, BookingController.SetStatus(Received)))
    && (outcome == Completed && ListedVehicle(views, s.bookingId).Some? ==>
          vehicles1 == Modify(vehicles0, ListedVehicle(views, s.bookingId).value,
                              VehicleController.SetStatus(VehicleModel.Available)))
    && (outcome != Completed || ListedVehicle(views, s.bookingId).None? ==> vehicles1 == vehicles0)
  }

  /** The three requests for a selection, against the list `views` as it was when the
      modal opened. */
  method SubmitSelected(s: Selection, rating: int, views: seq<BookingView>,
                        ratings: Table<DriverRatingModel.DriverRating>, bookingTable: Table<Booking>,
                        vehicleTable: Table<VehicleModel.Vehicle>)
    returns (outcome: Outcome)
    requires ratings.Valid() && bookingTable.Valid() && vehicleTable.Valid()
    modifies ratings, bookingTable`docs, vehicleTable`docs
    ensures ratings.Valid() && bookingTable.Valid() && vehicleTable.Valid()
    ensures outcome == RatingStage(Some(s), rating, old(bookingTable.docs), old(vehicleTable.docs), views)
    ensures SubmitEffects(s, rating, outcome, views, old(ratings.docs), old(ratings.nextId), old(bookingTable.docs),
                          old(vehicleTable.docs), ratings.docs, bookingTable.docs, vehicleTable.docs)
  {
    ghost var vehicles0 := vehicleTable.docs;
    outcome := RateAndReceive(s, rating, ratings, bookingTable);
    assert vehicleTable.docs == vehicles0;
    if outcome == Completed {
      var vid := ListedVehicle(views, s.bookingId);
      var updated := UpdateListedVehicle(vid, VehicleModel.Available, vehicleTable);
      if vid.Some? && !updated {
        outcome := VehicleMissing;
      }
    }
  }

  /** The first two requests: the driver rating, then the booking marked Received.
      `Completed` here means both succeeded. */
  method RateAndReceive(s: Selection, rating: int, ratings: Table<DriverRatingModel.DriverRating>,
                        bookingTable: Table<Booking>)
    returns (outcome: Outcome)
    requires ratings.Valid() && bookingTable.Valid()
    modifies ratings, bookingTable`docs
    ensures ratings.Valid() && bookingTable.Valid()
    ensures outcome == RatingRejected <==> DriverRatingModel.NewDriverRating(Some(s.userEmail), Some(rating)).None?
    ensures outcome == BookingMissing <==> outcome != RatingRejected && Lookup(old(bookingTable.docs), s.bookingId).None?
    ensures outcome == RatingRejected || outcome == BookingMissing || outcome == Completed
    ensures outcome == RatingRejected ==> ratings.docs == old(ratings.docs) && bookingTable.docs == old(bookingTable.docs)
    ensures outcome != RatingRejected ==>
              ratings.docs == old(ratings.docs)
                              + [Doc(old(ratings.nextId), DriverRatingModel.DriverRating(s.userEmail, rating))]
              && bookingTable.docs == Modify(old(bookingTable.docs), s.bookingId, BookingController.SetStatus(Received))
  {
    var rr := DriverRatingController.SubmitDriverRating(ratings, Some(s.userEmail), Some(rating));
    if !rr.Created? {
      return RatingRejected;
    }
    var br := BookingController.UpdateBookingStatus(bookingTable, s.bookingId, Received);
    outcome := if br.Ok? then Completed else BookingMissing;
  }

  /** Every rating the star widget submits is stored for a customer with an e-mail:
      `StarRating` hands over only a star, and the driver-rating schema accepts exactly
      the stars 1 to 5. */
  lemma StarAlwaysAccepted(userEmail: string, rating: int)
    requires userEmail != "" && 1 <= rating <= 5
    ensures DriverRatingModel.NewDriverRating(Some(userEmail), Some(rating)).Some?
    ensures DriverRatingModel.NewDriverRating(Some(userEmail), Some(0)).None?
    ensures DriverRatingModel.NewDriverRating(Some(""), Some(rating)).None?
  {
  }
}
