/** Renter/BookingRequests.jsx: the renter's pending requests, with Confirm and Cancel
    buttons. A status change goes to the server first; on success the page patches its
    copy and, for a confirmation, marks the booked vehicle Reserved. The server's
    handlers run on the collections passed in. */
module BookingRequests {
  import opened Http
  import opened Collection
  import opened BookingModel
  import VehicleModel
  import Text
  import BookingController
  import VehicleController
  import opened RenterViews

  const NotSignedInMessage: string := "User is not authenticated. Please log in."
  const FetchFailedMessage: string := "Failed to fetch bookings. Please try again."

  datatype NoticeKind = NoNotice | Success | Error

  /** The banner `showNotification` sets (its five-second hiding is left out). */
  datatype Notice = Notice(kind: NoticeKind, message: string)

  const FailureMessage: string := "Failed to update booking status. Please try again."

  /** `Booking ${status.toLowerCase()} successfully!` */
  function SuccessMessage(status: string): string {
    "Booking " + Text.Lower(status) + " successfully!"
  }

  /** The buttons are disabled for the status they would set. */
  predicate ConfirmDisabled(v: BookingView) {
    v.booking.status == Confirmed
  }

  predicate CancelDisabled(v: BookingView) {
    v.booking.status == Cancelled
  }

  class BookingRequestsPage {
    var bookings: seq<BookingView>
    var loading: bool
    var notice: Notice

    constructor ()
      ensures bookings == [] && loading && notice.kind == NoNotice
    {
      bookings := [];
      loading := true;
      notice := Notice(NoNotice, "");
    }

    /** `fetchBookings` given the answer of `getBookingReq`: without a signed-in renter
        nothing is requested (and the page stays loading); a failure keeps the list. */
    method Fetch(renterEmail: string, response: Reply<seq<BookingView>>)
      modifies this`bookings, this`loading, this`notice
      ensures renterEmail == "" ==> bookings == old(bookings) && loading == old(loading) && notice.kind == Error
      ensures renterEmail != "" ==> !loading
      ensures renterEmail != "" && response.Succeeded() ==> bookings == response.body
      ensures renterEmail != "" && !response.Succeeded() ==> bookings == old(bookings) && notice.kind == Error
    {
      if renterEmail == "" {
        notice := Notice(Error, NotSignedInMessage);
        return;
      }
      if response.Succeeded() {
        bookings := response.body;
      } else {
        notice := Notice(Error, FetchFailedMessage);
      }
      loading := false;
    }

    /** `updateBookingStatus(bookingId, status)`. The server's booking update always
        happens as `updateBookingStatus` defines it. Only when it succeeds is the list
        patched, and only a confirmation touches a vehicle: the one `ListedVehicle`
        names in the list as it was before the patch. Success is reported only when
        every request succeeded; a failed vehicle update leaves the booking confirmed. */
    method UpdateStatus(bookingId: Id, status: string,
                        bookingTable: Table<Booking>, vehicleTable: Table<VehicleModel.Vehicle>)
      requires bookingTable.Valid() && vehicleTable.Valid()
      modifies this`bookings, this`notice, bookingTable`docs, vehicleTable`docs
      ensures bookingTable.Valid() && vehicleTable.Valid()
      ensures bookingTable.docs == Modify(old(bookingTable.docs), bookingId, BookingController.SetStatus(status))
      ensures ReserveEffect(old(bookings), bookingId, status, old(Lookup(bookingTable.docs, bookingId)).Some?,
                            old(vehicleTable.docs), vehicleTable.docs)
      ensures old(Lookup(bookingTable.docs, bookingId)).None? ==>
                bookings == old(bookings) && notice == Notice(Error, FailureMessage)
      ensures old(Lookup(bookingTable.docs, bookingId)).Some? ==>
                bookings == WithStatus(old(bookings), bookingId, status)
      ensures notice.kind == Success <==>
                Reserved(old(bookings), bookingId, status, old(Lookup(bookingTable.docs, bookingId)).Some?,
                         old(vehicleTable.docs))
      ensures notice.kind == Success ==> notice.message == SuccessMessage(status)
      ensures notice.kind != Success ==> notice == Notice(Error, FailureMessage)
    {
      var found, reserved := SendStatus(bookings, bookingId, status, bookingTable, vehicleTable);
      if !found {
        notice := Notice(Error, FailureMessage);
        return;
      }
      bookings := WithStatus(bookings, bookingId, status);
      notice := if reserved then Notice(Success, SuccessMessage(status)) else Notice(Error, FailureMessage);
    }
  }

  /** Every request of a status change succeeded: the booking was found and, for a
      confirmation, the listed vehicle exists and was reserved. */
  predicate Reserved(views: seq<BookingView>, bookingId: Id, status: string, found: bool,
                     vehicles0: seq<Doc<VehicleModel.Vehicle>>)
  {
    found
    && (status != Confirmed
        || (ListedVehicle(views, bookingId).Some?
            && Lookup(vehicles0, ListedVehicle(views, bookingId).value).Some?))
  }

  /** What a status change leaves in the vehicle collection: only a confirmation of a
      found booking whose listed vehicle is known marks that vehicle Reserved. */
  ghost predicate ReserveEffect(views: seq<BookingView>, bookingId: Id, status: string, found: bool,
                                vehicles0: seq<Doc<VehicleModel.Vehicle>>,
                                vehicles1: seq<Doc<VehicleModel.Vehicle>>)
  {
    && (found && status == Confirmed && ListedVehicle(views, bookingId).Some? ==>
          vehicles1 == Modify(vehicles0, ListedVehicle(views, bookingId).value,
                              VehicleController.SetStatus(VehicleModel.Reserved)))
    && (!found || status != Confirmed || ListedVehicle(views, bookingId).None? ==> vehicles1 == vehicles0)
  }

  /** The requests of a status change, against the list `views` as it was before:
      whether the booking was found, and whether every request succeeded. */
  method SendStatus(views: seq<BookingView>, bookingId: Id, status: string,
                    bookingTable: Table<Booking>, vehicleTable: Table<VehicleModel.Vehicle>)
    returns (found: bool, reserved: bool)
    requires bookingTable.Valid() && vehicleTable.Valid()
    modifies bookingTable`docs, vehicleTable`docs
    ensures bookingTable.Valid() && vehicleTable.Valid()
    ensures found <==> Lookup(old(bookingTable.docs), bookingId).Some?
    ensures bookingTable.docs == Modify(old(bookingTable.docs), bookingId, BookingController.SetStatus(status))
    ensures ReserveEffect(views, bookingId, status, found, old(vehicleTable.docs), vehicleTable.docs)
    ensures reserved <==> Reserved(views, bookingId, status, found, old(vehicleTable.docs))
  {
    var r := BookingController.UpdateBookingStatus(bookingTable, bookingId, status);
    found := r.Ok?;
    reserved := found;
    if found && status == Confirmed {
      reserved := UpdateListedVehicle(ListedVehicle(views, bookingId), VehicleModel.Reserved, vehicleTable);
    }
  }

  /** After a successful confirmation or cancellation, the button that set the status is
      disabled on every listed copy of that booking. */
  lemma PatchedButtonDisabled(views: seq<BookingView>, bookingId: Id, i: nat)
    requires i < |views| && views[i].id == bookingId
    ensures ConfirmDisabled(WithStatus(views, bookingId, Confirmed)[i])
    ensures CancelDisabled(WithStatus(views, bookingId, Cancelled)[i])
    ensures !CancelDisabled(WithStatus(views, bookingId, Confirmed)[i])
    ensures !ConfirmDisabled(WithStatus(views, bookingId, Cancelled)[i])
  {
  }
}
