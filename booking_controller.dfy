/** Controller/bookingController.js and Controller/bookingReqController.js: creating
    bookings, listing them for a customer or a renter, and overwriting their status. */
module BookingController {
  import opened Http
  import opened Collection
  import opened BookingModel
  import VehicleModel
  import Accounts
  import Lists

  const ImagesRequiredMessage: string := "License image and ID card image are required"
  const VehicleNotFoundMessage: string := "Vehicle not found"
  const UserNotFoundMessage: string := "User not found"
  const InternalErrorMessage: string := "Internal server error"
  const UserEmailRequiredMessage: string := "User email is required"
  const RenterEmailRequiredMessage: string := "Renter email is required"
  const BookingNotFoundMessage: string := "Booking not found"
  const InvalidStatusMessage: string := "Invalid status"

  // ---------------------------------------------------------------------------
  // createBooking

  /** The multipart body of a booking request; an absent field is `None`. */
  datatype BookingForm = BookingForm(
    fromDate: Option<int>,
    toDate: Option<int>,
    vehicleId: Option<Id>,
    carImage: Option<string>,
    vehicleName: Option<string>,
    totalCost: Option<real>,
    userEmail: string)

  /** The stored paths of the uploaded files, `None` for a file that was not sent. */
  datatype Uploads = Uploads(licenseImage: Option<string>, idCardImage: Option<string>,
                             paymentReceipt: Option<string>)

  /** The fields `createBooking` hands to `new Booking(...)`: the form's, the uploaded
      paths (a missing receipt as null), the owner's e-mail as `renterEmail` and the
      customer's id as `userId`. */
  function BookingFieldsOf(form: BookingForm, files: Uploads, vehicleId: Id,
                           owner: VehicleModel.Vehicle, customer: Doc<Accounts.Account>): BookingFields
    requires files.licenseImage.Some? && files.idCardImage.Some?
  {
    BookingFields(form.fromDate, form.toDate, files.licenseImage, files.idCardImage,
                  files.paymentReceipt, form.carImage, vehicleId, form.vehicleName,
                  Some(form.userEmail), Some(owner.email), customer.id, form.totalCost)
  }

  /** `createBooking`. The checks run in a fixed order and each failure leaves the
      bookings unchanged: the two documents (400, before any lookup), then the vehicle
      (404), then the customer by e-mail (404), then schema validation (500). On success
      exactly one booking is appended (201): status "Pending", `renterEmail` the vehicle
      owner's e-mail, `userId` the customer's id, the receipt or null, and `totalCost` as
      the client sent it, never recomputed. */
  method CreateBooking(bookings: Table<Booking>, vehicles: Table<VehicleModel.Vehicle>,
                       customers: Table<Accounts.Account>, form: BookingForm, files: Uploads)
    returns (r: Reply<Doc<Booking>>)
    requires bookings.Valid()
    modifies bookings
    ensures bookings.Valid()
    ensures r.BadRequest? <==> files.licenseImage.None? || files.idCardImage.None?
    ensures !r.BadRequest? ==>
              (r.NotFound? <==> form.vehicleId.None? || Lookup(vehicles.docs, form.vehicleId.value).None?
                                || Accounts.FindByEmail(customers.docs, form.userEmail).None?)
    ensures r.NotFound? ==>
              (r.message == VehicleNotFoundMessage <==>
                 form.vehicleId.None? || Lookup(vehicles.docs, form.vehicleId.value).None?)
              && (r.message == VehicleNotFoundMessage || r.message == UserNotFoundMessage)
    ensures !r.BadRequest? && !r.NotFound? ==>
              (r.Created? <==>
                 NewBooking(BookingFieldsOf(form, files, form.vehicleId.value,
                                            Lookup(vehicles.docs, form.vehicleId.value).value,
                                            Accounts.FindByEmail(customers.docs, form.userEmail).value)).Some?)
    ensures r.Created? ==>
              var owner := Lookup(vehicles.docs, form.vehicleId.value).value;
              var customer := Accounts.FindByEmail(customers.docs, form.userEmail).value;
              Some(r.body.data) == NewBooking(BookingFieldsOf(form, files, form.vehicleId.value, owner, customer))
              && r.body.data.status == Pending
              && r.body.data.renterEmail == owner.email
              && r.body.data.userId == customer.id && customer.data.email == form.userEmail
              && r.body.data.paymentReceipt == files.paymentReceipt
              && Some(r.body.data.totalCost) == form.totalCost
              && bookings.docs == old(bookings.docs) + [r.body]
    ensures !r.Created? ==> bookings.docs == old(bookings.docs)
    ensures r.Created? || r.BadRequest? || r.NotFound? || r.ServerError?
  {
    if files.licenseImage.None? || files.idCardImage.None? {
      return BadRequest(ImagesRequiredMessage);
    }
    if form.vehicleId.None? {
      return NotFound(VehicleNotFoundMessage);
    }
    var vehicle := Lookup(vehicles.docs, form.vehicleId.value);
    if vehicle.None? {
      return NotFound(VehicleNotFoundMessage);
    }
    var user := Accounts.FindByEmail(customers.docs, form.userEmail);
    if user.None? {
      return NotFound(UserNotFoundMessage);
    }
    var b := NewBooking(BookingFieldsOf(form, files, form.vehicleId.value, vehicle.value, user.value));
    if b.None? {
      return ServerError(InternalErrorMessage);
    }
    var id := bookings.Insert(b.value);
    r := Created(Doc(id, b.value));
  }

  // ---------------------------------------------------------------------------
  // The list endpoints

  /** A listed booking: `.populate("vehicleId")` replaces the id with the vehicle, or
      with null when that vehicle has been deleted. */
  datatype BookingView = BookingView(id: Id, booking: Booking, vehicle: Option<VehicleModel.Vehicle>)

  function Populate(bs: seq<Doc<Booking>>, vehicles: seq<Doc<VehicleModel.Vehicle>>): (r: seq<BookingView>)
    ensures |r| == |bs|
    ensures forall i :: 0 <= i < |bs| ==>
              r[i].id == bs[i].id && r[i].booking == bs[i].data
              && r[i].vehicle == Lookup(vehicles, bs[i].data.vehicleId)
  {
    if bs == [] then []
    else [BookingView(bs[0].id, bs[0].data, Lookup(vehicles, bs[0].data.vehicleId))]
         + Populate(bs[1..], vehicles)
  }

  /** `Booking.find({ userEmail })`: one customer's bookings, in stored order. */
  function OfCustomer(bs: seq<Doc<Booking>>, userEmail: string): (r: seq<Doc<Booking>>)
    ensures forall i :: 0 <= i < |r| ==> r[i] in bs && r[i].data.userEmail == userEmail
    ensures forall i :: 0 <= i < |bs| && bs[i].data.userEmail == userEmail ==> bs[i] in r
  {
    Lists.Filter(bs, (d: Doc<Booking>) => d.data.userEmail == userEmail)
  }

  /** `Booking.find({ renterEmail, status })`: one renter's bookings in one status. */
  function OfRenter(bs: seq<Doc<Booking>>, renterEmail: string, status: string): (r: seq<Doc<Booking>>)
    ensures forall i :: 0 <= i < |r| ==>
              r[i] in bs && r[i].data.renterEmail == renterEmail && r[i].data.status == status
    ensures forall i :: 0 <= i < |bs| && bs[i].data.renterEmail == renterEmail && bs[i].data.status == status
              ==> bs[i] in r
  {
    Lists.Filter(bs, (d: Doc<Booking>) => d.data.renterEmail == renterEmail && d.data.status == status)
  }

  /** A booking listed in one status is listed in no other. */
  lemma OfRenterDisjoint(bs: seq<Doc<Booking>>, renterEmail: string, s1: string, s2: string, i: nat, j: nat)
    requires s1 != s2 && i < |OfRenter(bs, renterEmail, s1)| && j < |OfRenter(bs, renterEmail, s2)|
    ensures OfRenter(bs, renterEmail, s1)[i] != OfRenter(bs, renterEmail, s2)[j]
  {
  }

  /** `getUserBookings`: 400 without an e-mail, otherwise exactly that customer's
      bookings, populated. */
  function GetUserBookings(bs: seq<Doc<Booking>>, vehicles: seq<Doc<VehicleModel.Vehicle>>, userEmail: string)
    : (r: Reply<seq<BookingView>>)
    ensures r.BadRequest? <==> userEmail == ""
    ensures !r.BadRequest? ==> r.Ok? && r.body == Populate(OfCustomer(bs, userEmail), vehicles)
  {
    if userEmail == "" then BadRequest(UserEmailRequiredMessage)
    else Ok(Populate(OfCustomer(bs, userEmail), vehicles))
  }

  /** The three renter lists share one shape: 400 without an e-mail, otherwise exactly the
      renter's bookings in the given status, populated. */
  function RenterList(bs: seq<Doc<Booking>>, vehicles: seq<Doc<VehicleModel.Vehicle>>,
                      renterEmail: string, status: string): (r: Reply<seq<BookingView>>)
    ensures r.BadRequest? <==> renterEmail == ""
    ensures !r.BadRequest? ==> r.Ok? && r.body == Populate(OfRenter(bs, renterEmail, status), vehicles)
  {
    if renterEmail == "" then BadRequest(RenterEmailRequiredMessage)
    else Ok(Populate(OfRenter(bs, renterEmail, status), vehicles))
  }

  /** `getBookingReq`: the renter's pending bookings. */
  function GetBookingReq(bs: seq<Doc<Booking>>, vehicles: seq<Doc<VehicleModel.Vehicle>>, renterEmail: string)
    : (r: Reply<seq<BookingView>>)
    ensures r.BadRequest? <==> renterEmail == ""
    ensures r.Ok? ==> forall i :: 0 <= i < |r.body| ==>
              r.body[i].booking.renterEmail == renterEmail && r.body[i].booking.status == Pending
  {
    RenterList(bs, vehicles, renterEmail, Pending)
  }

  /** `getConfirmedBooking`: the renter's confirmed bookings. */
  function GetConfirmedBooking(bs: seq<Doc<Booking>>, vehicles: seq<Doc<VehicleModel.Vehicle>>, renterEmail: string)
    : (r: Reply<seq<BookingView>>)
    ensures r.BadRequest? <==> renterEmail == ""
    ensures r.Ok? ==> forall i :: 0 <= i < |r.body| ==>
              r.body[i].booking.renterEmail == renterEmail && r.body[i].booking.status == Confirmed
  {
    RenterList(bs, vehicles, renterEmail, Confirmed)
  }

  /** `getRecievedBooking`: the renter's bookings in status "Received", which only the
      unvalidated status update can produce. */
  function GetReceivedBooking(bs: seq<Doc<Booking>>, vehicles: seq<Doc<VehicleModel.Vehicle>>, renterEmail: string)
    : (r: Reply<seq<BookingView>>)
    ensures r.BadRequest? <==> renterEmail == ""
    ensures r.Ok? ==> forall i :: 0 <= i < |r.body| ==>
              r.body[i].booking.renterEmail == renterEmail && r.body[i].booking.status == Received
  {
    RenterList(bs, vehicles, renterEmail, Received)
  }

  // ---------------------------------------------------------------------------
  // updateBookingStatus

  /** The change `{ status }`; `findByIdAndUpdate` runs no validator, so any string,
      "Received" included, is written. */
  function SetStatus(status: string): Booking -> Booking {
    (b: Booking) => b.(status := status)
  }

  /** `updateBookingStatus` (bookingController.js): 404 and no change when the id is
      absent; otherwise the status is overwritten with the given value whatever the
      current one is, and nothing else changes. */
  method UpdateBookingStatus(bookings: Table<Booking>, id: Id, status: string)
    returns (r: Reply<Booking>)
    requires bookings.Valid()
    modifies bookings`docs
    ensures bookings.Valid()
    ensures bookings.docs == Modify(old(bookings.docs), id, SetStatus(status))
    ensures r.NotFound? <==> old(Lookup(bookings.docs, id)).None?
    ensures r.NotFound? ==> bookings.docs == old(bookings.docs)
    ensures r.Ok? ==> r.body == old(Lookup(bookings.docs, id)).value.(status := status)
    ensures r.Ok? || r.NotFound?
  {
    assert bookings.FindById(id) == Lookup(bookings.docs, id);
    var u := bookings.FindByIdAndUpdate(id, SetStatus(status));
    if u.None? {
      return NotFound(BookingNotFoundMessage);
    }
    r := Ok(u.value);
  }

  /** There is no transition rule: from any stored booking, any status can be reached in
      one update, and updating to the current status again changes nothing. */
  lemma AnyStatusReachable(bs: seq<Doc<Booking>>, id: Id, status: string)
    requires Lookup(bs, id).Some?
    ensures Lookup(Modify(bs, id, SetStatus(status)), id) == Some(Lookup(bs, id).value.(status := status))
    ensures Modify(Modify(bs, id, SetStatus(status)), id, SetStatus(status)) == Modify(bs, id, SetStatus(status))
  {
    var k := IndexOf(bs, id).value;
    var after := Modify(bs, id, SetStatus(status));
    assert IndexOf(after, id) == Some(k) by {
      IndexOfPreserved(bs, id, SetStatus(status));
    }
    ModifyIdempotent(bs, id, SetStatus(status));
  }

  /** Marking a stored booking "Received", as the renter's page does, leaves it with a
      status the schema does not declare, so it equals no booking `NewBooking` builds. */
  lemma ReceivedLeavesEnum(bs: seq<Doc<Booking>>, id: Id)
    requires Lookup(bs, id).Some?
    ensures Lookup(Modify(bs, id, SetStatus(Received)), id).Some?
    ensures !StatusInEnum(Lookup(Modify(bs, id, SetStatus(Received)), id).value.status)
    ensures forall f :: NewBooking(f).Some? ==>
              NewBooking(f).value != Lookup(Modify(bs, id, SetStatus(Received)), id).value
  {
    AnyStatusReachable(bs, id, Received);
  }

  lemma {:induction false} IndexOfPreserved<T>(s: seq<Doc<T>>, id: Id, f: T -> T)
    ensures IndexOf(Modify(s, id, f), id) == IndexOf(s, id)
  {
    if s != [] {
      IndexOfPreserved(s[1..], id, f);
      assert Modify(s, id, f)[1..] == Modify(s[1..], id, f);
    }
  }

  /** The allow-list of bookingReqController.js. */
  predicate RequestStatusAllowed(status: string) {
    status == Pending || status == Confirmed || status == Cancelled
  }

  /** `updateBookingStatus` (bookingReqController.js; no route reaches it, see README):
      a status off the allow-list gives 400 before any lookup, so "Received" and
      "Returned" are always refused; then 404 when the id is absent; otherwise only the
      status is replaced and the updated booking returned. */
  method UpdateBookingStatusChecked(bookings: Table<Booking>, id: Id, status: string)
    returns (r: Reply<Booking>)
    requires bookings.Valid()
    modifies bookings`docs
    ensures bookings.Valid()
    ensures r.BadRequest? <==> !RequestStatusAllowed(status)
    ensures status == Received || status == Returned ==> r.BadRequest?
    ensures r.BadRequest? || r.NotFound? ==> bookings.docs == old(bookings.docs)
    ensures !r.BadRequest? ==> (r.NotFound? <==> old(Lookup(bookings.docs, id)).None?)
    ensures r.Ok? ==> bookings.docs == Modify(old(bookings.docs), id, SetStatus(status))
                      && r.body == old(Lookup(bookings.docs, id)).value.(status := status)
                      && StatusInEnum(r.body.status)
    ensures r.Ok? || r.BadRequest? || r.NotFound?
  {
    if !RequestStatusAllowed(status) {
      return BadRequest(InvalidStatusMessage);
    }
    r := UpdateBookingStatus(bookings, id, status);
  }
}
