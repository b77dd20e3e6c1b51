/** Model/Booking.js: the Booking schema. */
module BookingModel {
  import opened Http
  import opened Collection
  import VehicleModel

  const Pending: string := "Pending"
  const Confirmed: string := "Confirmed"
  const Cancelled: string := "Cancelled"
  const Returned: string := "Returned"
  /** Written by the renter's "Vehicle Returned" flow and queried by `getRecievedBooking`,
      but not one of the schema's enum values. */
  const Received: string := "Received"

  /** The statuses the schema's `enum` declares. */
  predicate StatusInEnum(s: string) {
    s == Pending || s == Confirmed || s == Cancelled || s == Returned
  }

  /** A stored booking. Dates are day numbers; `status` is a plain string because
      `findByIdAndUpdate` stores any value. */
  datatype Booking = Booking(
    fromDate: int,
    toDate: int,
    licenseImage: string,
    idCardImage: string,
    paymentReceipt: Option<string>,
    carImage: string,
    vehicleId: Id,
    vehicleName: string,
    userEmail: string,
    renterEmail: string,
    status: string,
    userId: Id,
    totalCost: real)

  /** The fields handed to `new Booking({...})`; an absent field is `None`. The two ids
      always come from records the controller has just found. */
  datatype BookingFields = BookingFields(
    fromDate: Option<int>,
    toDate: Option<int>,
    licenseImage: Option<string>,
    idCardImage: Option<string>,
    paymentReceipt: Option<string>,
    carImage: Option<string>,
    vehicleId: Id,
    vehicleName: Option<string>,
    userEmail: Option<string>,
    renterEmail: Option<string>,
    userId: Id,
    totalCost: Option<real>)

  /** Whether validation on `save()` accepts the fields: all but `paymentReceipt` are
      required. Nothing relates `fromDate` and `toDate`. */
  predicate Accepts(f: BookingFields) {
    f.fromDate.Some? && f.toDate.Some?
    && VehicleModel.Supplied(f.licenseImage) && VehicleModel.Supplied(f.idCardImage)
    && VehicleModel.Supplied(f.carImage) && VehicleModel.Supplied(f.vehicleName)
    && VehicleModel.Supplied(f.userEmail) && VehicleModel.Supplied(f.renterEmail)
    && f.totalCost.Some?
  }

  /** Builds and validates a new booking: none when a required field is missing;
      otherwise the given fields with status "Pending". */
  function NewBooking(f: BookingFields): (r: Option<Booking>)
    ensures r.Some? <==> Accepts(f)
    ensures r.Some? ==> r.value.status == Pending && StatusInEnum(r.value.status)
    ensures r.Some? ==> Some(r.value.fromDate) == f.fromDate && Some(r.value.toDate) == f.toDate
    ensures r.Some? ==> Some(r.value.licenseImage) == f.licenseImage
                        && Some(r.value.idCardImage) == f.idCardImage
                        && r.value.paymentReceipt == f.paymentReceipt
                        && Some(r.value.carImage) == f.carImage
    ensures r.Some? ==> r.value.vehicleId == f.vehicleId && r.value.userId == f.userId
                        && Some(r.value.vehicleName) == f.vehicleName
                        && Some(r.value.userEmail) == f.userEmail
                        && Some(r.value.renterEmail) == f.renterEmail
                        && Some(r.value.totalCost) == f.totalCost
  {
    if !Accepts(f) then None
    else Some(Booking(f.fromDate.value, f.toDate.value, f.licenseImage.value,
                      f.idCardImage.value, f.paymentReceipt, f.carImage.value, f.vehicleId,
                      f.vehicleName.value, f.userEmail.value, f.renterEmail.value, Pending,
                      f.userId, f.totalCost.value))
  }

  /** Validation never compares the two dates: swapping them changes neither whether a
      booking is built nor anything of it but the two dates, so one that ends before it
      starts is stored as readily as any other. */
  lemma DateOrderIgnored(f: BookingFields)
    ensures NewBooking(f).Some? <==> NewBooking(f.(fromDate := f.toDate, toDate := f.fromDate)).Some?
    ensures NewBooking(f).Some? ==>
              NewBooking(f.(fromDate := f.toDate, toDate := f.fromDate)).value
              == NewBooking(f).value.(fromDate := f.toDate.value, toDate := f.fromDate.value)
  {
  }
}
