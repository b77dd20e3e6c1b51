/** The renter pages (Renter/BookingRequests.jsx, Renter/ConfirmedBookings.jsx) hold the
    populated bookings a list endpoint returned, and after a status change they patch
    that copy instead of fetching it again. */
module RenterViews {
  import opened Http
  import opened Collection
  import opened BookingModel
  import VehicleModel
  import BookingController
  import VehicleController

  type BookingView = BookingController.BookingView

  /** `bookings.map(b => b._id === id ? { ...b, status } : b)` */
  function WithStatus(views: seq<BookingView>, id: Id, status: string): (r: seq<BookingView>)
    ensures |r| == |views|
    ensures forall i :: 0 <= i < |views| ==>
              r[i] == (if views[i].id == id then views[i].(booking := views[i].booking.(status := status))
                       else views[i])
  {
    if views == [] then []
    else [if views[0].id == id then views[0].(booking := views[0].booking.(status := status)) else views[0]]
         + WithStatus(views[1..], id, status)
  }

  /** The local patch is the server's update seen through the list: patching a populated
      list gives the populated list of the updated documents. */
  lemma WithStatusMirrorsServer(bs: seq<Doc<Booking>>, vehicles: seq<Doc<VehicleModel.Vehicle>>,
                                id: Id, status: string)
    ensures WithStatus(BookingController.Populate(bs, vehicles), id, status)
            == BookingController.Populate(Modify(bs, id, BookingController.SetStatus(status)), vehicles)
  {
    var local := WithStatus(BookingController.Populate(bs, vehicles), id, status);
    var server := BookingController.Populate(Modify(bs, id, BookingController.SetStatus(status)), vehicles);
    forall i | 0 <= i < |bs| ensures local[i] == server[i] {
      var m := Modify(bs, id, BookingController.SetStatus(status));
      assert m[i].data.vehicleId == bs[i].data.vehicleId;
    }
  }

  /** Patching with the same status twice is patching once. */
  lemma WithStatusIdempotent(views: seq<BookingView>, id: Id, status: string)
    ensures WithStatus(WithStatus(views, id, status), id, status) == WithStatus(views, id, status)
  {
    var once := WithStatus(views, id, status);
    var twice := WithStatus(once, id, status);
    forall i | 0 <= i < |views| ensures twice[i] == once[i] {
    }
  }

  /** `bookings.find(b => b._id === id)`: the first view with that id. */
  function FindView(views: seq<BookingView>, id: Id): (r: Option<BookingView>)
    ensures r.Some? ==> r.value in views && r.value.id == id
    ensures r.None? <==> forall i :: 0 <= i < |views| ==> views[i].id != id
  {
    if views == [] then None
    else if views[0].id == id then Some(views[0])
    else FindView(views[1..], id)
  }

  /** The vehicle id a page acts on for a listed booking: the booking's vehicle, taken
      from the first view with that id; none when the id is not listed or the populated
      vehicle is null because it was deleted. Booking requests reserve this vehicle on a
      confirmation, confirmed bookings make it Available again on its return. */
  function ListedVehicle(views: seq<BookingView>, bookingId: Id): (r: Option<Id>)
    ensures r.Some? <==> FindView(views, bookingId).Some? && FindView(views, bookingId).value.vehicle.Some?
    ensures r.Some? ==> exists i :: 0 <= i < |views| && views[i].id == bookingId
                                    && views[i].booking.vehicleId == r.value
  {
    var v := FindView(views, bookingId);
    if v.Some? && v.value.vehicle.Some? then Some(v.value.booking.vehicleId) else None
  }

  /** `updateVehicleStatus(vehicleId, status)` for the vehicle a listed booking names,
      when it names one; whether a vehicle was updated. */
  method UpdateListedVehicle(vid: Option<Id>, status: string, vehicleTable: Table<VehicleModel.Vehicle>)
    returns (updated: bool)
    requires vehicleTable.Valid()
    modifies vehicleTable`docs
    ensures vehicleTable.Valid()
    ensures updated <==> vid.Some? && Lookup(old(vehicleTable.docs), vid.value).Some?
    ensures vid.Some? ==> vehicleTable.docs == Modify(old(vehicleTable.docs), vid.value,
                                                      VehicleController.SetStatus(status))
    ensures vid.None? ==> vehicleTable.docs == old(vehicleTable.docs)
  {
    updated := false;
    if vid.Some? {
      var vr := VehicleController.UpdateVehicleStatus(vehicleTable, vid.value, status);
      updated := vr.Ok?;
    }
  }
}
