/** Customer/Dashboard.jsx: the customer's vehicle list. It fetches the vehicles (all of
    them, or a search), keeps the available ones, hides those whose minimum driver
    rating the customer does not reach, and gates the Reserve button. Responses of the
    server are parameters of the handlers; each effect runs as one step. */
module Dashboard {
  import opened Http
  import opened Collection
  import opened VehicleModel
  import Lists

  /** The applied (or pending) filter inputs; "" means unset. */
  datatype Filters = Filters(location: string, maxPrice: string)

  const NoFilters: Filters := Filters("", "")

  /** The filter inputs `handleFilterChange` is wired to, by their `name`. */
  datatype FilterField = Location | MaxPrice

  /** The request `fetchVehicles` sends: the full list, or a search with only the
      non-empty parameters, in the order name, location, maxPrice. */
  datatype VehicleRequest = ListAll | Search(params: seq<(string, string)>)

  function RequestFor(searchTerm: string, filters: Filters): (r: VehicleRequest)
    ensures r.ListAll? <==> searchTerm == "" && filters.location == "" && filters.maxPrice == ""
    ensures r.Search? ==>
              (("name", searchTerm) in r.params <==> searchTerm != "")
              && (("location", filters.location) in r.params <==> filters.location != "")
              && (("maxPrice", filters.maxPrice) in r.params <==> filters.maxPrice != "")
              && forall i :: 0 <= i < |r.params| ==>
                   r.params[i].1 != ""
                   && r.params[i] in [("name", searchTerm), ("location", filters.location), ("maxPrice", filters.maxPrice)]
  {
    if searchTerm == "" && filters.location == "" && filters.maxPrice == "" then ListAll
    else Search((if searchTerm != "" then [("name", searchTerm)] else [])
                + (if filters.location != "" then [("location", filters.location)] else [])
                + (if filters.maxPrice != "" then [("maxPrice", filters.maxPrice)] else []))
  }

  /** `response.data.filter(v => v.status === "Available")` */
  function AvailableOnly(vs: seq<Doc<Vehicle>>): (r: seq<Doc<Vehicle>>)
    ensures forall i :: 0 <= i < |r| ==> r[i] in vs && r[i].data.status == Available
    ensures forall i :: 0 <= i < |vs| && vs[i].data.status == Available ==> vs[i] in r
  {
    Lists.Filter(vs, (d: Doc<Vehicle>) => d.data.status == Available)
  }

  /** `vehicles.filter(v => driverRating >= v.minDriverRating)`, in original order. */
  function Eligible(vs: seq<Doc<Vehicle>>, driverRating: real): (r: seq<Doc<Vehicle>>)
    ensures forall i :: 0 <= i < |r| ==> r[i] in vs && r[i].data.minDriverRating <= driverRating
    ensures forall i :: 0 <= i < |vs| && vs[i].data.minDriverRating <= driverRating ==> vs[i] in r
  {
    Lists.Filter(vs, (d: Doc<Vehicle>) => d.data.minDriverRating <= driverRating)
  }

  /** `isReserveDisabled` */
  predicate ReserveDisabled(v: Vehicle, driverRating: real) {
    v.status != Available || driverRating < v.minDriverRating
  }

  /** The list shown is exactly the reservable vehicles: every vehicle that stays after
      both filters has its Reserve button enabled, and every fetched vehicle with an
      enabled button stays. */
  lemma ShownIffReservable(fetched: seq<Doc<Vehicle>>, driverRating: real)
    ensures forall i :: 0 <= i < |Eligible(AvailableOnly(fetched), driverRating)| ==>
              !ReserveDisabled(Eligible(AvailableOnly(fetched), driverRating)[i].data, driverRating)
    ensures forall i :: 0 <= i < |fetched| && !ReserveDisabled(fetched[i].data, driverRating) ==>
              fetched[i] in Eligible(AvailableOnly(fetched), driverRating)
  {
    var avail := AvailableOnly(fetched);
    var shown := Eligible(avail, driverRating);
    forall i | 0 <= i < |shown| ensures !ReserveDisabled(shown[i].data, driverRating) {
      var k :| 0 <= k < |avail| && avail[k] == shown[i];
    }
  }

  /** `response.data.averageRating || 0`: a missing or zero average reads as 0. */
  function DriverRatingOf(averageRating: Option<real>): (r: real)
    ensures averageRating.None? ==> r == 0.0
    ensures averageRating.Some? ==> r == averageRating.value
  {
    averageRating.GetOr(0.0)
  }

  class DashboardState {
    var vehicles: seq<Doc<Vehicle>>
    var filteredVehicles: seq<Doc<Vehicle>>
    var noResults: bool
    var driverRating: real
    var searchTerm: string
    var filters: Filters
    var tempFilters: Filters
    var showFilters: bool
    var selectedVehicle: Option<Doc<Vehicle>>
    var showReservePopup: bool

    /** Every held vehicle is available (only filtered responses are stored), and while
        vehicles are held, the shown list is their eligible part. */
    ghost predicate Valid()
      reads this
    {
      (forall i :: 0 <= i < |vehicles| ==> vehicles[i].data.status == Available)
      && (vehicles != [] ==> filteredVehicles == Eligible(vehicles, driverRating))
    }

    constructor ()
      ensures Valid()
      ensures vehicles == [] && filteredVehicles == [] && !noResults && driverRating == 0.0
      ensures searchTerm == "" && filters == NoFilters && tempFilters == NoFilters
      ensures !showFilters && selectedVehicle.None? && !showReservePopup
    {
      vehicles := [];
      filteredVehicles := [];
      noResults := false;
      driverRating := 0.0;
      searchTerm := "";
      filters := NoFilters;
      tempFilters := NoFilters;
      showFilters := false;
      selectedVehicle := None;
      showReservePopup := false;
    }

    /** The effect on `[vehicles, driverRating]`: recomputes the shown list and
        `noResults`, but only when vehicles are held. */
    method Refilter()
      modifies this`filteredVehicles, this`noResults
      ensures vehicles != [] ==> filteredVehicles == Eligible(vehicles, driverRating)
                                 && (noResults <==> filteredVehicles == [])
      ensures vehicles == [] ==> filteredVehicles == old(filteredVehicles) && noResults == old(noResults)
    {
      if vehicles != [] {
        filteredVehicles := Eligible(vehicles, driverRating);
        noResults := filteredVehicles == [];
      }
    }

    /** `fetchVehicles` given the server's answer to `RequestFor(searchTerm, filters)`,
        followed by the effect it triggers. A failed request (the search's 404 included)
        sets `noResults` and keeps the vehicles; a successful one keeps the available
        vehicles, and `noResults` says whether nothing is left to show. */
    method FetchVehicles(response: Reply<seq<Doc<Vehicle>>>)
      requires Valid()
      modifies this`vehicles, this`filteredVehicles, this`noResults
      ensures Valid()
      ensures !response.Succeeded() ==> vehicles == old(vehicles) && noResults
                                         && filteredVehicles == old(filteredVehicles)
      ensures response.Succeeded() ==> vehicles == AvailableOnly(response.body)
      ensures response.Succeeded() ==> (noResults <==> Eligible(vehicles, driverRating) == [])
      ensures response.Succeeded() && vehicles != [] ==> filteredVehicles == Eligible(vehicles, driverRating)
    {
      noResults := false;
      if !response.Succeeded() {
        noResults := true;
        return;
      }
      vehicles := AvailableOnly(response.body);
      if vehicles == [] {
        noResults := true;
      }
      Refilter();
    }

    /** `fetchDriverRating`, followed by the effect: nothing without a signed-in user or
        when the request fails; otherwise the rating (0 when absent) is set. React skips a
        state update to an equal value, so the effect on `[vehicles, driverRating]` runs
        only when the rating actually changes, and then only when vehicles are held. */
    method FetchDriverRating(userEmail: string, response: Reply<Option<real>>)
      requires Valid()
      modifies this`driverRating, this`filteredVehicles, this`noResults
      ensures Valid()
      ensures userEmail == "" || !response.Succeeded() ==> driverRating == old(driverRating)
      ensures userEmail != "" && response.Succeeded() ==> driverRating == DriverRatingOf(response.body)
      ensures driverRating == old(driverRating) || vehicles == [] ==>
                filteredVehicles == old(filteredVehicles) && noResults == old(noResults)
      ensures driverRating != old(driverRating) && vehicles != [] ==>
                filteredVehicles == Eligible(vehicles, driverRating) && (noResults <==> filteredVehicles == [])
    {
      if userEmail == "" || !response.Succeeded() {
        return;
      }
      var rating := DriverRatingOf(response.body);
      if rating != driverRating {
        driverRating := rating;
        Refilter();
      }
    }

    /** The refresh after a successful booking: the full list, available vehicles only,
        then the effect. When nothing is available any more the effect does not run, so
        the previously shown list and `noResults` stay as they were. */
    method RefreshAfterBooking(all: seq<Doc<Vehicle>>)
      requires Valid()
      modifies this`vehicles, this`filteredVehicles, this`noResults, this`showReservePopup
      ensures Valid()
      ensures vehicles == AvailableOnly(all) && !showReservePopup
      ensures vehicles == [] ==> filteredVehicles == old(filteredVehicles) && noResults == old(noResults)
      ensures vehicles != [] ==> (noResults <==> filteredVehicles == [])
    {
      showReservePopup := false;
      vehicles := AvailableOnly(all);
      Refilter();
    }

    /** The Reserve button: a disabled button changes nothing; otherwise the vehicle is
        selected and the reservation popup opens. */
    method ClickReserve(v: Doc<Vehicle>)
      modifies this`selectedVehicle, this`showReservePopup
      ensures ReserveDisabled(v.data, driverRating) ==>
                selectedVehicle == old(selectedVehicle) && showReservePopup == old(showReservePopup)
      ensures !ReserveDisabled(v.data, driverRating) ==> selectedVehicle == Some(v) && showReservePopup
    {
      if !ReserveDisabled(v.data, driverRating) {
        selectedVehicle := Some(v);
        showReservePopup := true;
      }
    }

    /** Typing in the search box; the next fetch uses the new term. */
    method TypeSearchTerm(term: string)
      modifies this`searchTerm
      ensures searchTerm == term && filters == old(filters)
    {
      searchTerm := term;
    }

    /** `handleFilterChange`: only the named pending filter changes; the applied filters
        wait for `handleApplyFilters`. */
    method ChangeTempFilter(field: FilterField, value: string)
      modifies this`tempFilters
      ensures field == Location ==> tempFilters == old(tempFilters).(location := value)
      ensures field == MaxPrice ==> tempFilters == old(tempFilters).(maxPrice := value)
    {
      tempFilters := if field == Location then tempFilters.(location := value)
                     else tempFilters.(maxPrice := value);
    }

    /** `handleApplyFilters` */
    method ApplyFilters()
      modifies this`filters, this`showFilters
      ensures filters == tempFilters && !showFilters
    {
      filters := tempFilters;
      showFilters := false;
    }

    /** `handleCloseFilters`: both the pending and the applied filters are cleared. */
    method CloseFilters()
      modifies this`filters, this`tempFilters, this`showFilters
      ensures filters == NoFilters && tempFilters == NoFilters && !showFilters
      ensures RequestFor(searchTerm, filters) == (if searchTerm == "" then ListAll else Search([("name", searchTerm)]))
    {
      tempFilters := NoFilters;
      filters := NoFilters;
      showFilters := false;
    }
  }
}
