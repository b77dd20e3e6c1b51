/** Controller/vehicleController.js: the vehicle registry and vehicle ratings. Handlers
    that change a collection are methods over the `Table`s; the listing and search
    handlers are functions of the stored documents. The listing base URL
    (`<protocol>://<host>/uploads`) and the multer upload path are parameters. */
module VehicleController {
  import opened Http
  import opened Text
  import opened Collection
  import opened VehicleModel
  import Lists
  import Averages

  const VehicleNotFoundMessage: string := "Vehicle not found"
  const AlreadyRatedMessage: string := "You have already rated this vehicle"
  const InternalErrorMessage: string := "Internal server error"
  const ServerErrorMessage: string := "Server Error"
  const VehicleDeletedMessage: string := "Vehicle deleted successfully"
  const EmailRequiredMessage: string := "Email is required"

  /** A stored vehicle rating. Model/Rating.js is not part of this model; the fields are
      the ones the controller writes. */
  datatype VehicleRating = VehicleRating(vehicleId: Id, userEmail: string, rating: int)

  // ---------------------------------------------------------------------------
  // addVehicle

  /** The validated fields with the uploaded file's path as `carImage` (the body's own
      `carImage` is never read). */
  function WithUpload(fields: VehicleFields, path: string): VehicleFields {
    fields.(carImage := Some(path))
  }

  /** `addVehicle`: without an uploaded file `req.file.path` throws (500); a failed
      validation is also a 500; otherwise the new vehicle is appended (201). */
  method AddVehicle(vehicles: Table<Vehicle>, fields: VehicleFields, upload: Option<string>)
    returns (r: Reply<Doc<Vehicle>>)
    requires vehicles.Valid()
    modifies vehicles
    ensures vehicles.Valid()
    ensures r.Created? <==> upload.Some? && Accepts(WithUpload(fields, upload.value))
    ensures r.Created? ==> Some(r.body.data) == NewVehicle(WithUpload(fields, upload.value))
                           && vehicles.docs == old(vehicles.docs) + [r.body]
                           && old(Lookup(vehicles.docs, r.body.id)).None?
    ensures !r.Created? ==> r.ServerError? && vehicles.docs == old(vehicles.docs)
  {
    if upload.None? {
      return ServerError(ServerErrorMessage);
    }
    var v := NewVehicle(WithUpload(fields, upload.value));
    if v.None? {
      return ServerError(ServerErrorMessage);
    }
    var id := vehicles.Insert(v.value);
    r := Created(Doc(id, v.value));
  }

  // ---------------------------------------------------------------------------
  // updateVehicleStatus

  /** The change `{ status }` applied by `findByIdAndUpdate`; no validator runs, so any
      string is written. */
  function SetStatus(status: string): Vehicle -> Vehicle {
    (v: Vehicle) => v.(status := status)
  }

  /** `updateVehicleStatus`: 404 and no change when the id is absent; otherwise only that
      vehicle's status changes, and the updated vehicle is returned. */
  method UpdateVehicleStatus(vehicles: Table<Vehicle>, id: Id, status: string)
    returns (r: Reply<Vehicle>)
    requires vehicles.Valid()
    modifies vehicles`docs
    ensures vehicles.Valid()
    ensures vehicles.docs == Modify(old(vehicles.docs), id, SetStatus(status))
    ensures r.NotFound? <==> old(Lookup(vehicles.docs, id)).None?
    ensures r.NotFound? ==> vehicles.docs == old(vehicles.docs)
    ensures r.Ok? ==> r.body == old(Lookup(vehicles.docs, id)).value.(status := status)
    ensures r.Ok? || r.NotFound?
  {
    LookupIsFindById(vehicles, id);
    var u := vehicles.FindByIdAndUpdate(id, SetStatus(status));
    if u.None? {
      return NotFound(VehicleNotFoundMessage);
    }
    r := Ok(u.value);
  }

  lemma LookupIsFindById<T>(t: Table<T>, id: Id)
    ensures t.FindById(id) == Lookup(t.docs, id)
  {
  }

  /** Writing the same status twice leaves the registry as writing it once. */
  lemma UpdateVehicleStatusIdempotent(docs: seq<Doc<Vehicle>>, id: Id, status: string)
    ensures Modify(Modify(docs, id, SetStatus(status)), id, SetStatus(status))
            == Modify(docs, id, SetStatus(status))
  {
    ModifyIdempotent(docs, id, SetStatus(status));
  }

  /** A status update changes the status of the identified vehicle only: every other
      field of it, and every other vehicle, stay as they were. */
  lemma UpdateVehicleStatusOnlyStatus(docs: seq<Doc<Vehicle>>, id: Id, status: string, i: nat)
    requires i < |docs|
    ensures var after := Modify(docs, id, SetStatus(status));
            after[i].id == docs[i].id
            && (docs[i].id == id ==> after[i].data.status == status
                                     && after[i].data.(status := docs[i].data.status) == docs[i].data)
            && (docs[i].id != id ==> after[i] == docs[i])
  {
  }

  // ---------------------------------------------------------------------------
  // Listings: getVehicles, searchVehicles, getVehiclesByEmail

  /** The image URL a listing shows: null when no image path is stored (or it is empty),
      otherwise the base URL followed by the stored path's file name. */
  function ImageUrl(baseUrl: string, carImage: Option<string>): Option<string> {
    if carImage.None? || carImage.value == "" then None
    else Some(baseUrl + "/" + Basename(carImage.value))
  }

  /** An upload stored as `dir/file` is listed at `baseUrl/file`, and the URL never
      exposes a directory of the stored path. */
  lemma ImageUrlOfUpload(baseUrl: string, dir: string, file: string)
    requires file != [] && '/' !in file
    ensures ImageUrl(baseUrl, Some(dir + "/" + file)) == Some(baseUrl + "/" + file)
  {
    BasenameOfUpload(dir, file);
  }

  /** The listing of one vehicle: `{ ...vehicle._doc, carImage: url }`. */
  function Listing(baseUrl: string, d: Doc<Vehicle>): Doc<Vehicle> {
    Doc(d.id, d.data.(carImage := ImageUrl(baseUrl, d.data.carImage)))
  }

  /** Listings of many vehicles, in stored order: each one is the stored vehicle with its
      image rewritten, and with every other field, and its id, unchanged. */
  function Listings(baseUrl: string, docs: seq<Doc<Vehicle>>): (r: seq<Doc<Vehicle>>)
    ensures |r| == |docs|
    ensures forall i :: 0 <= i < |docs| ==>
              r[i].id == docs[i].id
              && r[i].data.carImage == ImageUrl(baseUrl, docs[i].data.carImage)
              && r[i].data.(carImage := docs[i].data.carImage) == docs[i].data
  {
    if docs == [] then [] else [Listing(baseUrl, docs[0])] + Listings(baseUrl, docs[1..])
  }

  /** `getVehicles`: every stored vehicle, listed. */
  function GetVehicles(baseUrl: string, docs: seq<Doc<Vehicle>>): (r: Reply<seq<Doc<Vehicle>>>)
    ensures r.Ok? && r.body == Listings(baseUrl, docs)
  {
    Ok(Listings(baseUrl, docs))
  }

  /** The query string of `searchVehicles`; an empty parameter counts as not given.
      `maxPrice` is already parsed by `parseFloat`. */
  datatype SearchQuery = SearchQuery(name: string, location: string, maxPrice: Option<real>)

  /** The filters a query supplies, applied to one vehicle: each supplied text filter is
      a case-insensitive substring match, a supplied price is an upper bound on the rent;
      the vehicle's status plays no part. */
  predicate MatchesQuery(v: Vehicle, q: SearchQuery) {
    (q.name == "" || Contains(Lower(v.name), Lower(q.name)))
    && (q.location == "" || (v.location.Some? && Contains(Lower(v.location.value), Lower(q.location))))
    && (q.maxPrice.None? || v.rentPrice <= q.maxPrice.value)
  }

  /** `Vehicle.find(filters)`: the vehicles matching the query, in stored order. */
  function Matching(docs: seq<Doc<Vehicle>>, q: SearchQuery): (r: seq<Doc<Vehicle>>)
    ensures forall d :: d in r <==> d in docs && MatchesQuery(d.data, q)
  {
    Lists.Filter(docs, (d: Doc<Vehicle>) => MatchesQuery(d.data, q))
  }

  const NoSearchParameterMessage: string :=
    "Please provide at least one search parameter (name, location, or maxPrice)."
  const NoMatchMessage: string := "No vehicles found matching the criteria."

  /** `searchVehicles`: 400 when no parameter is given; 404 (not an empty list) when no
      vehicle matches; otherwise the listings of exactly the matching vehicles. */
  function SearchVehicles(baseUrl: string, docs: seq<Doc<Vehicle>>, q: SearchQuery)
    : (r: Reply<seq<Doc<Vehicle>>>)
    ensures r.BadRequest? <==> q.name == "" && q.location == "" && q.maxPrice.None?
    ensures r.NotFound? <==> !r.BadRequest? && forall i :: 0 <= i < |docs| ==> !MatchesQuery(docs[i].data, q)
    ensures r.Ok? ==> r.body == Listings(baseUrl, Matching(docs, q)) && r.body != []
    ensures r.Ok? || r.BadRequest? || r.NotFound?
  {
    if q.name == "" && q.location == "" && q.maxPrice.None? then
      BadRequest(NoSearchParameterMessage)
    else
      var found := Matching(docs, q);
      MatchingEmpty(docs, q);
      if found == [] then NotFound(NoMatchMessage)
      else Ok(Listings(baseUrl, found))
  }

  /** No vehicle matches exactly when the search finds none. */
  lemma MatchingEmpty(docs: seq<Doc<Vehicle>>, q: SearchQuery)
    ensures Matching(docs, q) == [] <==> forall i :: 0 <= i < |docs| ==> !MatchesQuery(docs[i].data, q)
  {
    var found := Matching(docs, q);
    if found == [] {
      forall i | 0 <= i < |docs| ensures !MatchesQuery(docs[i].data, q) {
        assert docs[i] in docs;
      }
    } else {
      assert found[0] in found;
    }
  }

  /** `Vehicle.find({ email })`: the vehicles of one owner, in stored order. */
  function OwnedBy(docs: seq<Doc<Vehicle>>, email: string): (r: seq<Doc<Vehicle>>)
    ensures forall d :: d in r <==> d in docs && d.data.email == email
  {
    Lists.Filter(docs, (d: Doc<Vehicle>) => d.data.email == email)
  }

  /** `getVehiclesByEmail`: 400 without an e-mail; otherwise the listings of exactly the
      vehicles with that owner e-mail (possibly none). */
  function GetVehiclesByEmail(baseUrl: string, docs: seq<Doc<Vehicle>>, email: string)
    : (r: Reply<seq<Doc<Vehicle>>>)
    ensures r.BadRequest? <==> email == ""
    ensures !r.BadRequest? ==> r.Ok? && r.body == Listings(baseUrl, OwnedBy(docs, email))
  {
    if email == "" then BadRequest(EmailRequiredMessage) else Ok(Listings(baseUrl, OwnedBy(docs, email)))
  }

  // ---------------------------------------------------------------------------
  // deleteVehicle

  /** `deleteVehicle`: 404 and no change when the id is absent; otherwise that vehicle,
      and only it, is removed. */
  method DeleteVehicle(vehicles: Table<Vehicle>, id: Id) returns (r: Reply<string>)
    requires vehicles.Valid()
    modifies vehicles`docs
    ensures vehicles.Valid()
    ensures vehicles.docs == Remove(old(vehicles.docs), id)
    ensures r.NotFound? <==> old(Lookup(vehicles.docs, id)).None?
    ensures r.NotFound? ==> vehicles.docs == old(vehicles.docs)
    ensures r.Ok? || r.NotFound?
  {
    LookupIsFindById(vehicles, id);
    var before := vehicles.docs;
    var d := vehicles.FindByIdAndDelete(id);
    if d.None? {
      RemoveAbsent(before, id);
      return NotFound(VehicleNotFoundMessage);
    }
    r := Ok(VehicleDeletedMessage);
  }

  // ---------------------------------------------------------------------------
  // updateVehicle

  /** The body of `updateVehicle`: the fields it names, each replacing the stored one. */
  datatype VehiclePatch = VehiclePatch(
    email: Option<string>,
    carImage: Option<string>,
    make: Option<string>,
    model: Option<string>,
    name: Option<string>,
    location: Option<string>,
    rentPrice: Option<real>,
    description: Option<string>,
    status: Option<string>,
    minDriverRating: Option<real>)

  /** `{ ...req.body }` with `carImage` replaced by the upload's path when a file came. */
  function EffectivePatch(body: VehiclePatch, upload: Option<string>): (p: VehiclePatch)
    ensures upload.Some? ==> p.carImage == upload
    ensures upload.None? ==> p == body
    ensures p.(carImage := body.carImage) == body
  {
    if upload.Some? then body.(carImage := upload) else body
  }

  /** The stored vehicle after `findByIdAndUpdate(id, patch)`: a field the patch names
      takes the patch's value, every other field keeps its value. */
  function Merge(p: VehiclePatch, v: Vehicle): (r: Vehicle)
    ensures r.email == p.email.GetOr(v.email) && r.make == p.make.GetOr(v.make)
    ensures r.model == p.model.GetOr(v.model) && r.name == p.name.GetOr(v.name)
    ensures r.carImage == (if p.carImage.Some? then p.carImage else v.carImage)
    ensures r.location == (if p.location.Some? then p.location else v.location)
    ensures r.rentPrice == p.rentPrice.GetOr(v.rentPrice)
    ensures r.description == p.description.GetOr(v.description)
    ensures r.status == p.status.GetOr(v.status)
    ensures r.minDriverRating == p.minDriverRating.GetOr(v.minDriverRating)
  {
    Vehicle(p.email.GetOr(v.email),
            if p.carImage.Some? then p.carImage else v.carImage,
            p.make.GetOr(v.make), p.model.GetOr(v.model), p.name.GetOr(v.name),
            if p.location.Some? then p.location else v.location,
            p.rentPrice.GetOr(v.rentPrice), p.description.GetOr(v.description),
            p.status.GetOr(v.status), p.minDriverRating.GetOr(v.minDriverRating))
  }

  function MergeWith(p: VehiclePatch): Vehicle -> Vehicle {
    (v: Vehicle) => Merge(p, v)
  }

  /** Applying the same update again changes nothing further, and an empty body without a
      file changes nothing at all. */
  lemma MergeIdempotent(p: VehiclePatch, v: Vehicle)
    ensures Merge(p, Merge(p, v)) == Merge(p, v)
    ensures p == VehiclePatch(None, None, None, None, None, None, None, None, None, None) ==> Merge(p, v) == v
  {
  }

  /** `updateVehicle`: 404 and no change when the id is absent; otherwise the identified
      vehicle, and only it, is merged with the body (and the new file, if any). */
  method UpdateVehicle(vehicles: Table<Vehicle>, id: Id, body: VehiclePatch, upload: Option<string>)
    returns (r: Reply<Vehicle>)
    requires vehicles.Valid()
    modifies vehicles`docs
    ensures vehicles.Valid()
    ensures vehicles.docs == Modify(old(vehicles.docs), id, MergeWith(EffectivePatch(body, upload)))
    ensures r.NotFound? <==> old(Lookup(vehicles.docs, id)).None?
    ensures r.NotFound? ==> vehicles.docs == old(vehicles.docs)
    ensures r.Ok? ==> r.body == Merge(EffectivePatch(body, upload), old(Lookup(vehicles.docs, id)).value)
    ensures r.Ok? || r.NotFound?
  {
    LookupIsFindById(vehicles, id);
    var u := vehicles.FindByIdAndUpdate(id, MergeWith(EffectivePatch(body, upload)));
    if u.None? {
      return NotFound(VehicleNotFoundMessage);
    }
    r := Ok(u.value);
  }

  // ---------------------------------------------------------------------------
  // rateVehicle and getAverageRating

  /** The `vehicleId` of a rating request. The controller reads `vehicleId._id`: the
      populated vehicle object the booking list hands the form yields its id, a bare id
      string yields `undefined`, and a missing field makes the read throw. */
  datatype VehicleArg = Missing | BareId(raw: Id) | Populated(id: Id)

  /** Whether `userEmail` has already rated vehicle `id`. */
  predicate HasRated(ratings: seq<Doc<VehicleRating>>, id: Id, userEmail: string) {
    exists i :: 0 <= i < |ratings| && ratings[i].data.vehicleId == id && ratings[i].data.userEmail == userEmail
  }

  /** No two stored ratings come from the same user for the same vehicle. */
  ghost predicate OneRatingPerUser(ratings: seq<Doc<VehicleRating>>) {
    forall i, j :: 0 <= i < j < |ratings| ==>
      ratings[i].data.vehicleId != ratings[j].data.vehicleId
      || ratings[i].data.userEmail != ratings[j].data.userEmail
  }

  /** `rateVehicle`: a missing `vehicleId` throws (500); an id that finds no vehicle
      (a bare id always does) gives 404; a second rating by the same user for the same
      vehicle gives 400; otherwise exactly one rating is appended (201), whatever its
      value: no range check is made. Only a 201 changes the ratings, so at most one
      rating per user and vehicle is ever stored. */
  method RateVehicle(vehicles: Table<Vehicle>, ratings: Table<VehicleRating>,
                     vehicleId: VehicleArg, userEmail: string, rating: int)
    returns (r: Reply<Doc<VehicleRating>>)
    requires vehicles.Valid() && ratings.Valid()
    modifies ratings
    ensures ratings.Valid()
    ensures vehicleId.Missing? ==> r.ServerError?
    ensures vehicleId.BareId? ==> r.NotFound?
    ensures vehicleId.Populated? ==>
              (r.NotFound? <==> Lookup(vehicles.docs, vehicleId.id).None?)
    ensures vehicleId.Populated? && Lookup(vehicles.docs, vehicleId.id).Some? ==>
              (r.BadRequest? <==> old(HasRated(ratings.docs, vehicleId.id, userEmail)))
    ensures vehicleId.Populated? ==> !r.ServerError? && !r.Ok?
    ensures r.NotFound? ==> r.message == VehicleNotFoundMessage
    ensures r.BadRequest? ==> r.message == AlreadyRatedMessage
    ensures r.Created? ==> r.body.data == VehicleRating(vehicleId.id, userEmail, rating)
                           && ratings.docs == old(ratings.docs) + [r.body]
    ensures !r.Created? ==> ratings.docs == old(ratings.docs)
    ensures old(OneRatingPerUser(ratings.docs)) ==> OneRatingPerUser(ratings.docs)
  {
    if vehicleId.Missing? {
      return ServerError(InternalErrorMessage);
    }
    if vehicleId.BareId? {
      return NotFound(VehicleNotFoundMessage);
    }
    var id := vehicleId.id;
    if Lookup(vehicles.docs, id).None? {
      return NotFound(VehicleNotFoundMessage);
    }
    if HasRated(ratings.docs, id, userEmail) {
      return BadRequest(AlreadyRatedMessage);
    }
    var x := VehicleRating(id, userEmail, rating);
    var rid := ratings.Insert(x);
    r := Created(Doc(rid, x));
  }

  /** The scores stored for one vehicle, in stored order. */
  function ScoresFor(ratings: seq<Doc<VehicleRating>>, id: Id): (r: seq<int>)
    ensures |r| <= |ratings|
  {
    if ratings == [] then []
    else (if ratings[0].data.vehicleId == id then [ratings[0].data.rating] else [])
         + ScoresFor(ratings[1..], id)
  }

  /** Each new rating of a vehicle adds its score, at the end, to that vehicle's scores,
      and to no other vehicle's. */
  lemma {:induction false} ScoresForAppend(ratings: seq<Doc<VehicleRating>>, d: Doc<VehicleRating>, id: Id)
    ensures ScoresFor(ratings + [d], id)
            == ScoresFor(ratings, id) + (if d.data.vehicleId == id then [d.data.rating] else [])
  {
    if ratings != [] {
      assert (ratings + [d])[1..] == ratings[1..] + [d];
      ScoresForAppend(ratings[1..], d, id);
    } else {
      assert [d][1..] == [];
    }
  }

  /** `getAverageRating`: 5 when the vehicle has no rating, otherwise the mean of its
      scores. */
  function GetAverageRating(ratings: seq<Doc<VehicleRating>>, id: Id): (r: Reply<real>)
    ensures r.Ok?
    ensures ScoresFor(ratings, id) == [] ==> r.body == Averages.DefaultRating
    ensures ScoresFor(ratings, id) != [] ==>
              r.body * (|ScoresFor(ratings, id)| as real) == Averages.Sum(ScoresFor(ratings, id)) as real
  {
    Ok(Averages.AverageOrDefault(ScoresFor(ratings, id)))
  }

  /** The scores that the rating form lets through lie in 1..5, and then so does the
      average; the server alone does not ensure it. */
  lemma {:induction false} AverageRatingInRange(ratings: seq<Doc<VehicleRating>>, id: Id)
    requires forall i :: 0 <= i < |ratings| ==> 1 <= ratings[i].data.rating <= 5
    ensures 1.0 <= GetAverageRating(ratings, id).body <= 5.0
  {
    ScoresInRange(ratings, id);
    Averages.AverageBounds(ScoresFor(ratings, id), 1, 5);
  }

  lemma {:induction false} ScoresInRange(ratings: seq<Doc<VehicleRating>>, id: Id)
    requires forall i :: 0 <= i < |ratings| ==> 1 <= ratings[i].data.rating <= 5
    ensures forall k :: 0 <= k < |ScoresFor(ratings, id)| ==> 1 <= ScoresFor(ratings, id)[k] <= 5
  {
    if ratings != [] {
      ScoresInRange(ratings[1..], id);
    }
  }
}
