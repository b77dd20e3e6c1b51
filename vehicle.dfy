/** Model/Vehicle.js: the Vehicle schema, with its required fields, the status enum and
    the defaults applied when a new vehicle is built. */
module VehicleModel {
  import opened Http

  const Available: string := "Available"
  const Reserved: string := "Reserved"

  /** A stored vehicle. `status` is a plain string because updates made with
      `findByIdAndUpdate` skip the schema's enum check (see the controller). */
  datatype Vehicle = Vehicle(
    email: string,
    carImage: Option<string>,
    make: string,
    model: string,
    name: string,
    location: Option<string>,
    rentPrice: real,
    description: string,
    status: string,
    minDriverRating: real)

  /** The fields handed to `new Vehicle({...})`; an absent field is `None`. */
  datatype VehicleFields = VehicleFields(
    email: Option<string>,
    carImage: Option<string>,
    make: Option<string>,
    model: Option<string>,
    name: Option<string>,
    location: Option<string>,
    rentPrice: Option<real>,
    description: Option<string>,
    status: Option<string>,
    minDriverRating: Option<real>)

  /** Mongoose's `required` on a String: present and not the empty string. */
  predicate Supplied(o: Option<string>) {
    o.Some? && o.value != ""
  }

  /** The values the schema's `enum` admits for `status`. */
  predicate StatusInEnum(s: string) {
    s == Available || s == Reserved
  }

  /** Whether validation on `save()` accepts the fields: every required field is given
      (`location` is optional) and a supplied status lies in the enum. */
  predicate Accepts(f: VehicleFields) {
    Supplied(f.email) && Supplied(f.carImage) && Supplied(f.make) && Supplied(f.model)
    && Supplied(f.name) && f.rentPrice.Some? && Supplied(f.description)
    && (f.status.None? || StatusInEnum(f.status.value))
  }

  /** Builds and validates a new vehicle: none when validation fails; otherwise the given
      fields, with status "Available" and minDriverRating 0 when they are not supplied. */
  function NewVehicle(f: VehicleFields): (r: Option<Vehicle>)
    ensures r.Some? <==> Accepts(f)
    ensures r.Some? ==> StatusInEnum(r.value.status)
    ensures r.Some? && f.status.None? ==> r.value.status == Available
    ensures r.Some? && f.status.Some? ==> r.value.status == f.status.value
    ensures r.Some? && f.minDriverRating.None? ==> r.value.minDriverRating == 0.0
    ensures r.Some? && f.minDriverRating.Some? ==> r.value.minDriverRating == f.minDriverRating.value
    ensures r.Some? ==> Some(r.value.email) == f.email && r.value.carImage == f.carImage
                        && Some(r.value.make) == f.make && Some(r.value.model) == f.model
                        && Some(r.value.name) == f.name && r.value.location == f.location
                        && Some(r.value.rentPrice) == f.rentPrice
                        && Some(r.value.description) == f.description
  {
    if !Accepts(f) then None
    else Some(Vehicle(f.email.value, f.carImage, f.make.value, f.model.value, f.name.value,
                      f.location, f.rentPrice.value, f.description.value,
                      f.status.GetOr(Available), f.minDriverRating.GetOr(0.0)))
  }
}
