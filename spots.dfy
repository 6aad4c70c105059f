/** A parking spot: a fixed id and kind, and an occupancy that park and unpark update in place. */
module Spots {
  import opened Options
  import opened Kinds

  class ParkingSpot {
    const id: string
    const kind: SpotType
    var occupied: bool
    var vehicle: Option<Vehicle>

    /** A spot is occupied exactly when it holds a vehicle. */
    ghost predicate Valid()
      reads this
    {
      occupied <==> vehicle.Some?
    }

    constructor (id: string, kind: SpotType)
      ensures this.id == id && this.kind == kind
      ensures Valid() && !occupied && vehicle == None
    {
      this.id := id;
      this.kind := kind;
      occupied := false;
      vehicle := None;
    }

    function IsAvailable(): (available: bool)
      reads this
      ensures Valid() ==> (available <==> vehicle == None)
    {
      !occupied
    }

    method AssignVehicle(v: Vehicle)
      modifies this
      ensures Valid() && occupied && vehicle == Some(v)
    {
      vehicle := Some(v);
      occupied := true;
    }

    method RemoveVehicle()
      modifies this
      ensures Valid() && !occupied && vehicle == None
    {
      vehicle := None;
      occupied := false;
    }
  }
}
