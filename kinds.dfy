/** Vehicle and spot kinds, vehicles, and the rule saying which vehicle fits which spot. */
module Kinds {

  datatype VehicleType = Car | Bike | Truck

  /** Handicapped and Electric are declared by the system but never generated nor matched by name. */
  datatype SpotType = Compact | Large | Handicapped | Electric

  /** A vehicle is immutable; its plate is carried along but never inspected. */
  datatype Vehicle = Vehicle(licensePlate: string, kind: VehicleType)

  /** A car needs a compact spot, a truck a large one, a bike takes any spot. */
  predicate Fits(t: VehicleType, k: SpotType): (fits: bool)
    ensures t == Car ==> (fits <==> k == Compact)
    ensures t == Truck ==> (fits <==> k == Large)
    ensures t == Bike ==> fits
    ensures k == Handicapped || k == Electric ==> (fits <==> t == Bike)
  {
    (t == Car && k == Compact) || (t == Truck && k == Large) || t == Bike
  }
}
