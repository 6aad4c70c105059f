/** The system's own walk-through: three floors, one car parked and checked out. */
module Scenarios {
  import opened Options
  import opened Kinds
  import opened Decimal
  import opened Floors
  import opened Tickets
  import opened Fees
  import opened Lot

  /** Spot B of floor 1 is named "1B", and the first ticket "T1". */
  lemma FirstIds(f: Floor)
    requires f.WellFormed() && f.number == 1
    ensures f.spots[1].id == "1B" && TicketId(1) == "T1"
  {
    assert NatToString(1) == "1";
    assert f.spots[1].id == SpotId(1, Letter(1));
  }

  /**
   * The lot the program starts with: three fresh floors and no tickets. A car
   * would be placed on floor 1, spot B.
   */
  method NewLot() returns (lot: ParkingLot)
    ensures fresh(lot) && fresh(lot.spotSet) && lot.Valid()
    ensures |lot.floors| == 3 && lot.floors[0].WellFormed() && lot.floors[0].number == 1
    ensures lot.tickets == map[] && lot.counter == 0
    ensures lot.FirstFloorMatch(Car, 0) == Some((0, 1))
  {
    lot := new ParkingLot();
    lot.InitializeFloors(3);
    EmptyFloorFirstFit(lot.floors[0]);
    lot.FirstFloorMatchAt(Car, 0);
  }

  /** Three fresh floors: the first car of the day gets spot 1B and ticket T1. */
  method FirstCarGetsSpot1B(entry: int) returns (spotId: string, ticketId: string)
    ensures spotId == "1B" && ticketId == "T1"
  {
    var lot := NewLot();
    FirstIds(lot.floors[0]);
    var ticket := lot.ParkVehicle(Vehicle("ABC123", Car), entry);
    assert ticket.Some? && ticket.value.spot == lot.floors[0].spots[1];
    spotId := ticket.value.spot.id;
    ticketId := ticket.value.id;
  }

  /**
   * Three fresh floors; a car parks at time `entry` and leaves `stay` seconds
   * later, less than an hour, for nothing; the same ticket presented again is
   * not found.
   */
  method ParkThenUnparkTwice(entry: int, stay: int) returns (fee: int, again: int)
    requires 0 <= stay < SecondsPerHour
    ensures fee == 0 && again == NotFound
  {
    var lot := NewLot();
    var ticket := lot.ParkVehicle(Vehicle("ABC123", Car), entry);
    assert ticket.Some?;
    fee := lot.UnparkVehicle(ticket.value.id, entry + stay);
    again := lot.UnparkVehicle(ticket.value.id, entry + stay);
  }

  /** An id that was never issued is not found, and unpark leaves the lot as it was. */
  method UnknownTicketNotFound(now: int) returns (fee: int, tickets: map<string, Ticket>)
    ensures fee == NotFound && tickets == map[]
  {
    var lot := NewLot();
    fee := lot.UnparkVehicle("T9999", now);
    tickets := lot.tickets;
  }
}
