/**
 * The parking lot: its floors, the map from ticket id to ticket, and the
 * ticket counter; park and unpark update spots, map and counter in place.
 */
module Lot {
  import opened Options
  import opened Kinds
  import opened Spots
  import opened Floors
  import opened Tickets
  import opened Fees

  class ParkingLot {
    var floors: seq<Floor>
    var tickets: map<string, Ticket>
    var counter: nat
    /** The spots of all floors: what park and unpark may change. */
    ghost var spotSet: set<ParkingSpot>
    /** The id of the ticket that holds each occupied spot. */
    ghost var holder: map<ParkingSpot, string>

    /** Every spot of every floor is in spotSet. */
    ghost predicate Covered()
      reads this
    {
      forall i, j :: 0 <= i < |floors| && 0 <= j < |floors[i].spots| ==> floors[i].spots[j] in spotSet
    }

    /**
     * The lot's invariant: every floor has its fixed layout; a spot of the lot
     * is occupied exactly when some ticket holds it, and then holds that
     * ticket's vehicle; every ticket is filed under its own id; no two tickets
     * share a spot; and no id the counter has yet to issue is in use.
     */
    ghost predicate Valid()
      reads this, spotSet
    {
      (forall f :: f in floors ==> f.WellFormed()) &&
      Covered() &&
      holder.Keys <= spotSet &&
      (forall s :: s in spotSet ==> (s.occupied <==> s.vehicle.Some?) && (s.occupied <==> s in holder)) &&
      (forall s :: s in holder ==> holder[s] in tickets && tickets[holder[s]].spot == s) &&
      (forall id :: id in tickets ==>
        tickets[id].id == id && tickets[id].spot in holder && holder[tickets[id].spot] == id &&
        tickets[id].spot.vehicle == Some(tickets[id].vehicle)) &&
      (forall k: nat :: counter < k ==> TicketId(k) !in tickets)
    }

    /** Tickets hold occupied spots of the lot, and no two of them the same spot. */
    lemma TicketSpotsDistinct()
      requires Valid()
      ensures forall id :: id in tickets ==> tickets[id].spot in spotSet && tickets[id].spot.occupied
      ensures forall a, b :: a in tickets && b in tickets && a != b ==> tickets[a].spot != tickets[b].spot
    {
    }

    /**
     * Floor index and spot index that park chooses among floors `from` and
     * later: the first floor, in order, with a free spot `t` fits, and on it
     * the first such spot.
     */
    function FirstFloorMatch(t: VehicleType, from: nat): (r: Option<(nat, nat)>)
      requires Covered() && from <= |floors|
      reads this, spotSet
      ensures r.Some? ==> from <= r.value.0 < |floors| && FirstMatch(floors[r.value.0].spots, t) == Some(r.value.1)
      ensures r.Some? ==> forall i :: from <= i < r.value.0 ==> FirstMatch(floors[i].spots, t) == None
      ensures r.None? ==> forall i :: from <= i < |floors| ==> FirstMatch(floors[i].spots, t) == None
      decreases |floors| - from
    {
      if from == |floors| then None
      else
        assert forall s :: s in floors[from].spots ==> s in spotSet;
        match FirstMatch(floors[from].spots, t)
        case Some(j) => Some((from, j))
        case None => FirstFloorMatch(t, from + 1)
    }

    /** Conversely: a floor with a match, after floors without one, is the one chosen. */
    lemma FirstFloorMatchAt(t: VehicleType, i: nat)
      requires Covered() && i < |floors| && FirstMatch(floors[i].spots, t).Some?
      requires forall k :: 0 <= k < i ==> FirstMatch(floors[k].spots, t) == None
      ensures FirstFloorMatch(t, 0) == Some((i, FirstMatch(floors[i].spots, t).value))
    {
    }

    constructor ()
      ensures Valid()
      ensures floors == [] && tickets == map[] && counter == 0 && spotSet == {}
    {
      floors := [];
      tickets := map[];
      counter := 0;
      holder := map[];
      spotSet := {};
    }

    /** Appends floors numbered 1 .. numFloors, each with all its spots free. */
    method InitializeFloors(numFloors: int)
      requires Valid()
      modifies this
      ensures Valid()
      ensures |floors| == |old(floors)| + (if numFloors < 0 then 0 else numFloors)
      ensures floors[..|old(floors)|] == old(floors)
      ensures forall i :: |old(floors)| <= i < |floors| ==> floors[i].number == i - |old(floors)| + 1
      ensures forall i, j :: |old(floors)| <= i < |floors| && 0 <= j < |floors[i].spots| ==>
        fresh(floors[i].spots[j]) && !floors[i].spots[j].occupied
      ensures tickets == old(tickets) && counter == old(counter)
      ensures old(spotSet) <= spotSet && fresh(spotSet - old(spotSet))
    {
      var i := 1;
      while i <= numFloors
        invariant 1 <= i <= (if numFloors < 1 then 1 else numFloors + 1)
        invariant |floors| == |old(floors)| + i - 1
        invariant floors[..|old(floors)|] == old(floors)
        invariant forall k :: |old(floors)| <= k < |floors| ==> floors[k].number == k - |old(floors)| + 1
        invariant forall k, j :: |old(floors)| <= k < |floors| && 0 <= j < |floors[k].spots| ==>
          fresh(floors[k].spots[j]) && !floors[k].spots[j].occupied
        invariant tickets == old(tickets) && counter == old(counter) && holder == old(holder)
        invariant old(spotSet) <= spotSet && fresh(spotSet - old(spotSet))
        invariant Valid()
      {
        var f := new Floor(i);
        floors := floors + [f];
        spotSet := spotSet + set s | s in f.spots;
        i := i + 1;
      }
    }

    /** The next ticket id: the counter is advanced before it is used. */
    method GenerateId() returns (id: string)
      modifies this`counter
      ensures counter == old(counter) + 1 && id == TicketId(counter)
    {
      counter := counter + 1;
      id := TicketId(counter);
    }

    /**
     * The floor scan of park: the first floor, in order, on which the floor's
     * own search finds a spot for kind `t`, and that spot; null when no floor
     * has one. Changes nothing.
     */
    method FindSpotForPark(t: VehicleType) returns (floorIndex: nat, spot: ParkingSpot?)
      requires Covered()
      ensures FirstFloorMatch(t, 0).None? ==> spot == null
      ensures FirstFloorMatch(t, 0).Some? ==>
        floorIndex == FirstFloorMatch(t, 0).value.0 &&
        spot == floors[floorIndex].spots[FirstFloorMatch(t, 0).value.1]
    {
      spot := null;
      floorIndex := 0;
      while floorIndex < |floors|
        invariant floorIndex <= |floors|
        invariant forall k :: 0 <= k < floorIndex ==> FirstMatch(floors[k].spots, t) == None
        invariant spot == null
      {
        spot := floors[floorIndex].FindAvailableSpot(t);
        if spot != null {
          FirstFloorMatchAt(t, floorIndex);
          return;
        }
        floorIndex := floorIndex + 1;
      }
    }

    /**
     * Occupies the free spot `spot` with `v` and files a ticket for it, taken
     * at `now`, under the next id.
     */
    method IssueTicket(spot: ParkingSpot, v: Vehicle, now: int) returns (t: Ticket)
      requires Valid() && spot in spotSet && !spot.occupied
      modifies this, spot
      ensures Valid()
      ensures floors == old(floors) && spotSet == old(spotSet)
      ensures t == Ticket(TicketId(counter), v, spot, now)
      ensures counter == old(counter) + 1 && t.id !in old(tickets) && tickets == old(tickets)[t.id := t]
      ensures spot.occupied && spot.vehicle == Some(v)
    {
      spot.AssignVehicle(v);
      var id := GenerateId();
      t := Ticket(id, v, spot, now);
      tickets := tickets[id := t];
      holder := holder[spot := id];
      IssueKeepsValid(t);
    }

    /** Filing a fresh ticket for a spot that was free keeps the lot's invariant. */
    twostate lemma IssueKeepsValid(t: Ticket)
      requires old(Valid())
      requires t.spot in old(spotSet) && t.spot !in old(holder)
      requires floors == old(floors) && spotSet == old(spotSet)
      requires counter == old(counter) + 1 && t.id == TicketId(counter)
      requires tickets == old(tickets)[t.id := t] && holder == old(holder)[t.spot := t.id]
      requires t.spot.occupied && t.spot.vehicle == Some(t.vehicle)
      requires unchanged(spotSet - {t.spot})
      ensures Valid()
    {
      LaterIdsDiffer(counter);
    }

    /**
     * Parks `v` at time `now` on the first floor that has a free spot it fits,
     * in the first such spot there, and files a ticket under a fresh id.
     * With no such spot anywhere, nothing changes.
     */
    method ParkVehicle(v: Vehicle, now: int) returns (ticket: Option<Ticket>)
      requires Valid()
      modifies this, spotSet
      ensures Valid()
      ensures floors == old(floors) && spotSet == old(spotSet)
      ensures old(FirstFloorMatch(v.kind, 0)).None? ==>
        ticket == None && tickets == old(tickets) && counter == old(counter) && unchanged(spotSet)
      ensures old(FirstFloorMatch(v.kind, 0)).Some? ==>
        var (i, j) := old(FirstFloorMatch(v.kind, 0)).value;
        var s := floors[i].spots[j];
        && ticket == Some(Ticket(TicketId(counter), v, s, now))
        && counter == old(counter) + 1
        && TicketId(counter) !in old(tickets)
        && tickets == old(tickets)[TicketId(counter) := ticket.value]
        && s.occupied && s.vehicle == Some(v)
        && unchanged(spotSet - {s})
    {
      var found, spot := FindSpotForPark(v.kind);
      if spot == null {
        return None;
      }
      var t := IssueTicket(spot, v, now);
      return Some(t);
    }

    /**
     * Checks out the ticket `ticketId` at time `now`: frees its spot, drops
     * the ticket and returns the fee; an unknown id returns NotFound and
     * changes nothing.
     */
    method UnparkVehicle(ticketId: string, now: int) returns (fee: int)
      requires Valid()
      modifies this, spotSet
      ensures Valid()
      ensures floors == old(floors) && spotSet == old(spotSet) && counter == old(counter)
      ensures ticketId !in old(tickets) ==>
        fee == NotFound && tickets == old(tickets) && unchanged(spotSet)
      ensures ticketId in old(tickets) ==>
        var t := old(tickets[ticketId]);
        && fee == Fee(t.entryTime, now)
        && tickets == old(tickets) - {ticketId}
        && !t.spot.occupied && t.spot.vehicle == None
        && unchanged(spotSet - {t.spot})
    {
      if ticketId !in tickets {
        return NotFound;
      }
      var ticket := tickets[ticketId];
      var spot := ticket.spot;
      spot.RemoveVehicle();
      fee := Fee(ticket.entryTime, now);
      tickets := tickets - {ticketId};
      holder := holder - {spot};
    }

    /**
     * Once the compact spots of the first floor are all taken and the second
     * floor is empty, the next car goes to the second floor's spot B.
     */
    lemma CarOverflowsToNextFloor()
      requires Covered() && |floors| >= 2 && floors[0].WellFormed() && floors[1].WellFormed()
      requires forall j :: 0 <= j < |floors[0].spots| && floors[0].spots[j].kind == Compact ==> floors[0].spots[j].occupied
      requires forall j :: 0 <= j < |floors[1].spots| ==> !floors[1].spots[j].occupied
      ensures FirstFloorMatch(Car, 0) == Some((1, 1))
    {
      NoCarOnFullCompactFloor(floors[0]);
      EmptyFloorFirstFit(floors[1]);
      FirstFloorMatchAt(Car, 1);
    }
  }
}
