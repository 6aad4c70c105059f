/** Tickets and their sequential ids "T1", "T2", ... */
module Tickets {
  import opened Kinds
  import opened Spots
  import opened Decimal

  /** A ticket never changes after it is issued; it refers to the spot it was assigned. */
  datatype Ticket = Ticket(id: string, vehicle: Vehicle, spot: ParkingSpot, entryTime: int)

  /** The id of the n-th issued ticket. */
  function TicketId(n: nat): (id: string)
    ensures |id| >= 2 && id[0] == 'T' && AllDigits(id[1..])
  {
    "T" + NatToString(n)
  }

  /** Different counter values give different ticket ids. */
  lemma TicketIdInjective(a: nat, b: nat)
    requires TicketId(a) == TicketId(b)
    ensures a == b
  {
    assert NatToString(a) == TicketId(a)[1..];
    assert NatToString(b) == TicketId(b)[1..];
    NatToStringInjective(a, b);
  }

  /** An id issued later differs from the one issued at counter value `n`. */
  lemma LaterIdsDiffer(n: nat)
    ensures forall k: nat :: n < k ==> TicketId(k) != TicketId(n)
  {
    forall k: nat | n < k
      ensures TicketId(k) != TicketId(n)
    {
      if TicketId(k) == TicketId(n) {
        TicketIdInjective(k, n);
      }
    }
  }
}
