/**
 * A floor: 26 spots "<floor>A" .. "<floor>Z" created once, and the
 * first-match search for a free spot a vehicle kind fits.
 */
module Floors {
  import opened Options
  import opened Kinds
  import opened Decimal
  import opened Spots

  const SpotsPerFloor: nat := 26

  /** The i-th spot letter, 'A' for i = 0. */
  function Letter(i: nat): (c: char)
    requires i < SpotsPerFloor
    ensures 'A' <= c <= 'Z' && c as int - 'A' as int == i
  {
    ('A' as int + i) as char
  }

  /** Letters with an even character code give compact spots, the others large ones. */
  function KindOfLetter(c: char): (k: SpotType)
    ensures k == Compact || k == Large
    ensures k == Compact <==> c as int % 2 == 0
  {
    if c as int % 2 == 0 then Compact else Large
  }

  /** The id of the spot with the given letter on the given floor. */
  function SpotId(floorNumber: int, letter: char): (id: string)
    ensures |id| >= 2 && id[|id| - 1] == letter
  {
    IntToString(floorNumber) + [letter]
  }

  /** A spot id determines both its floor number and its letter. */
  lemma SpotIdInjective(f1: int, c1: char, f2: int, c2: char)
    requires SpotId(f1, c1) == SpotId(f2, c2)
    ensures f1 == f2 && c1 == c2
  {
    var id := SpotId(f1, c1);
    assert IntToString(f1) == id[..|id| - 1] == IntToString(f2);
    IntToStringInjective(f1, f2);
  }

  /** Kinds alternate along the letters, starting with a large spot at 'A'. */
  lemma LetterKind(i: nat)
    requires i < SpotsPerFloor
    ensures KindOfLetter(Letter(i)) == if i % 2 == 0 then Large else Compact
  {
  }

  /** A free spot the vehicle kind fits. */
  predicate Matches(s: ParkingSpot, t: VehicleType)
    reads s
  {
    s.IsAvailable() && Fits(t, s.kind)
  }

  /** Index of the first spot, in order, that is free and fits `t`; None when there is none. */
  function FirstMatch(spots: seq<ParkingSpot>, t: VehicleType): (r: Option<nat>)
    reads spots
    ensures r.Some? ==> r.value < |spots| && Matches(spots[r.value], t)
    ensures r.Some? ==> forall j :: 0 <= j < r.value ==> !Matches(spots[j], t)
    ensures r.None? ==> forall j :: 0 <= j < |spots| ==> !Matches(spots[j], t)
  {
    if spots == [] then None
    else if Matches(spots[0], t) then Some(0)
    else
      match FirstMatch(spots[1..], t)
      case None => None
      case Some(j) => Some(j + 1)
  }

  /** Number of spots of kind `k`. */
  function CountKind(spots: seq<ParkingSpot>, k: SpotType): nat {
    if spots == [] then 0
    else CountKind(spots[..|spots| - 1], k) + (if spots[|spots| - 1].kind == k then 1 else 0)
  }

  class Floor {
    const number: int
    const spots: seq<ParkingSpot>

    /** The fixed layout: 26 spots, ids "<number>A" .. "<number>Z" in order, kinds by letter parity. */
    ghost predicate WellFormed() {
      |spots| == SpotsPerFloor &&
      forall i :: 0 <= i < |spots| ==>
        spots[i].id == SpotId(number, Letter(i)) && spots[i].kind == KindOfLetter(Letter(i))
    }

    constructor (floorNumber: int)
      ensures number == floorNumber && WellFormed()
      ensures forall i :: 0 <= i < |spots| ==> fresh(spots[i])
      ensures forall i :: 0 <= i < |spots| ==> spots[i].Valid() && !spots[i].occupied
    {
      number := floorNumber;
      var made: seq<ParkingSpot> := [];
      var c := 'A';
      while c <= 'Z'
        invariant 'A' <= c <= '['
        invariant |made| == c as int - 'A' as int
        invariant forall i :: 0 <= i < |made| ==>
          made[i].id == SpotId(floorNumber, Letter(i)) && made[i].kind == KindOfLetter(Letter(i))
        invariant forall i :: 0 <= i < |made| ==> fresh(made[i])
        invariant forall i :: 0 <= i < |made| ==> made[i].Valid() && !made[i].occupied
      {
        var spot := new ParkingSpot(SpotId(floorNumber, c), KindOfLetter(c));
        made := made + [spot];
        c := (c as int + 1) as char;
      }
      spots := made;
    }

    /** The first free spot, in order, that a vehicle of kind `t` fits, or null. Changes nothing. */
    method FindAvailableSpot(t: VehicleType) returns (spot: ParkingSpot?)
      ensures FirstMatch(spots, t).None? ==> spot == null
      ensures FirstMatch(spots, t).Some? ==> spot == spots[FirstMatch(spots, t).value]
    {
      for i := 0 to |spots|
        invariant forall j :: 0 <= j < i ==> !Matches(spots[j], t)
      {
        var s := spots[i];
        if s.IsAvailable() {
          if Fits(t, s.kind) {
            return s;
          }
        }
      }
      return null;
    }
  }

  /** Spot ids are unique within a floor, so its spots are distinct objects. */
  lemma FloorIdsDistinct(f: Floor)
    requires f.WellFormed()
    ensures forall i, j :: 0 <= i < j < |f.spots| ==> f.spots[i].id != f.spots[j].id
    ensures forall i, j :: 0 <= i < j < |f.spots| ==> f.spots[i] != f.spots[j]
  {
    forall i, j | 0 <= i < j < |f.spots|
      ensures f.spots[i].id != f.spots[j].id
    {
      if f.spots[i].id == f.spots[j].id {
        SpotIdInjective(f.number, Letter(i), f.number, Letter(j));
      }
    }
  }

  /** Floors with different numbers share no spot id. */
  lemma FloorIdsDisjoint(f: Floor, g: Floor)
    requires f.WellFormed() && g.WellFormed() && f.number != g.number
    ensures forall i, j :: 0 <= i < |f.spots| && 0 <= j < |g.spots| ==> f.spots[i].id != g.spots[j].id
  {
    forall i, j | 0 <= i < |f.spots| && 0 <= j < |g.spots|
      ensures f.spots[i].id != g.spots[j].id
    {
      if f.spots[i].id == g.spots[j].id {
        SpotIdInjective(f.number, Letter(i), g.number, Letter(j));
      }
    }
  }

  lemma {:induction false} KindCountsOfPrefix(f: Floor, n: nat)
    requires f.WellFormed() && n <= |f.spots|
    ensures CountKind(f.spots[..n], Compact) == n / 2
    ensures CountKind(f.spots[..n], Large) == (n + 1) / 2
  {
    if n > 0 {
      KindCountsOfPrefix(f, n - 1);
      assert f.spots[..n][..n - 1] == f.spots[..n - 1];
      LetterKind(n - 1);
    }
  }

  /** Every floor has 13 compact and 13 large spots, and nothing else. */
  lemma FloorKindCounts(f: Floor)
    requires f.WellFormed()
    ensures CountKind(f.spots, Compact) == 13 && CountKind(f.spots, Large) == 13
    ensures forall i :: 0 <= i < |f.spots| ==> f.spots[i].kind == Compact || f.spots[i].kind == Large
  {
    KindCountsOfPrefix(f, |f.spots|);
    assert f.spots[..|f.spots|] == f.spots;
  }

  /** On a floor with every spot free, a car gets spot B and a truck or bike gets spot A. */
  lemma EmptyFloorFirstFit(f: Floor)
    requires f.WellFormed()
    requires forall i :: 0 <= i < |f.spots| ==> !f.spots[i].occupied
    ensures FirstMatch(f.spots, Car) == Some(1)
    ensures FirstMatch(f.spots, Truck) == Some(0)
    ensures FirstMatch(f.spots, Bike) == Some(0)
  {
    LetterKind(0);
    LetterKind(1);
  }

  /** Once every compact spot of a floor is taken, no car is placed on it (bikes and trucks still may be). */
  lemma NoCarOnFullCompactFloor(f: Floor)
    requires f.WellFormed()
    requires forall i :: 0 <= i < |f.spots| && f.spots[i].kind == Compact ==> f.spots[i].occupied
    ensures FirstMatch(f.spots, Car) == None
  {
  }
}
