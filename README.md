# Parking lot

A model of a single-process parking-lot simulator (`Main.cpp`). The lot has
numbered floors. Each floor holds 26 spots named `"<floor>A"` .. `"<floor>Z"`,
and kinds alternate with the letter: an even character code gives a compact
spot, an odd one a large spot.

- **Park.** Parking a vehicle scans the floors in order and takes the first
  free spot on the first floor that has one the vehicle fits. A car fits a
  compact spot, a truck a large one, and a bike any spot. The vehicle
  occupies that spot, and a ticket `"T<n>"` is filed under its id. `n` comes
  from a counter that is advanced before use.
- **Unpark.** Unparking a ticket id frees its spot, drops the ticket and
  returns 10 per whole hour elapsed since entry, truncated. An unknown id
  returns -1 and changes nothing.

The model follows the program's own structure:

- `Spots.ParkingSpot` and `Lot.ParkingLot` are classes whose fields are
  updated in place. `Floors.Floor` is a class built once: its number and its
  spots never change, and only the occupancy of those spots does.
- Vehicles and tickets are immutable values. They are modelled as datatypes.
- Ticket ids and spot ids are built from a decimal rendering of integers
  (`Decimal`). Their uniqueness rests on the round trip
  `DigitsValue(NatToString(n)) == n`.
- The lot keeps an invariant, `ParkingLot.Valid`. It says:
  - a spot of the lot is occupied exactly when a ticket holds it, and it then
    holds that ticket's vehicle;
  - every ticket is filed under its own id;
  - no two tickets share a spot;
  - no id the counter has yet to issue is in use.
- Park and unpark are proved to keep this invariant. Their postconditions
  state the whole new state:
  - park takes exactly the spot chosen by the first-fit search `FirstFloorMatch`;
  - the ticket map gains or loses exactly one entry;
  - every other spot is unchanged.

The clock is not read: park and unpark take the current time as an integer
number of seconds. `main`'s walk-through becomes the methods of `Scenarios`.

Three behaviours of the code are worth stating outright:

- **Bikes.** A bike fits a free spot of any kind, including the handicapped
  and electric kinds, which no floor ever creates. `Kinds.Fits` is written
  that way.
- **Negative durations.** A chrono duration cast truncates toward zero, so a
  negative elapsed time (`now` before entry) rounds toward zero, not down.
  `Fees.WholeHours` models the truncation.
- **Repeated floor initialisation.** `initializeFloors` appends. Calling it
  twice gives two floors numbered 1, whose spot ids coincide. The lot
  invariant does not exclude this.

## Model

| member | source | states |
|---|---|---|
| Decimal.NatToString | Main.cpp:120 | the rendering of a natural number is a non-empty string of decimal digits, a single digit exactly below 10, and without a leading zero unless the number is 0 |
| Decimal.IntToString | Main.cpp:55 | the rendering of an int ends in a digit; it starts with a digit exactly when the int is non-negative, and a negative int is rendered as '-' followed by its magnitude's digits |
| Decimal.DigitsValueOfNatToString | Main.cpp:120 | reading back the decimal digits of n gives n: the rendering loses nothing |
| Decimal.NatToStringInjective | Main.cpp:120 | distinct counter values render as distinct digit strings |
| Decimal.IntToStringInjective | Main.cpp:55 | distinct floor numbers, negative ones included, render as distinct strings |
| Spots.ParkingSpot.constructor | Main.cpp:26-27 | a new spot has the given id and kind and is free, holding no vehicle |
| Spots.ParkingSpot.IsAvailable | Main.cpp:29 | a spot is available exactly when it holds no vehicle |
| Spots.ParkingSpot.AssignVehicle | Main.cpp:30-33 | afterwards the spot is occupied and holds exactly the given vehicle |
| Spots.ParkingSpot.RemoveVehicle | Main.cpp:34-37 | afterwards the spot is free and holds no vehicle |
| Floors.SpotId | Main.cpp:55 | a spot id has at least two characters and ends with the spot's letter (SpotIdInjective states that it determines floor and letter) |
| Floors.KindOfLetter | Main.cpp:57 | a letter yields a compact or a large spot, never another kind, and compact exactly when its character code is even |
| Floors.SpotIdInjective | Main.cpp:55 | a spot id determines both its floor number and its letter |
| Floors.LetterKind | Main.cpp:57 | kinds alternate along the letters: 'A' large, 'B' compact, and so on |
| Kinds.Fits | Main.cpp:76-78 | a car fits exactly the compact spots, a truck exactly the large ones, a bike fits every spot, and a handicapped or electric spot is fitted by a bike alone |
| Floors.Floor.constructor | Main.cpp:52-60 | the floor has the given number and 26 new, free spots whose ids are "<number>A" .. "<number>Z" in order and whose kind follows the letter's parity |
| Floors.FirstMatch | Main.cpp:73-84 | the index found holds a free spot the vehicle kind fits and no earlier spot does; None means no spot on the floor does |
| Floors.Floor.FindAvailableSpot | Main.cpp:73-84 | returns the spot at the first-fit index, or null exactly when no free spot fits |
| Floors.FloorIdsDistinct | Main.cpp:54-55 | the 26 spot ids of a floor are pairwise distinct, so its spots are distinct objects |
| Floors.FloorIdsDisjoint | Main.cpp:55 | floors with different numbers share no spot id |
| Floors.KindCountsOfPrefix | Main.cpp:54-57 | the first n spots of a floor hold n/2 compact and (n+1)/2 large spots |
| Floors.FloorKindCounts | Main.cpp:54-59 | every floor has 13 compact and 13 large spots and no spot of another kind |
| Floors.EmptyFloorFirstFit | Main.cpp:73-84 | on an empty floor a car gets spot B, and a truck or a bike gets spot A |
| Floors.NoCarOnFullCompactFloor | Main.cpp:76 | once all compact spots of a floor are taken, no car is placed on it |
| Tickets.TicketId | Main.cpp:118-121 | a ticket id is 'T' followed by decimal digits |
| Tickets.TicketIdInjective | Main.cpp:118-121 | different counter values give different ticket ids |
| Tickets.LaterIdsDiffer | Main.cpp:118-121 | every id issued after counter value n differs from the id issued at n |
| Fees.WholeHours | Main.cpp:163-164 | whole hours in a duration, truncated toward zero: h*3600 <= d < (h+1)*3600 for d >= 0, and symmetrically below zero |
| Fees.Fee | Main.cpp:163-165 | a fee is a multiple of 10, non-negative when now is not before entry, and zero for any stay shorter than an hour |
| Fees.FeeOfWholeHours | Main.cpp:163-165 | h whole hours plus less than another hour cost exactly 10*h |
| Fees.FeeMonotone | Main.cpp:163-165 | staying longer never costs less |
| Fees.FeeIsNeverNotFound | Main.cpp:157-165 | no computed fee equals the -1 returned for an unknown ticket |
| Lot.ParkingLot.constructor | Main.cpp:172-174 | a new lot has no floors, no tickets, counter 0, and satisfies the lot invariant |
| Lot.ParkingLot.TicketSpotsDistinct | Main.cpp:143-169 | under the lot invariant every ticket's spot is an occupied spot of the lot, and no two tickets hold the same spot |
| Lot.ParkingLot.FirstFloorMatch | Main.cpp:144-146 | the chosen floor has a first-fit spot at the chosen index and every earlier floor has none; None means no floor has one |
| Lot.ParkingLot.FirstFloorMatchAt | Main.cpp:144-146 | conversely, a floor with a match after floors without one is the floor chosen |
| Lot.ParkingLot.InitializeFloors | Main.cpp:131-135 | appends max(n,0) floors numbered 1..n, each with new free spots, keeps the earlier floors, tickets and counter, and keeps the lot invariant |
| Lot.ParkingLot.GenerateId | Main.cpp:118-121 | the counter is advanced by one and the id is that of the new counter value |
| Lot.ParkingLot.FindSpotForPark | Main.cpp:144-153 | the floor scan returns the spot chosen by FirstFloorMatch, or null when no floor has a free spot the kind fits |
| Lot.ParkingLot.IssueTicket | Main.cpp:147-150 | the spot becomes occupied by the vehicle, and a ticket under a previously unused id is added to the map with nothing else changed |
| Lot.ParkingLot.IssueKeepsValid | Main.cpp:147-150 | occupying a free spot and filing a fresh ticket for it keeps the lot invariant |
| Lot.ParkingLot.ParkVehicle | Main.cpp:143-154 | with no fitting free spot, None is returned and nothing changes; otherwise the first-fit spot is occupied by the vehicle, a ticket under a fresh id is added, every other spot is unchanged, and the invariant is kept |
| Lot.ParkingLot.UnparkVehicle | Main.cpp:156-169 | an unknown id returns -1 and changes nothing; a known one frees exactly its spot, removes exactly that ticket and returns the fee for the stay, keeping the invariant |
| Lot.ParkingLot.CarOverflowsToNextFloor | Main.cpp:143-154 | when floor 1's compact spots are full and floor 2 is empty, the next car goes to floor 2, spot B |
| Scenarios.NewLot | Main.cpp:178-181 | three fresh floors and no tickets, on which a car is placed on floor 1, spot B |
| Scenarios.FirstIds | Main.cpp:188-193 | spot B of floor 1 is named "1B" and the first ticket "T1" |
| Scenarios.FirstCarGetsSpot1B | Main.cpp:188-193 | the walk-through's car is parked at spot "1B" with ticket "T1" |
| Scenarios.ParkThenUnparkTwice | Main.cpp:199-201 | unparking within the hour costs 0, and presenting the same ticket again returns -1 |
| Scenarios.UnknownTicketNotFound | Main.cpp:156-157 | an id never issued returns -1 and leaves the ticket map empty |

## Left out

- `displayAvailableSpots`, `displayAllAvailableSpots`, `spotTypeToString` and the console output of `main`: they only print.
- The system clock is not modelled. Park takes the entry time and unpark the current time as integer seconds.
- Fees are modelled as `int`. The source returns a `double`, but every value it can hold here is an integer (a multiple of 10, or -1).
- `shared_ptr` ownership and the `getInstance` singleton are not modelled. A lot is an ordinary object made by its constructor, and the ticket counter, a function-local static in the source, is a field of the lot. With the singleton there is only one lot, so the two agree.
- Vehicles and tickets have no setters in the source, so they are immutable values here. A ticket refers to its spot object, as the source's pointer does.
- The license plate is carried but never inspected, as in the source.
- Lot.ParkingLot.GenerateId: does not model overflow of the source's 32-bit `int` counter after 2^31 - 1 tickets. The model's counter is unbounded.
- Floors.Floor.constructor: the floor number is an unbounded integer. Overflow of the source's `int` is not modelled.
- The park loop is modelled in two parts, which `ParkVehicle` composes in the source's order. `FindSpotForPark` is the floor scan. `IssueTicket` covers the assignment and the ticket: the vehicle is assigned to the spot before the ticket is made.
