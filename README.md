# Multi-vehicle storage search: the packing engine

This project models the packing engine of a storage-listing search. A
location owns rectangular listings (id, length, width, price). A query asks
for a number of vehicles of given lengths. The engine decides which sets of a
location's listings can hold all the vehicles.

- **Slot generation.** A listing is cut into parallel lanes 10 units wide.
  In the "width" orientation it has `width // 10` lanes, each as long as the
  listing's length. In the "length" orientation it has `length // 10` lanes,
  each as long as its width. Each lane is a *slot*: a pair of the owning
  listing's id and a remaining capacity. A location's slot list holds the
  lanes of all its listings, listing after listing.
- **First-fit packing.** Vehicles are taken in the given order. Each one goes
  into the first slot whose remaining capacity is at least its length, and
  that slot's capacity drops by the length. The owner joins the used-set. The
  first vehicle that fits nowhere ends the run with no result.
- **Search.** For each orientation and each vehicle ordering, the packer runs
  on a fresh copy of the slot list. Every non-empty used-set is collected
  into a set of sets.
- **Query expansion.** `{length, quantity}` items become a flat list of
  vehicle lengths.

Files (one module each):

- `runs.dfy` (`Runs`): expanding `(value, count)` runs into
  "`count` copies of each value, run after run". The slot list and the
  vehicle list are both built this way.
- `slot_generation.dfy` (`SlotGeneration`): the data types, the
  specification `SlotsFor`, the builder method `BuildSlots`, and the layout
  lemmas.
- `packing.dfy` (`Packing`): `FirstFit`, the run specification
  `PackFrom`/`Pack`, the in-place packer `FitOrder` over an
  `array<Slot>` (its inner scan over the slots is the method
  `ParkFirstFit`), and the lemmas about runs.
- `combinations.dfy` (`Combinations`): the search method `FitListings`, its
  specification `Combinations`, and soundness/completeness.
- `vehicle_query.dfy` (`VehicleQuery`): `ParseVehicleQuery` and its
  specification `Vehicles`.

Each method has a specification function, and its `ensures` ties its result
or the new array contents to that function. For example,
`slots[..] == Pack(order, old(slots[..])).after`. The lemmas then prove what
the source promises about those functions.

Slot capacities are `int`, as in Python. This makes "a capacity never goes
negative" a proved fact and not a typing artefact. Listing dimensions and
vehicle lengths are `nat`. A demand quantity is an `int`: `range(q)` yields
nothing when `q <= 0`, and `Copies` models that.

## Model

| member | source | states |
|---|---|---|
| `Runs.Repeat` | findListings.py:52 | `[x] * n` is a list of exactly `n` elements, each equal to `x` |
| `SlotGeneration.BuildSlots` | findListings.py:47-55 | the slot list built by the extend loop is exactly `SlotsFor(listings, orientation)`: each listing's lanes, in listing order |
| `SlotGeneration.SlotsForSplit` | findListings.py:49-55 | listing `p` contributes exactly `width // 10` slots of capacity `length` ("width") or `length // 10` slots of capacity `width` ("length"), all owned by it; they come after every earlier listing's slots and before every later one's |
| `SlotGeneration.SlotsForLength` | findListings.py:49-55 | the slot list's length is the sum of the per-listing lane counts |
| `SlotGeneration.SlotsForOrigin` | findListings.py:49-55 | every slot is owned by one of the listings, carries that listing's lane length, and has non-negative capacity |
| `Packing.FirstFit` | findListings.py:35-36 | returns the lowest index whose capacity is at least the vehicle length; returns None exactly when no slot admits it |
| `Packing.ParkFirstFit` | findListings.py:35-40 | the inner scan parks the vehicle in the slot `FirstFit` picks and lowers only that slot, by exactly the vehicle length. It reports that slot's owner, or reports that nothing was updated and leaves the array unchanged |
| `Packing.FitOrder` | findListings.py:31-43 | the in-place packer leaves the array as the run `Pack` leaves it, also after a failure. It returns the used-set exactly when every vehicle was placed, and None otherwise |
| `Packing.PackStep` | findListings.py:35-40 | after the first `m` vehicles, vehicle `m` goes into the first admitting slot. That slot loses exactly the vehicle length, every other slot is unchanged, and the slot's owner joins the used-set |
| `Packing.PackShape` | findListings.py:36-37 | a run keeps the list length and every slot's owner, never raises a capacity, and never takes a non-negative capacity below zero |
| `Packing.PackFailsIff` | findListings.py:41-42 | the run fails exactly when some vehicle finds no admitting slot after the vehicles before it are placed. It fails at that first such vehicle and leaves the list as those earlier vehicles left it |
| `Packing.PackIgnoresLaterVehicles` | findListings.py:41-42 | after a failure, replacing the vehicles beyond the failing one by anything at all gives the same outcome |
| `Packing.PackSucceeds` | findListings.py:32-43 | on success: total capacity drops by exactly the sum of the vehicle lengths. The used-set contains every owner whose slot lost capacity, and contains only owners of slots in the list. It is empty exactly when there are no vehicles. When all lengths are positive, it is exactly the owners of the slots that lost capacity |
| `Packing.PackFailsConserves` | findListings.py:37-42 | on failure: total capacity dropped by exactly the sum of the vehicles before the failing one |
| `Packing.OrderSensitive` | findListings.py:33-42 | for the same slots, vehicles 10 then 30 fail and 30 then 10 pack; first fit depends on the order |
| `Combinations.FitListings` | findListings.py:45-61 | the search returns exactly `Combinations(listings, orderings)`: over both orientations and all orderings, the non-empty used-sets of the runs that pack, each run on a fresh copy of the slot list |
| `Combinations.CombinationsIff` | findListings.py:57-60 | a set is recorded exactly when, in some orientation, some ordering packs completely into the location's slot list with that set as its non-empty used-set |
| `Combinations.CombinationsWithinListings` | findListings.py:57-60 | every recorded combination is a non-empty set of ids of the location's own listings |
| `Combinations.PackedOrderingRecorded` | findListings.py:58-60 | an ordering that packs completely has its used-set recorded exactly when the ordering is not empty |
| `Combinations.SearchCapacitiesNonNegative` | findListings.py:58 | no run over a location's slot list leaves a negative capacity |
| `Combinations.OneListingExample` | findListings.py:45-61 | one 40 x 20 listing with vehicles 10 and 20 packs in both orientations and is the only combination recorded |
| `VehicleQuery.ParseVehicleQuery` | findListings.py:24-29 | the extend loop returns exactly `Vehicles(items)` |
| `VehicleQuery.VehiclesLength` | test_findListings.py:98 | the expanded list's length is the sum of the quantities, counting a quantity of zero or below as 0 |
| `VehicleQuery.VehiclesSplit` | findListings.py:26-28 | item `p` contributes its length repeated `quantity` times, after the earlier items' vehicles and before the later ones' |
| `VehicleQuery.ThreeItemQuery` | test_findListings.py:86-96 | the query 10 x 1, 20 x 2, 25 x 1 expands to `[10, 20, 20, 25]` |

## Left out

- Loading listings from a JSON file and grouping them by location (`load_locations`, findListings.py:7-21): file I/O and JSON decoding. The model takes a location's listings as a sequence.
- `findListings` (findListings.py:63-101): it only loads the file and returns nothing. The rest of it is commented-out pseudocode. The dead string block at findListings.py:103-116 is not modelled either.
- Enumerating listing subsets, summing prices, and choosing the cheapest combination per location: the source does not implement these stages. The slot list is always built from all of a location's listings, and `priceInCents` is carried but never used.
- The HTTP endpoint and request models in main.py: a transport layer over a foreign library. `parse_vehicle_queries` only copies fields.
- The module-level default path `listings_path` and the unused `itertools` import.
- Python `//` on negative dimensions and negative vehicle lengths: dimensions and lengths are `nat`.
- Dynamic typing: a listing is a record with fixed fields and an orientation is one of two values, so the source's `elif` on the orientation string never falls through.
