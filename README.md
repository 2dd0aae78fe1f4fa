# Infiniverse contract model

A Dafny model of the Infiniverse smart contract. The contract lets users register
rectangular lands on the globe and pay for them in INF tokens. Users place 3D assets
("persistents") from their poly catalog on their lands.

The contract keeps four keyed tables:

- **lands**, with a secondary index ordered by north edge (`bylatnorth`);
- **deposits**, one INF balance per user;
- **poly**, the catalog of imported poly assets, indexed by user (`byuser`);
- **persistents**, the placements, indexed by a 128-bit composite key (`byassetid`).

The model is split into modules:

- `Tables` (`tables.dfy`) holds the optional result type and the primary-key allocator
  `AvailablePrimaryKey`. It returns one more than the largest key, or 0 for an empty
  table, and refuses once the key reaches the autoincrement limit 2^64 - 2.
- `Lands` (`lands.dfy`) covers registration:
  - the coordinate checks and the four-way disjointness test;
  - the scan of the north-edge index (`LowerBound`, then `ScanClear`);
  - insertion into that index, kept sorted;
  - the area fee.
- `Placements` (`placements.dfy`) holds `assert_vectors_within_bounds` and the composite
  key. `(uint128) source << 64 | asset_id` is `source * 2^64 + asset_id`; the two casts
  that unpack it are `(key / 2^64) % 2^64` and `key % 2^64`.
- `Infiniverse` (`infiniverse.dfy`) holds the class `Contract` with the tables as map
  fields, the north-edge index as a sequence and a log of outbound INF transfers. Its
  methods are the actions. Each action either succeeds (`ok`) or changes nothing, as an
  aborted transaction does. `Contract.Valid()` is kept by every action:
  - the index lists the lands, sorted by north edge;
  - balances lie in [0, 2^62 - 1];
  - the catalog has at most one entry per user and poly id;
  - every placement stands on an existing land, within bounds, and a poly placement
    names an existing catalog entry.
- `Scenarios` (`scenarios.dfy`) are clients that use only the action contracts:
  - fund a deposit, register a land, place one poly asset twice and delete both
    placements (the shared catalog entry survives the first deletion only);
  - register a land, then show that a land inside it is refused and a land sharing its
    edge is accepted.

The model replaces the runtime as follows:

- The authority an action carries (`require_auth`) is the parameter `auth`.
- The block time `now()` is the parameter `now`.
- The metric size of a rectangle (`lat_long_to_meters`) is the contract's function
  `landSize`.
- The latitude margin `meters_to_lat_dist(100)` is the contract's constant `latMargin`.

## Model

| member | source | states |
|---|---|---|
| Tables.AvailablePrimaryKey | infiniverse/src/infiniverse.cpp:70 | a key is returned exactly when every existing key leaves room below the autoincrement limit; the key is fresh, above every existing key, and follows the largest one (0 for an empty table) |
| Lands.EdgesValid | infiniverse/src/infiniverse.cpp:15-22 | the coordinate checks of a registration: north above south, east above west, latitudes strictly inside (-85, 85), longitudes in (-180, 180] |
| Lands.WithinMaxLength | infiniverse/src/infiniverse.cpp:27 | both metric sides are at most 100 m |
| Lands.DisjointFrom | infiniverse/src/infiniverse.cpp:39-45 | the four-way test of the scan: the land lies entirely east, west, north or south of the rectangle, edges shared allowed |
| Lands.LowerBound | infiniverse/src/infiniverse.cpp:32-33 | the first index position whose land's north edge is at least the south edge; every earlier land lies strictly below |
| Lands.ScanClear | infiniverse/src/infiniverse.cpp:30-47 | the scan from the lower bound to `north + margin` succeeds exactly when every land whose north edge lies in [south, upper) passes the four-way disjointness test |
| Lands.DisjointIffNoOverlap | infiniverse/src/infiniverse.cpp:39-45 | the four-way test fails exactly when the land and the rectangle share an area of positive size |
| Lands.SharedEdgeIsNoOverlap | infiniverse/src/infiniverse.cpp:39-44 | two lands that only share an edge do not overlap |
| Lands.ScanIsComplete | infiniverse/src/infiniverse.cpp:32-37 | if no land is taller than the margin, a passing scan rules out every overlap, not only those with scanned lands |
| Lands.TallLandEscapesScan | infiniverse/src/infiniverse.cpp:33-37 | without that bound, a land taller than the margin overlaps a rectangle that passes the scan |
| Lands.RegistrationKeepsLandsDisjoint | infiniverse/src/infiniverse.cpp:32-47 | when no land spans more latitude than the margin, a registration that passes the scan keeps all lands pairwise non-overlapping |
| Lands.Round | infiniverse/src/infiniverse.cpp:53 | the result is the integer nearest the non-negative input, with halves rounded up |
| Lands.RegistrationFee | infiniverse/src/infiniverse.cpp:52-55 | the fee in minor units: the area with each side clamped to at least 1 m, times 10 INF per square metre, rounded, times 10000; its properties are stated by FeeBounds, FeeClampsSides and SmallLandFees |
| Lands.FeeBounds | infiniverse/src/infiniverse.cpp:49-55 | the fee is a whole number of INF, at least 10 INF, and at most 100000 INF for a land within 100 m per side |
| Lands.FeeClampsSides | infiniverse/src/infiniverse.cpp:49-52 | sides shorter than one metre are charged as one metre |
| Lands.SmallLandFees | infiniverse/src/infiniverse.cpp:52-55 | a 1 m x 1 m land and a 0.5 m x 0.5 m land both cost 10 INF |
| Lands.InsertionPoint | infiniverse/src/infiniverse.cpp:69 | the position in the north-edge index that follows every land whose north edge is at most the new land's and precedes every land lying further north |
| Lands.InsertAt | infiniverse/src/infiniverse.cpp:69 | the index with one id inserted at a position: earlier entries are kept, later ones shift by one |
| Lands.InsertKeepsIndexed | infiniverse/src/infiniverse.cpp:69-77 | inserting a new land at its insertion point keeps the index listing every land once, sorted by north edge |
| Placements.VectorsWithinBounds | infiniverse/src/infiniverse.cpp:218-231 | the position lies strictly inside the land's unit square on its surface (y = 0), every angle lies in [0, 360), and no axis is scaled below 0.2 |
| Placements.BoundsRejections | infiniverse/src/infiniverse.cpp:218-231 | a position off the surface, a scale below 0.2 or a rotation of 360 degrees fails the bounds check |
| Placements.Pack | infiniverse/src/infiniverse.cpp:86-90 | the packed key fits in 128 bits, and its source and asset id unpack to the packed values |
| Placements.SourceOf | infiniverse/src/infiniverse.cpp:132-133 | the source is a 64-bit value; for a 128-bit key it is the key's high half |
| Placements.AssetIdOf | infiniverse/src/infiniverse.cpp:144-145 | the asset id is a 64-bit value, congruent to the key modulo 2^64 |
| Placements.PackOfParts | infiniverse/src/infiniverse.cpp:90 | every 128-bit key is the packing of its unpacked source and asset id |
| Placements.KeysEqualIffPartsEqual | infiniverse/src/infiniverse.cpp:133-145 | two 128-bit keys are equal exactly when their sources and asset ids are equal |
| Infiniverse.RequireLandOwnerAuth | infiniverse/src/infiniverse.cpp:209-216 | yields the owner exactly when the land exists and its owner authorised the action |
| Infiniverse.FindPoly | infiniverse/src/infiniverse.cpp:239-250 | finds an id whose entry is this user's poly id, and finds none exactly when the catalog has no such entry |
| Infiniverse.HasPlacementWithKey | infiniverse/src/infiniverse.cpp:137-141 | true exactly when some remaining placement is stored under the composite key |
| Infiniverse.EvictionKeepsPlacementsValid | infiniverse/src/infiniverse.cpp:134-147 | evicting the catalog entry of a key that no placement uses leaves every poly placement pointing at an existing entry |
| Infiniverse.Contract.RegisterLand | infiniverse/src/infiniverse.cpp:10-78 | succeeds exactly when all of these hold: the owner authorised; the edges are valid; both sides are within 100 m; the scan passes; the deposit covers the fee; a key is available. On success it debits the fee, sends it to the token contract, and records the land under the next key, expiring one year from now. Otherwise nothing changes. Under the latitude-extent hypothesis the new land overlaps none and the lands stay pairwise disjoint |
| Infiniverse.Contract.ChargeAndEmplace | infiniverse/src/infiniverse.cpp:57-77 | debits the fee, logs the transfer to the token contract, and adds the land to the table and to the sorted index |
| Infiniverse.Contract.AddPoly | infiniverse/src/infiniverse.cpp:233-258 | succeeds exactly when the user authorised, the poly id is 11 bytes long, and an entry exists or a key is available. It returns the existing entry unchanged, or adds the entry under the next key |
| Infiniverse.Contract.PersistPoly | infiniverse/src/infiniverse.cpp:80-101 | succeeds exactly when the land exists, its owner authorised, the vectors are in bounds, the catalog step succeeds and a placement key is available. On success one placement is added under the next key, with the POLY source packed with the catalog id. The catalog gains at most this one entry. Otherwise nothing changes |
| Infiniverse.Contract.UpdatePersis | infiniverse/src/infiniverse.cpp:103-121 | succeeds exactly when the placement exists, its land's owner authorised, the owner of a different new land authorised too, and the vectors are in bounds. Only the placement's land and geometry change; its key is kept |
| Infiniverse.Contract.DeletePersis | infiniverse/src/infiniverse.cpp:123-150 | succeeds exactly when the placement exists and its land's owner authorised. The placement is removed. Its catalog entry is evicted exactly when its source is POLY and no remaining placement has its key |
| Infiniverse.Contract.OpenDeposit | infiniverse/src/infiniverse.cpp:152-164 | succeeds exactly when the owner authorised; opens a zero balance only if none is open |
| Infiniverse.Contract.CloseDeposit | infiniverse/src/infiniverse.cpp:166-179 | succeeds exactly when the owner authorised and has a deposit. The deposit is removed, and a transfer of the balance to the owner is logged only when the balance is positive |
| Infiniverse.Contract.DepositInf | infiniverse/src/infiniverse.cpp:181-198 | ignores transfers sent by the contract or not sent to it. Otherwise it succeeds exactly when the quantity is INF, valid and positive, the sender has a deposit, and the new balance stays within 2^62 - 1. Only that balance grows |

## Left out

- `lat_long_to_meters` and `meters_to_lat_dist`: `lat_long_functions.cpp` is not part of this model. The metric size is the contract's function `landSize`, and the scan margin is the constant `latMargin`.
- Lands.ScanIsComplete: the scan is proved to find every overlap only when no registered land spans more latitude than `latMargin`. This holds if `landSize` and `meters_to_lat_dist` are consistent, which the model cannot see.
- `require_auth` is modelled as membership in the `auth` set. Permissions and the `eosio.code` permission are not modelled.
- `transfer_inf` and the inline token `transfer` action are a log of `Transfer` records. The token contract's own checks are not modelled.
- The `apply` dispatcher is not modelled. Each action is a method, and `depositinf` is called with the transfer's arguments.
- RAM payers (`owner`, `user`, `same_payer`) and the error messages of `eosio_assert` are not modelled. An aborted action is `ok == false` with nothing changed.
- `now()` is the parameter `now`. The 32-bit `time_point_sec` wrap-around of `now() + seconds_in_one_year` is not modelled.
- Coordinates, vectors and sizes are exact reals, not IEEE doubles. For example, 0.2 is exact and the rounding of `round` is on reals.
- The numeric value of `PlacementSource::POLY` is defined in `infiniverse.hpp`, which is not part of this model. It is the constant `PolySource`, and no proof depends on its value.
- The iteration order of the `byuser` and `byassetid` indexes is not modelled; the lookups walk a set. Catalog uniqueness makes the result independent of the order.
- Lands with equal north edges may appear in either order in the north-edge index.
- `get_land_id_from_persistent` (lines 201-207) is part of the `ok` condition of `UpdatePersis` and `DeletePersis` ("the placement exists"), not a separate member.
- Poly ids are byte sequences, the bytes of the `std::string`, so their length is the byte count that `length()` returns. Account names are strings and are compared by equality only.
- Symbols are compared by code and precision only. `is_valid` and the `+=` overflow limit of `asset` come from the asset type, which is not part of this model; they are modelled as the range [-(2^62 - 1), 2^62 - 1].
