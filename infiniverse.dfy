/**
 * The infiniverse contract: four keyed tables (lands, deposits, the poly
 * catalog and the persistent placements) and the actions that change them.
 *
 * Each action either succeeds or is discarded as a whole: a method that
 * returns `ok == false` leaves every field as it was. Authorisation is the
 * set `auth` of accounts whose authority the action carries. Transfers of
 * INF sent to the token contract are appended to `transfers`.
 */
module Infiniverse {
  import opened Tables
  import opened Lands
  import opened Placements

  /** The token contract, which also receives the registration fees. */
  const InfAccount: Name := "infinicoinio"

  datatype Symbol = Symbol(code: string, precision: nat)

  const InfSymbol: Symbol := Symbol("INF", 4)

  /** The largest amount an asset may hold, 2^62 - 1. */
  const MaxAmount: int := 0x3FFF_FFFF_FFFF_FFFF

  datatype Asset = Asset(amount: int, symbol: Symbol)

  /** The amount of an asset is within the range an asset may hold. */
  predicate AmountInRange(q: Asset)
  {
    -MaxAmount <= q.amount <= MaxAmount
  }

  /** An outbound `transfer` action of the token contract. */
  datatype Transfer = Transfer(from: Name, to: Name, quantity: Asset, memo: string)

  /** The bytes of a `std::string`; its `length()` is the number of bytes. */
  type Bytes = seq<bv8>

  /** A row of the poly catalog: an asset imported by `user` under the external id `polyId`. */
  datatype PolyEntry = PolyEntry(user: Name, polyId: Bytes)

  const PolyIdLength: nat := 11

  /** A row of the persistent table: an asset placed on a land. */
  datatype Persistent = Persistent(landId: nat, sourceAndAssetId: nat, position: Vector3, orientation: Vector3, scale: Vector3)

  /** At most one catalog entry per (user, poly id). */
  ghost predicate CatalogUnique(poly: map<nat, PolyEntry>)
  {
    forall a, b :: a in poly && b in poly && poly[a] == poly[b] ==> a == b
  }

  ghost predicate HasEntry(poly: map<nat, PolyEntry>, user: Name, polyId: Bytes)
  {
    exists id :: id in poly && poly[id] == PolyEntry(user, polyId)
  }

  ghost predicate CatalogValid(poly: map<nat, PolyEntry>)
  {
    && CatalogUnique(poly)
    && forall id :: id in poly ==> id < Two64 && |poly[id].polyId| == PolyIdLength
  }

  /** A placement stands on an existing land, within bounds, and when it comes from the
      poly catalog its asset id names an existing catalog entry. */
  ghost predicate PlacementValid(p: Persistent, lands: map<nat, Land>, poly: map<nat, PolyEntry>)
  {
    && p.landId in lands
    && p.sourceAndAssetId < Two128
    && VectorsWithinBounds(p.position, p.orientation, p.scale)
    && (SourceOf(p.sourceAndAssetId) == PolySource ==> AssetIdOf(p.sourceAndAssetId) in poly)
  }

  ghost predicate PlacementsValid(persistents: map<nat, Persistent>, lands: map<nat, Land>, poly: map<nat, PolyEntry>)
  {
    forall id :: id in persistents ==> PlacementValid(persistents[id], lands, poly)
  }

  /** Evicting the catalog entry of a composite key that no placement uses any more
      leaves every catalog-sourced placement pointing at an existing entry. */
  lemma {:induction false} EvictionKeepsPlacementsValid(
    persistents: map<nat, Persistent>, lands: map<nat, Land>, poly: map<nat, PolyEntry>, key: nat)
    requires PlacementsValid(persistents, lands, poly)
    requires key < Two128 && SourceOf(key) == PolySource
    requires forall id :: id in persistents ==> persistents[id].sourceAndAssetId != key
    ensures PlacementsValid(persistents, lands, poly - {AssetIdOf(key)})
  {
    forall id | id in persistents
      ensures PlacementValid(persistents[id], lands, poly - {AssetIdOf(key)})
    {
      KeysEqualIffPartsEqual(persistents[id].sourceAndAssetId, key);
    }
  }

  /** `require_land_owner_auth`: the owner of the land, when the land exists and
      its owner authorised the action. */
  function RequireLandOwnerAuth(lands: map<nat, Land>, landId: nat, auth: set<Name>): (owner: Option<Name>)
    ensures owner.Some? ==> owner.value in auth && landId in lands && lands[landId].owner == owner.value
    ensures owner.None? ==> landId !in lands || lands[landId].owner !in auth
  {
    if landId in lands && lands[landId].owner in auth then Some(lands[landId].owner) else None
  }

  /** The lookup of `add_poly`: walks the user's bucket of the catalog (the `byuser`
      index) for an entry with the given poly id. */
  method FindPoly(poly: map<nat, PolyEntry>, user: Name, polyId: Bytes) returns (found: Option<nat>)
    ensures found.Some? ==> found.value in poly && poly[found.value] == PolyEntry(user, polyId)
    ensures found.None? <==> !HasEntry(poly, user, polyId)
  {
    var bucket := set id | id in poly && poly[id].user == user;
    while bucket != {}
      invariant bucket <= poly.Keys
      invariant forall id :: id in poly && id !in bucket && poly[id].user == user ==> poly[id].polyId != polyId
      decreases bucket
    {
      var id :| id in bucket;
      if poly[id].polyId == polyId {
        return Some(id);
      }
      bucket := bucket - {id};
    }
    return None;
  }

  /** The lookup of `deletepersis` in the `byassetid` index: is some placement stored
      under this composite key? */
  method HasPlacementWithKey(persistents: map<nat, Persistent>, key: nat) returns (found: bool)
    ensures found <==> exists id :: id in persistents && persistents[id].sourceAndAssetId == key
  {
    var rest := persistents.Keys;
    while rest != {}
      invariant rest <= persistents.Keys
      invariant forall id :: id in persistents && id !in rest ==> persistents[id].sourceAndAssetId != key
      decreases rest
    {
      var id :| id in rest;
      if persistents[id].sourceAndAssetId == key {
        return true;
      }
      rest := rest - {id};
    }
    return false;
  }

  class Contract {
    /** The contract's own account. */
    const account: Name
    /** `lat_long_to_meters`: the metric side lengths of a rectangle given by its
        north, south, east and west edges. */
    const landSize: (real, real, real, real) -> (real, real)
    /** `meters_to_lat_dist(max_land_length)`: the latitude span of the maximum land length. */
    const latMargin: real

    var lands: map<nat, Land>
    /** The `bylatnorth` index of the land table. */
    var byLatNorth: seq<nat>
    /** Balance of each open deposit, in minor units of INF. */
    var deposits: map<Name, int>
    var poly: map<nat, PolyEntry>
    var persistents: map<nat, Persistent>
    var transfers: seq<Transfer>

    ghost predicate Valid()
      reads this
    {
      && latMargin >= 0.0
      && IndexedByNorth(byLatNorth, lands)
      && (forall owner :: owner in deposits ==> 0 <= deposits[owner] <= MaxAmount)
      && CatalogValid(poly)
      && PlacementsValid(persistents, lands, poly)
    }

    constructor (account: Name, landSize: (real, real, real, real) -> (real, real), latMargin: real)
      requires latMargin >= 0.0
      ensures Valid()
      ensures this.account == account && this.latMargin == latMargin
      ensures forall n, s, e, w :: this.landSize(n, s, e, w) == landSize(n, s, e, w)
      ensures lands == map[] && byLatNorth == [] && deposits == map[]
      ensures poly == map[] && persistents == map[] && transfers == []
    {
      this.account := account;
      this.landSize := landSize;
      this.latMargin := latMargin;
      lands, byLatNorth, deposits := map[], [], map[];
      poly, persistents, transfers := map[], map[], [];
    }

    /** `registerland`: checks the rectangle, scans the lands that could intersect it,
        charges the area fee from the owner's deposit, sends the fee to the token
        contract and records the land for one year. */
    method RegisterLand(owner: Name, north: real, east: real, south: real, west: real, now: nat, auth: set<Name>)
      returns (ok: bool)
      requires Valid()
      modifies this
      ensures Valid()
      ensures ok <==>
        && owner in auth
        && EdgesValid(north, east, south, west)
        && WithinMaxLength(landSize(north, south, east, west))
        && ScanPasses(old(lands), north, east, south, west, north + latMargin)
        && owner in old(deposits)
        && old(deposits)[owner] >= RegistrationFee(landSize(north, south, east, west))
        && KeyAvailable(old(lands).Keys)
      ensures ok ==>
        var fee := RegistrationFee(landSize(north, south, east, west));
        && deposits == old(deposits)[owner := old(deposits)[owner] - fee]
        && transfers == old(transfers) + [Transfer(account, InfAccount, Asset(fee, InfSymbol), "")]
        && exists id: nat ::
             && NextKey(old(lands).Keys, id)
             && lands == old(lands)[id := Land(owner, north, east, south, west, now + SecondsInOneYear)]
      ensures !ok ==>
        lands == old(lands) && byLatNorth == old(byLatNorth) && deposits == old(deposits) && transfers == old(transfers)
      ensures poly == old(poly) && persistents == old(persistents)
      ensures ok && LatExtentsAtMost(old(lands), latMargin) ==>
        forall id :: id in old(lands) ==> !Overlaps(old(lands)[id], north, east, south, west)
      ensures ok && LatExtentsAtMost(old(lands), latMargin) && LandsDisjoint(old(lands)) ==>
        LandsDisjoint(lands)
    {
      ok := false;
      if owner !in auth || !EdgesValid(north, east, south, west) {
        return;
      }
      var size := landSize(north, south, east, west);
      if !WithinMaxLength(size) {
        return;
      }
      var upper := north + latMargin;
      var clear := ScanClear(byLatNorth, lands, north, east, south, west, upper);
      if !clear {
        return;
      }
      var fee := RegistrationFee(size);
      if owner !in deposits || deposits[owner] < fee {
        return;
      }
      var id := AvailablePrimaryKey(lands);
      if id.None? {
        return;
      }
      FeeBounds(size);
      var land := Land(owner, north, east, south, west, now + SecondsInOneYear);
      ghost var before := lands;
      ChargeAndEmplace(owner, fee, id.value, land);
      ok := true;
      if LatExtentsAtMost(before, latMargin) {
        ScanIsComplete(before, north, east, south, west, latMargin);
        if LandsDisjoint(before) {
          RegistrationKeepsLandsDisjoint(before, id.value, land, latMargin);
        }
      }
    }

    /** The tail of `registerland`: debits the fee from the owner's deposit, sends it to
        the token contract and stores the land under `id`, keeping the index in order. */
    method ChargeAndEmplace(owner: Name, fee: int, id: nat, land: Land)
      requires Valid()
      requires owner in deposits && 0 <= fee <= deposits[owner]
      requires id !in lands
      modifies this
      ensures Valid()
      ensures deposits == old(deposits)[owner := old(deposits)[owner] - fee]
      ensures transfers == old(transfers) + [Transfer(account, InfAccount, Asset(fee, InfSymbol), "")]
      ensures lands == old(lands)[id := land]
      ensures poly == old(poly) && persistents == old(persistents)
    {
      deposits := deposits[owner := deposits[owner] - fee];
      transfers := transfers + [Transfer(account, InfAccount, Asset(fee, InfSymbol), "")];
      var p := InsertionPoint(byLatNorth, lands, land.north);
      InsertKeepsIndexed(byLatNorth, lands, p, id, land);
      byLatNorth := InsertAt(byLatNorth, p, id);
      lands := lands[id := land];
    }

    /** `add_poly`: the id of the user's catalog entry for `polyId`, created when the
        user has none. */
    method AddPoly(user: Name, polyId: Bytes, auth: set<Name>) returns (assetId: Option<nat>)
      requires Valid()
      modifies this
      ensures Valid()
      ensures assetId.Some? <==>
        && user in auth
        && |polyId| == PolyIdLength
        && (HasEntry(old(poly), user, polyId) || KeyAvailable(old(poly).Keys))
      ensures assetId.Some? ==> assetId.value in poly && poly[assetId.value] == PolyEntry(user, polyId)
      ensures assetId.Some? && HasEntry(old(poly), user, polyId) ==> poly == old(poly)
      ensures assetId.Some? && !HasEntry(old(poly), user, polyId) ==>
        && NextKey(old(poly).Keys, assetId.value)
        && poly == old(poly)[assetId.value := PolyEntry(user, polyId)]
      ensures assetId.None? ==> poly == old(poly)
      ensures lands == old(lands) && byLatNorth == old(byLatNorth) && deposits == old(deposits)
      ensures persistents == old(persistents) && transfers == old(transfers)
    {
      if user !in auth || |polyId| != PolyIdLength {
        return None;
      }
      var found := FindPoly(poly, user, polyId);
      if found.Some? {
        return found;
      }
      var newId := AvailablePrimaryKey(poly);
      if newId.None? {
        return None;
      }
      poly := poly[newId.value := PolyEntry(user, polyId)];
      return newId;
    }

    /** `persistpoly`: places the land owner's catalog asset `polyId` on the land. */
    method PersistPoly(landId: nat, polyId: Bytes, position: Vector3, orientation: Vector3, scale: Vector3, auth: set<Name>)
      returns (ok: bool)
      requires Valid()
      modifies this
      ensures Valid()
      ensures ok <==>
        && landId in old(lands)
        && old(lands)[landId].owner in auth
        && VectorsWithinBounds(position, orientation, scale)
        && |polyId| == PolyIdLength
        && (HasEntry(old(poly), old(lands)[landId].owner, polyId) || KeyAvailable(old(poly).Keys))
        && KeyAvailable(old(persistents).Keys)
      ensures ok ==>
        var user := old(lands)[landId].owner;
        exists id: nat, assetId: nat ::
          && NextKey(old(persistents).Keys, id)
          && assetId < Two64
          && assetId in poly && poly[assetId] == PolyEntry(user, polyId)
          && persistents == old(persistents)[id := Persistent(landId, Pack(PolySource, assetId), position, orientation, scale)]
      ensures ok && HasEntry(old(poly), old(lands)[landId].owner, polyId) ==> poly == old(poly)
      ensures ok && !HasEntry(old(poly), old(lands)[landId].owner, polyId) ==>
        exists assetId: nat :: NextKey(old(poly).Keys, assetId) && poly == old(poly)[assetId := PolyEntry(old(lands)[landId].owner, polyId)]
      ensures !ok ==> poly == old(poly) && persistents == old(persistents)
      ensures lands == old(lands) && byLatNorth == old(byLatNorth) && deposits == old(deposits) && transfers == old(transfers)
    {
      ok := false;
      var owner := RequireLandOwnerAuth(lands, landId, auth);
      if owner.None? || !VectorsWithinBounds(position, orientation, scale) {
        return;
      }
      var user := owner.value;
      var source := PolySource;
      var savedPoly := poly;
      var assetId := AddPoly(user, polyId, auth);
      if assetId.None? {
        return;
      }
      var id := AvailablePrimaryKey(persistents);
      if id.None? {
        // the action fails after add_poly: its catalog entry is rolled back with it
        poly := savedPoly;
        return;
      }
      var key := Pack(source, assetId.value);
      persistents := persistents[id.value := Persistent(landId, key, position, orientation, scale)];
      ok := true;
    }

    /** `updatepersis`: moves a placement to a land and sets its geometry; the owners of
        the current land and, when it changes, of the new land must both authorise. */
    method UpdatePersis(persistentId: nat, landId: nat, position: Vector3, orientation: Vector3, scale: Vector3, auth: set<Name>)
      returns (ok: bool)
      requires Valid()
      modifies this
      ensures Valid()
      ensures ok <==>
        && persistentId in old(persistents)
        && old(lands)[old(persistents)[persistentId].landId].owner in auth
        && (landId != old(persistents)[persistentId].landId ==> landId in old(lands) && old(lands)[landId].owner in auth)
        && VectorsWithinBounds(position, orientation, scale)
      ensures ok ==>
        persistents == old(persistents)[persistentId := old(persistents)[persistentId].(
          landId := landId, position := position, orientation := orientation, scale := scale)]
      ensures !ok ==> persistents == old(persistents)
      ensures lands == old(lands) && byLatNorth == old(byLatNorth) && deposits == old(deposits)
      ensures poly == old(poly) && transfers == old(transfers)
    {
      ok := false;
      if persistentId !in persistents {
        return;
      }
      var row := persistents[persistentId];
      var oldLandId := row.landId;
      var oldOwner := RequireLandOwnerAuth(lands, oldLandId, auth);
      if oldOwner.None? {
        return;
      }
      if landId != oldLandId {
        var newOwner := RequireLandOwnerAuth(lands, landId, auth);
        if newOwner.None? {
          return;
        }
      }
      if !VectorsWithinBounds(position, orientation, scale) {
        return;
      }
      persistents := persistents[persistentId := row.(landId := landId, position := position, orientation := orientation, scale := scale)];
      ok := true;
    }

    /** `deletepersis`: removes a placement; a catalog entry that no remaining placement
        refers to is evicted with it. */
    method DeletePersis(persistentId: nat, auth: set<Name>) returns (ok: bool)
      requires Valid()
      modifies this
      ensures Valid()
      ensures ok <==>
        persistentId in old(persistents) && old(lands)[old(persistents)[persistentId].landId].owner in auth
      ensures ok ==> persistents == old(persistents) - {persistentId}
      ensures ok ==>
        var key := old(persistents)[persistentId].sourceAndAssetId;
        poly == if SourceOf(key) == PolySource && (forall id :: id in persistents ==> persistents[id].sourceAndAssetId != key)
                then old(poly) - {AssetIdOf(key)}
                else old(poly)
      ensures !ok ==> persistents == old(persistents) && poly == old(poly)
      ensures lands == old(lands) && byLatNorth == old(byLatNorth) && deposits == old(deposits) && transfers == old(transfers)
    {
      ok := false;
      if persistentId !in persistents {
        return;
      }
      var landId := persistents[persistentId].landId;
      var owner := RequireLandOwnerAuth(lands, landId, auth);
      if owner.None? {
        return;
      }
      var key := persistents[persistentId].sourceAndAssetId;
      persistents := persistents - {persistentId};
      var source := SourceOf(key);
      if source == PolySource {
        var stillPlaced := HasPlacementWithKey(persistents, key);
        if !stillPlaced {
          var assetId := AssetIdOf(key);
          assert assetId in poly;
          EvictionKeepsPlacementsValid(persistents, lands, poly, key);
          poly := poly - {assetId};
        }
      }
      ok := true;
    }

    /** `opendeposit`: opens a zero balance for the owner unless one is open already. */
    method OpenDeposit(owner: Name, auth: set<Name>) returns (ok: bool)
      requires Valid()
      modifies this
      ensures Valid()
      ensures ok <==> owner in auth
      ensures deposits == if ok && owner !in old(deposits) then old(deposits)[owner := 0] else old(deposits)
      ensures lands == old(lands) && byLatNorth == old(byLatNorth) && poly == old(poly)
      ensures persistents == old(persistents) && transfers == old(transfers)
    {
      if owner !in auth {
        return false;
      }
      if owner !in deposits {
        deposits := deposits[owner := 0];
      }
      return true;
    }

    /** `closedeposit`: pays the whole balance back to the owner, when there is any,
        and closes the deposit. */
    method CloseDeposit(owner: Name, auth: set<Name>) returns (ok: bool)
      requires Valid()
      modifies this
      ensures Valid()
      ensures ok <==> owner in auth && owner in old(deposits)
      ensures ok ==> deposits == old(deposits) - {owner}
      ensures ok ==>
        transfers == old(transfers) +
          if old(deposits)[owner] > 0 then [Transfer(account, owner, Asset(old(deposits)[owner], InfSymbol), "")] else []
      ensures !ok ==> deposits == old(deposits) && transfers == old(transfers)
      ensures lands == old(lands) && byLatNorth == old(byLatNorth) && poly == old(poly) && persistents == old(persistents)
    {
      if owner !in auth || owner !in deposits {
        return false;
      }
      var balance := deposits[owner];
      if balance > 0 {
        transfers := transfers + [Transfer(account, owner, Asset(balance, InfSymbol), "")];
      }
      deposits := deposits - {owner};
      return true;
    }

    /** `depositinf`: the token contract's notice of a transfer. A transfer sent by this
        contract, or not sent to it, is ignored; otherwise a positive amount of INF is
        credited to the sender's open deposit. The credit fails when the balance would
        exceed the largest amount an asset may hold. */
    method DepositInf(from: Name, to: Name, quantity: Asset, memo: string) returns (ok: bool)
      requires Valid()
      modifies this
      ensures Valid()
      ensures ok <==>
        || from == account
        || to != account
        || (&& quantity.symbol == InfSymbol
            && AmountInRange(quantity)
            && quantity.amount > 0
            && from in old(deposits)
            && old(deposits)[from] + quantity.amount <= MaxAmount)
      ensures from == account || to != account ==> deposits == old(deposits)
      ensures ok && from != account && to == account ==>
        deposits == old(deposits)[from := old(deposits)[from] + quantity.amount]
      ensures !ok ==> deposits == old(deposits)
      ensures lands == old(lands) && byLatNorth == old(byLatNorth) && poly == old(poly)
      ensures persistents == old(persistents) && transfers == old(transfers)
    {
      if from == account || to != account {
        return true;
      }
      if quantity.symbol != InfSymbol || !AmountInRange(quantity) || quantity.amount <= 0 {
        return false;
      }
      if from !in deposits || deposits[from] + quantity.amount > MaxAmount {
        return false;
      }
      deposits := deposits[from := deposits[from] + quantity.amount];
      return true;
    }
  }
}
