/**
 * A client of the contract that uses only the actions' specifications: a user
 * funds a deposit, registers a land, places the same poly asset twice, and
 * deletes both placements. The catalog entry is shared by the two placements
 * and survives the first deletion; the second deletion evicts it.
 */
module Scenarios {
  import opened Tables
  import opened Lands
  import opened Placements
  import opened Infiniverse

  /** Alice opens a deposit, credits 10 INF to it and spends them on a 1 m x 1 m land. */
  method FundAndRegister() returns (c: Contract, landId: nat)
    ensures fresh(c) && c.Valid() && c.account == "infiniverse"
    ensures c.lands.Keys == {landId} && c.lands[landId].owner == "alice"
    ensures c.deposits == map["alice" := 0] && c.poly == map[] && c.persistents == map[]
    ensures c.transfers == [Transfer("infiniverse", InfAccount, Asset(10 * InfUnit, InfSymbol), "")]
  {
    c := new Contract("infiniverse", (n: real, s: real, e: real, w: real) => (1.0, 1.0), 0.001);
    var ok := c.OpenDeposit("alice", {"alice"});
    assert ok && c.deposits == map["alice" := 0];
    ok := c.DepositInf("alice", "infiniverse", Asset(10 * InfUnit, InfSymbol), "");
    assert ok && c.deposits == map["alice" := 10 * InfUnit];
    SmallLandFees();
    ok := c.RegisterLand("alice", 1.0, 1.0, 0.5, 0.5, 0, {"alice"});
    assert ok;
    landId :| landId in c.lands;
  }

  /** Placing the same poly id twice on Alice's land creates one catalog entry, used by
      both placements under the same composite key. */
  method PlaceTwice(c: Contract, landId: nat)
    requires c.Valid() && landId in c.lands && c.lands[landId].owner == "alice"
    requires c.poly == map[] && c.persistents == map[]
    modifies c
    ensures c.Valid() && c.lands == old(c.lands) && c.deposits == old(c.deposits) && c.transfers == old(c.transfers)
    ensures c.persistents.Keys == {0, 1}
    ensures c.persistents[0].sourceAndAssetId == c.persistents[1].sourceAndAssetId
    ensures SourceOf(c.persistents[0].sourceAndAssetId) == PolySource
    ensures c.poly.Keys == {AssetIdOf(c.persistents[0].sourceAndAssetId)}
  {
    var polyId: Bytes := seq(PolyIdLength, _ => 0x41);
    var position, orientation, scale := Vector3(0.5, 0.0, 0.5), Vector3(0.0, 0.0, 0.0), Vector3(1.0, 1.0, 1.0);
    var ok := c.PersistPoly(landId, polyId, position, orientation, scale, {"alice"});
    assert ok && c.persistents.Keys == {0};
    var catalog := c.poly;
    var key := c.persistents[0].sourceAndAssetId;
    assert catalog.Keys == {AssetIdOf(key)} by {
      var assetId :| catalog == map[][assetId := PolyEntry("alice", polyId)];
      assert catalog.Keys == {assetId};
    }
    ok := c.PersistPoly(landId, polyId, position, orientation, scale, {"alice"});
    assert ok && c.poly == catalog && c.persistents.Keys == {0, 1};
  }

  /** The first deletion keeps the shared catalog entry; the second evicts it. Closing
      the emptied deposit sends nothing more. */
  method SharedPolyLifecycle()
  {
    var c, landId := FundAndRegister();
    PlaceTwice(c, landId);
    var catalog := c.poly;

    var ok := c.DeletePersis(0, {"alice"});
    assert ok && c.persistents.Keys == {1} && c.poly == catalog;

    ok := c.DeletePersis(1, {"alice"});
    assert ok && c.persistents == map[] && c.poly == map[];

    ok := c.CloseDeposit("alice", {"alice"});
    assert ok && c.deposits == map[] && |c.transfers| == 1;
  }

  /** Bob funds 30 INF and registers the square with corners (0.5, 0.5) and (1.0, 1.0),
      with a scan margin of one degree, which covers the lands' height. */
  method RegisterSquare() returns (c: Contract, a: nat)
    ensures fresh(c) && c.Valid() && c.latMargin == 1.0
    ensures forall n, s, e, w :: c.landSize(n, s, e, w) == (1.0, 1.0)
    ensures c.lands.Keys == {a} && a == 0 && c.lands[a].north == 1.0 && c.lands[a].east == 1.0
    ensures c.lands[a].south == 0.5 && c.lands[a].west == 0.5
    ensures c.deposits == map["bob" := 20 * InfUnit]
  {
    c := new Contract("infiniverse", (n: real, s: real, e: real, w: real) => (1.0, 1.0), 1.0);
    var ok := c.OpenDeposit("bob", {"bob"});
    ok := c.DepositInf("bob", "infiniverse", Asset(30 * InfUnit, InfSymbol), "");
    assert ok && c.deposits == map["bob" := 30 * InfUnit];
    SmallLandFees();
    ok := c.RegisterLand("bob", 1.0, 1.0, 0.5, 0.5, 0, {"bob"});
    assert ok;
    a :| a in c.lands;
  }

  /** A land inside Bob's square is refused and leaves the tables as they were. */
  method RefuseInside(c: Contract, a: nat)
    requires c.Valid() && c.latMargin == 1.0
    requires c.lands.Keys == {a} && a == 0 && c.lands[a].north == 1.0 && c.lands[a].east == 1.0
    requires c.lands[a].south == 0.5 && c.lands[a].west == 0.5
    modifies c
    ensures c.Valid() && c.lands == old(c.lands) && c.deposits == old(c.deposits)
  {
    assert !DisjointFrom(c.lands[a], 0.9, 0.9, 0.6, 0.6);
    var ok := c.RegisterLand("bob", 0.9, 0.9, 0.6, 0.6, 0, {"bob"});
    assert !ok;
  }

  /** A land sharing the square's east edge is accepted. */
  method AcceptNeighbour(c: Contract, a: nat)
    requires c.Valid() && c.latMargin == 1.0
    requires forall n, s, e, w :: c.landSize(n, s, e, w) == (1.0, 1.0)
    requires c.lands.Keys == {a} && a == 0 && c.lands[a].north == 1.0 && c.lands[a].east == 1.0
    requires c.lands[a].south == 0.5 && c.lands[a].west == 0.5
    requires c.deposits == map["bob" := 20 * InfUnit]
    modifies c
    ensures c.Valid() && |c.lands| == 2 && c.deposits == map["bob" := 10 * InfUnit]
  {
    SmallLandFees();
    assert DisjointFrom(c.lands[a], 1.0, 1.5, 0.5, 1.0);
    var ok := c.RegisterLand("bob", 1.0, 1.5, 0.5, 1.0, 0, {"bob"});
    assert ok;
  }

  /** Overlapping lands are refused; lands sharing an edge are not. */
  method OverlapAndSharedEdge()
  {
    var c, a := RegisterSquare();
    RefuseInside(c, a);
    AcceptNeighbour(c, a);
    assert |c.lands| == 2 && c.deposits == map["bob" := 10 * InfUnit];
  }
}
