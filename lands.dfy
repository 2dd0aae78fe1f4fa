/**
 * Land parcels: the coordinate checks of a registration, the overlap test,
 * the area fee, and the secondary index of the land table ordered by north
 * edge together with the bounded scan over it.
 *
 * Coordinates are exact reals: the contract only compares them, except in
 * the fee, where the area is rounded to whole square metres.
 */
module Lands {

  /** An account name. */
  type Name = string

  const MaxLandLength: real := 100.0
  const InfPerSqm: int := 10
  /** Minor units per INF: the INF symbol has four decimal places. */
  const InfUnit: int := 10000
  const SecondsInOneYear: nat := 60 * 60 * 24 * 365

  datatype Land = Land(owner: Name, north: real, east: real, south: real, west: real, regEndDate: nat)

  /** The coordinate checks of a registration: a non-empty rectangle that does not
      cross the antimeridian, strictly between latitudes -85 and 85, with both
      longitudes in (-180, 180]. */
  predicate EdgesValid(north: real, east: real, south: real, west: real)
  {
    && north > south
    && east > west
    && north < 85.0
    && south > -85.0
    && -180.0 < east <= 180.0
    && -180.0 < west <= 180.0
  }

  /** Both metric side lengths are at most the maximum land length. */
  predicate WithinMaxLength(size: (real, real))
  {
    size.0 <= MaxLandLength && size.1 <= MaxLandLength
  }

  /** The test applied to each scanned land: it lies entirely east, west, north or
      south of the rectangle (sharing an edge is allowed). */
  predicate DisjointFrom(l: Land, north: real, east: real, south: real, west: real)
  {
    l.east <= west || l.west >= east || l.south >= north || l.north <= south
  }

  /** The land and the rectangle share an area of positive size. */
  predicate Overlaps(l: Land, north: real, east: real, south: real, west: real)
  {
    west < l.east && l.west < east && south < l.north && l.south < north
  }

  predicate LandsOverlap(a: Land, b: Land)
  {
    Overlaps(a, b.north, b.east, b.south, b.west)
  }

  lemma DisjointIffNoOverlap(l: Land, north: real, east: real, south: real, west: real)
    ensures DisjointFrom(l, north, east, south, west) <==> !Overlaps(l, north, east, south, west)
  {
  }

  /** Two lands meeting along an edge (or only at a corner) do not overlap. */
  lemma SharedEdgeIsNoOverlap(a: Land, b: Land)
    requires a.east == b.west || a.west == b.east || a.north == b.south || a.south == b.north
    ensures !LandsOverlap(a, b) && !LandsOverlap(b, a)
  {
  }

  ghost predicate LandsDisjoint(lands: map<nat, Land>)
  {
    forall a, b :: a in lands && b in lands && a != b ==> !LandsOverlap(lands[a], lands[b])
  }

  /** Every land spans at most `margin` degrees of latitude. */
  ghost predicate LatExtentsAtMost(lands: map<nat, Land>, margin: real)
  {
    forall id :: id in lands ==> lands[id].north - lands[id].south <= margin
  }

  /** What the registration scan demands: every land whose north edge lies in
      [south, upper) is disjoint from the new rectangle. */
  ghost predicate ScanPasses(lands: map<nat, Land>, north: real, east: real, south: real, west: real, upper: real)
  {
    forall id :: id in lands && south <= lands[id].north < upper ==> DisjointFrom(lands[id], north, east, south, west)
  }

  /** With the scan bound `north + margin`, the scan sees every land that could
      overlap, provided no land spans more than `margin` degrees of latitude. */
  lemma ScanIsComplete(lands: map<nat, Land>, north: real, east: real, south: real, west: real, margin: real)
    requires ScanPasses(lands, north, east, south, west, north + margin)
    requires LatExtentsAtMost(lands, margin)
    ensures forall id :: id in lands ==> !Overlaps(lands[id], north, east, south, west)
  {
    forall id | id in lands
      ensures !Overlaps(lands[id], north, east, south, west)
    {
      var l := lands[id];
      if south <= l.north < north + margin {
        assert DisjointFrom(l, north, east, south, west);
      }
    }
  }

  /** Without the bound on the extent of existing lands, the scan can miss an overlap:
      a land 10 degrees tall whose north edge lies above the scan window. */
  lemma TallLandEscapesScan()
    ensures var tall := Land("a", 10.0, 1.0, 0.0, 0.0, 0);
            ScanPasses(map[0 := tall], 5.0, 1.0, 4.0, 0.0, 5.0 + 1.0) && Overlaps(tall, 5.0, 1.0, 4.0, 0.0)
  {
  }

  /** A registration that passes the scan keeps the lands pairwise disjoint. */
  lemma {:induction false} RegistrationKeepsLandsDisjoint(lands: map<nat, Land>, id: nat, land: Land, margin: real)
    requires LandsDisjoint(lands)
    requires id !in lands
    requires LatExtentsAtMost(lands, margin)
    requires ScanPasses(lands, land.north, land.east, land.south, land.west, land.north + margin)
    ensures LandsDisjoint(lands[id := land])
  {
    ScanIsComplete(lands, land.north, land.east, land.south, land.west, margin);
    var after := lands[id := land];
    forall a, b | a in after && b in after && a != b
      ensures !LandsOverlap(after[a], after[b])
    {
      if a == id {
        assert !Overlaps(lands[b], land.north, land.east, land.south, land.west);
      } else if b == id {
        assert !Overlaps(lands[a], land.north, land.east, land.south, land.west);
      }
    }
  }

  // ---------------------------------------------------------------- the fee

  function Max(a: real, b: real): (m: real)
  {
    if a >= b then a else b
  }

  /** Rounding of a non-negative real to the nearest integer, halves upward. */
  function Round(x: real): (r: int)
    requires x >= 0.0
    ensures r as real - 0.5 <= x < r as real + 0.5
    ensures r >= 0
  {
    (x + 0.5).Floor
  }

  /** The registration fee in minor units of INF: the area with each side charged
      as at least one metre, times the rate per square metre, rounded, times 10000. */
  function RegistrationFee(size: (real, real)): (fee: int)
  {
    var area := Max(size.0, 1.0) * Max(size.1, 1.0);
    Round(area * InfPerSqm as real) * InfUnit
  }

  lemma MulNonNegative(x: real, y: real)
    requires 0.0 <= x && 0.0 <= y
    ensures 0.0 <= x * y
  {
  }

  lemma AreaBounds(a: real, b: real)
    requires 1.0 <= a && 1.0 <= b
    ensures 1.0 <= a * b
    ensures a <= MaxLandLength && b <= MaxLandLength ==> a * b <= MaxLandLength * MaxLandLength
  {
    MulNonNegative(a - 1.0, b);
    assert (a - 1.0) * b == a * b - b;
    if a <= MaxLandLength && b <= MaxLandLength {
      MulNonNegative(MaxLandLength - a, b);
      assert (MaxLandLength - a) * b == MaxLandLength * b - a * b;
    }
  }

  /** The fee is a whole number of INF, at least 10 INF, and at most 100000 INF for a land
      within the maximum side length. */
  lemma FeeBounds(size: (real, real))
    ensures RegistrationFee(size) % InfUnit == 0
    ensures RegistrationFee(size) >= InfPerSqm * InfUnit
    ensures WithinMaxLength(size) ==> RegistrationFee(size) <= 100 * 100 * InfPerSqm * InfUnit
  {
    var a, b := Max(size.0, 1.0), Max(size.1, 1.0);
    AreaBounds(a, b);
    var r := Round(a * b * 10.0);
    assert RegistrationFee(size) == r * InfUnit;
    assert r >= 10;
    if WithinMaxLength(size) {
      assert a <= MaxLandLength && b <= MaxLandLength;
      assert a * b * 10.0 <= 100000.0;
    }
  }

  /** Sides shorter than a metre cost the same as sides of one metre. */
  lemma FeeClampsSides(w: real, h: real)
    ensures RegistrationFee((w, h)) == RegistrationFee((Max(w, 1.0), Max(h, 1.0)))
  {
  }

  /** A 1 m x 1 m land and a 0.5 m x 0.5 m land both cost 10 INF. */
  lemma SmallLandFees()
    ensures RegistrationFee((1.0, 1.0)) == 10 * InfUnit
    ensures RegistrationFee((0.5, 0.5)) == 10 * InfUnit
  {
  }

  // ------------------------------------------------ the index by north edge

  /** `index` lists exactly the lands of the table, each once. */
  ghost predicate IndexListsLands(index: seq<nat>, lands: map<nat, Land>)
  {
    && (forall k :: 0 <= k < |index| ==> index[k] in lands)
    && (forall id :: id in lands ==> id in index)
    && (forall i, j :: 0 <= i < j < |index| ==> index[i] != index[j])
  }

  /** `index` is ordered by non-decreasing north edge. */
  ghost predicate IndexSorted(index: seq<nat>, lands: map<nat, Land>)
    requires forall k :: 0 <= k < |index| ==> index[k] in lands
  {
    forall i, j :: 0 <= i <= j < |index| ==> lands[index[i]].north <= lands[index[j]].north
  }

  /** The secondary index of the land table by north edge. */
  ghost predicate IndexedByNorth(index: seq<nat>, lands: map<nat, Land>)
  {
    IndexListsLands(index, lands) && IndexSorted(index, lands)
  }

  /** `lower_bound(x)` on the index: the first position whose north edge is at least x. */
  method LowerBound(index: seq<nat>, lands: map<nat, Land>, x: real) returns (i: nat)
    requires IndexedByNorth(index, lands)
    ensures i <= |index|
    ensures forall k :: 0 <= k < i ==> lands[index[k]].north < x
    ensures forall k :: i <= k < |index| ==> lands[index[k]].north >= x
  {
    i := 0;
    while i < |index| && lands[index[i]].north < x
      invariant i <= |index|
      invariant forall k :: 0 <= k < i ==> lands[index[k]].north < x
    {
      i := i + 1;
    }
  }

  /** The position where the index places a new row with north edge x: after every
      row whose north edge is at most x (ties go after the older rows, whose keys are smaller). */
  method InsertionPoint(index: seq<nat>, lands: map<nat, Land>, x: real) returns (p: nat)
    requires IndexedByNorth(index, lands)
    ensures p <= |index|
    ensures forall k :: 0 <= k < p ==> lands[index[k]].north <= x
    ensures forall k :: p <= k < |index| ==> lands[index[k]].north > x
  {
    p := 0;
    while p < |index| && lands[index[p]].north <= x
      invariant p <= |index|
      invariant forall k :: 0 <= k < p ==> lands[index[k]].north <= x
    {
      p := p + 1;
    }
  }

  /** The index with `id` inserted at position p. */
  function InsertAt(index: seq<nat>, p: nat, id: nat): (r: seq<nat>)
    requires p <= |index|
    ensures |r| == |index| + 1
    ensures forall k :: 0 <= k < p ==> r[k] == index[k]
    ensures r[p] == id
    ensures forall k :: p < k < |r| ==> r[k] == index[k - 1]
  {
    index[..p] + [id] + index[p..]
  }

  lemma {:induction false} InsertKeepsListing(index: seq<nat>, lands: map<nat, Land>, p: nat, id: nat, land: Land)
    requires IndexListsLands(index, lands)
    requires id !in lands
    requires p <= |index|
    ensures IndexListsLands(InsertAt(index, p, id), lands[id := land])
  {
    var ns := InsertAt(index, p, id);
    var after := lands[id := land];
    forall x | x in after
      ensures x in ns
    {
      if x == id {
        assert ns[p] == x;
      } else {
        var q :| 0 <= q < |index| && index[q] == x;
        if q < p {
          assert ns[q] == x;
        } else {
          assert ns[q + 1] == x;
        }
      }
    }
    forall i, j | 0 <= i < j < |ns|
      ensures ns[i] != ns[j]
    {
      if i != p && j != p {
        var i', j' := if i < p then i else i - 1, if j < p then j else j - 1;
        assert ns[i] == index[i'] && ns[j] == index[j'];
      }
    }
  }

  /** The north edge at position k of the index after the insertion. */
  lemma InsertedNorth(index: seq<nat>, lands: map<nat, Land>, p: nat, id: nat, land: Land, k: nat)
    requires forall q :: 0 <= q < |index| ==> index[q] in lands
    requires id !in lands
    requires p <= |index| && k <= |index|
    ensures InsertAt(index, p, id)[k] in lands[id := land]
    ensures lands[id := land][InsertAt(index, p, id)[k]].north ==
      if k == p then land.north else lands[index[if k < p then k else k - 1]].north
  {
  }

  lemma {:induction false} InsertKeepsSorted(index: seq<nat>, lands: map<nat, Land>, p: nat, id: nat, land: Land)
    requires IndexedByNorth(index, lands)
    requires id !in lands
    requires p <= |index|
    requires forall k :: 0 <= k < p ==> lands[index[k]].north <= land.north
    requires forall k :: p <= k < |index| ==> lands[index[k]].north > land.north
    requires IndexListsLands(InsertAt(index, p, id), lands[id := land])
    ensures IndexSorted(InsertAt(index, p, id), lands[id := land])
  {
    var ns := InsertAt(index, p, id);
    var after := lands[id := land];
    forall i, j | 0 <= i <= j < |ns|
      ensures after[ns[i]].north <= after[ns[j]].north
    {
      InsertedNorth(index, lands, p, id, land, i);
      InsertedNorth(index, lands, p, id, land, j);
      if i != p && j != p {
        var i', j' := if i < p then i else i - 1, if j < p then j else j - 1;
        assert lands[index[i']].north <= lands[index[j']].north;
      }
    }
  }

  /** Inserting a new land at its insertion point keeps the index ordered and complete. */
  lemma {:induction false} InsertKeepsIndexed(index: seq<nat>, lands: map<nat, Land>, p: nat, id: nat, land: Land)
    requires IndexedByNorth(index, lands)
    requires id !in lands
    requires p <= |index|
    requires forall k :: 0 <= k < p ==> lands[index[k]].north <= land.north
    requires forall k :: p <= k < |index| ==> lands[index[k]].north > land.north
    ensures IndexedByNorth(InsertAt(index, p, id), lands[id := land])
  {
    InsertKeepsListing(index, lands, p, id, land);
    InsertKeepsSorted(index, lands, p, id, land);
  }

  /** The scan of a registration: from `lower_bound(south)` along the index while the
      north edge is below `upper`, every land met must be disjoint from the rectangle. */
  method ScanClear(index: seq<nat>, lands: map<nat, Land>, north: real, east: real, south: real, west: real, upper: real)
    returns (clear: bool)
    requires IndexedByNorth(index, lands)
    ensures clear <==> ScanPasses(lands, north, east, south, west, upper)
  {
    var start := LowerBound(index, lands, south);
    var i := start;
    while i < |index| && lands[index[i]].north < upper
      invariant start <= i <= |index|
      invariant forall k :: start <= k < i ==> DisjointFrom(lands[index[k]], north, east, south, west)
    {
      if !DisjointFrom(lands[index[i]], north, east, south, west) {
        assert lands[index[i]].north >= south;
        return false;
      }
      i := i + 1;
    }
    forall id | id in lands && south <= lands[id].north < upper
      ensures DisjointFrom(lands[id], north, east, south, west)
    {
      var p :| 0 <= p < |index| && index[p] == id;
      assert lands[index[p]].north == lands[id].north;
    }
    return true;
  }
}
