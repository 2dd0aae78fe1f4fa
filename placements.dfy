/**
 * Placements ("persistents"): the geometry bounds of an object placed on a
 * land, and the 128-bit composite key that packs the placement's source kind
 * and the source's asset id into one secondary-index value.
 *
 * Unsigned integers are modelled as bounded naturals: `(uint128_t) s << 64 | a`
 * is `s * 2^64 + a` (the shifted value has 64 zero low bits, and `a` fits in
 * them), `x >> 64` is `x / 2^64`, and a cast to `uint64_t` keeps `x % 2^64`.
 */
module Placements {

  datatype Vector3 = Vector3(x: real, y: real, z: real)

  /** The position is inside the land's unit square, on its surface. */
  predicate PositionOnLand(p: Vector3)
  {
    0.0 < p.x < 1.0 && p.y == 0.0 && 0.0 < p.z < 1.0
  }

  /** Each rotation angle lies in [0, 360). */
  predicate OrientationInRange(o: Vector3)
  {
    0.0 <= o.x < 360.0 && 0.0 <= o.y < 360.0 && 0.0 <= o.z < 360.0
  }

  /** No axis is scaled below 0.2. */
  predicate ScaleLargeEnough(s: Vector3)
  {
    s.x >= 0.2 && s.y >= 0.2 && s.z >= 0.2
  }

  /** `assert_vectors_within_bounds`. */
  predicate VectorsWithinBounds(position: Vector3, orientation: Vector3, scale: Vector3)
  {
    PositionOnLand(position) && OrientationInRange(orientation) && ScaleLargeEnough(scale)
  }

  /** Placements off the surface, too thin, or turned a full 360 degrees are refused. */
  lemma BoundsRejections(position: Vector3, orientation: Vector3, scale: Vector3)
    requires position.y != 0.0 || scale.x < 0.2 || orientation.z == 360.0
    ensures !VectorsWithinBounds(position, orientation, scale)
  {
  }

  // ------------------------------------------------------ the composite key

  const Two64: nat := 0x1_0000_0000_0000_0000
  const Two128: nat := 0x1_0000_0000_0000_0000_0000_0000_0000_0000

  /** The source kind of assets from the user's poly catalog (`PlacementSource::POLY`).
      Its numeric value is defined outside this model; nothing here depends on it. */
  const PolySource: nat := 0

  /** Packs the source kind into the high 64 bits and the asset id into the low 64 bits. */
  function Pack(source: nat, assetId: nat): (key: nat)
    requires source < Two64 && assetId < Two64
    ensures key < Two128
    ensures SourceOf(key) == source && AssetIdOf(key) == assetId
  {
    source * Two64 + assetId
  }

  /** The source kind: the high 64 bits, truncated to 64 bits. */
  function SourceOf(key: nat): (source: nat)
    ensures source < Two64
    ensures key < Two128 ==> source * Two64 <= key < source * Two64 + Two64
  {
    (key / Two64) % Two64
  }

  /** The asset id: the key truncated to its low 64 bits. */
  function AssetIdOf(key: nat): (assetId: nat)
    ensures assetId < Two64
    ensures (key - assetId) % Two64 == 0
  {
    key % Two64
  }

  /** Every 128-bit key is the packing of its two halves. */
  lemma PackOfParts(key: nat)
    requires key < Two128
    ensures Pack(SourceOf(key), AssetIdOf(key)) == key
  {
    assert key / Two64 < Two64;
  }

  /** Two 128-bit keys are equal exactly when their source kinds and asset ids are. */
  lemma {:induction false} KeysEqualIffPartsEqual(k1: nat, k2: nat)
    requires k1 < Two128 && k2 < Two128
    ensures k1 == k2 <==> SourceOf(k1) == SourceOf(k2) && AssetIdOf(k1) == AssetIdOf(k2)
  {
    PackOfParts(k1);
    PackOfParts(k2);
  }
}
