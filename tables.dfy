/**
 * The keyed tables of the contract are modelled as Dafny maps from a 64-bit
 * primary key to a row. This module holds what all four tables share: the
 * optional result type and the primary-key allocator of the storage layer.
 */
module Tables {

  datatype Option<+T> = None | Some(value: T)

  /** The storage layer refuses to hand out this key or any larger one
      (the autoincrement limit, 2^64 - 2). */
  const NoAvailablePrimaryKey: nat := 0xFFFF_FFFF_FFFF_FFFE

  /** Every key of the table is followed by a key that can still be allocated. */
  ghost predicate KeyAvailable(keys: set<nat>)
  {
    forall k :: k in keys ==> k + 1 < NoAvailablePrimaryKey
  }

  /** `k` is the key the table allocates next: one more than its largest key, or 0 when
      the table is empty. */
  ghost predicate NextKey(keys: set<nat>, k: nat)
  {
    && k !in keys
    && (forall j :: j in keys ==> j < k)
    && (k == 0 || k - 1 in keys)
  }

  /** `available_primary_key`: one more than the largest key of the table, 0 for an
      empty table, or None when that key is at the autoincrement limit. */
  method AvailablePrimaryKey<T>(table: map<nat, T>) returns (key: Option<nat>)
    ensures key.Some? <==> KeyAvailable(table.Keys)
    ensures key.Some? ==> NextKey(table.Keys, key.value) && key.value < NoAvailablePrimaryKey
  {
    var next := 0;
    var rest := table.Keys;
    while rest != {}
      invariant rest <= table.Keys
      invariant forall k :: k in table && k !in rest ==> k < next
      invariant next == 0 || next - 1 in table
      decreases rest
    {
      var k :| k in rest;
      if k >= next {
        next := k + 1;
      }
      rest := rest - {k};
    }
    if next < NoAvailablePrimaryKey {
      key := Some(next);
    } else {
      key := None;
    }
  }
}
