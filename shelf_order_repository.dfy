/**
 * service/repository/shelf_order.go over an in-memory shelf_orders table
 * keyed by the row's UUID string. Whether the database call fails is an
 * input, `fault`: the driver error it would return, or None.
 */
module ShelfOrderStore {
  import opened Wrappers
  import opened Exception
  import opened Entity
  import opened Records
  import Uuid
  import ShelfOrderMapper

  type Table = map<string, ShelfOrderRecord>

  /** The printed null UUID, never used as a row key. */
  const NilKey: string := Uuid.NilString

  /** Every row sits under its own UUID, and no row under the null UUID. */
  ghost predicate WellKeyed(t: Table)
  {
    forall k :: k in t ==> t[k].uuid == k && k != NilKey
  }

  /** The key UpdateOrderStatus selects by. */
  function Key(s: ShelfOrder): string
  {
    Uuid.ToString(s.uuid)
  }

  /** In a well-keyed table a snapshot with the null UUID never matches, so
      UpdateOrderStatus on it always reports a version conflict. */
  lemma NullSnapshotNeverMatches(t: Table, s: ShelfOrder, version: int)
    requires WellKeyed(t) && s.uuid == Uuid.Nil
    ensures !VersionMatches(t, Key(s), version)
  {
    Uuid.NilToString();
  }

  /** The rows that occupy a slot of shelf `shelfType`. */
  function ReadyKeys(t: Table, shelfType: ShelfType): set<string>
  {
    set k | k in t && t[k].shelfType == shelfType && t[k].orderStatus == OrderStatusReadyForPickup
  }

  /** SELECT count(*) ... WHERE shelf_type = ? AND order_status = 'ready_for_pickup'. */
  function ReadyCount(t: Table, shelfType: ShelfType): (c: nat)
    ensures c > 0 <==>
      exists k :: k in t && t[k].shelfType == shelfType && t[k].orderStatus == OrderStatusReadyForPickup
  {
    ReadyKeysNonEmpty(t, shelfType);
    |ReadyKeys(t, shelfType)|
  }

  /** A shelf has ready rows exactly when some row is ready on it. */
  lemma ReadyKeysNonEmpty(t: Table, shelfType: ShelfType)
    ensures |ReadyKeys(t, shelfType)| > 0 <==>
      exists k :: k in t && t[k].shelfType == shelfType && t[k].orderStatus == OrderStatusReadyForPickup
  {
    if exists k :: k in t && t[k].shelfType == shelfType && t[k].orderStatus == OrderStatusReadyForPickup {
      var k :| k in t && t[k].shelfType == shelfType && t[k].orderStatus == OrderStatusReadyForPickup;
      assert k in ReadyKeys(t, shelfType);
    }
  }

  /** A subset is no larger than its superset. */
  lemma {:induction false} SubsetCardinality(a: set<string>, b: set<string>)
    requires a <= b
    ensures |a| <= |b|
    decreases |b|
  {
    if b != {} {
      var x :| x in b;
      SubsetCardinality(a - {x}, b - {x});
    }
  }

  /** A shelf never holds more ready rows than the table has rows. */
  lemma ReadyCountBound(t: Table, shelfType: ShelfType)
    ensures ReadyCount(t, shelfType) <= |t|
  {
    assert ReadyKeys(t, shelfType) <= t.Keys;
    SubsetCardinality(ReadyKeys(t, shelfType), t.Keys);
  }

  /** The error CountOrdersOnShelf returns when the query fails. */
  function CountError(fault: Error): (e: Error)
    ensures e.cause == Database
  {
    Wrap(Sentinel(Database), "failed to count shelf orders " + fault.message)
  }

  /** The optimistic-lock guard: a row with this UUID and this version. */
  predicate VersionMatches(t: Table, key: string, version: int)
  {
    key in t && t[key].version == version
  }

  /** The table after UPDATE ... SET order_status = ?, version = version + 1
      WHERE uuid = ? AND version = ?. */
  function Updated(t: Table, key: string, version: int, status: OrderStatus): (t': Table)
    ensures t'.Keys == t.Keys
    ensures forall k :: k in t && k != key ==> t'[k] == t[k]
    ensures VersionMatches(t, key, version) ==>
      t'[key] == t[key].(orderStatus := status, version := version + 1)
    ensures !VersionMatches(t, key, version) ==> t' == t
  {
    if VersionMatches(t, key, version) then
      t[key := t[key].(orderStatus := status, version := version + 1)]
    else t
  }

  /** Inserting a row under a new key adds one slot to its shelf if it is
      ready for pickup, and leaves every other shelf's count alone. */
  lemma ReadyCountAfterInsert(t: Table, r: ShelfOrderRecord, shelfType: ShelfType)
    requires r.uuid !in t
    ensures ReadyCount(InsertIgnoringDuplicate(t, r.uuid, r), shelfType) ==
      ReadyCount(t, shelfType)
      + (if r.shelfType == shelfType && r.orderStatus == OrderStatusReadyForPickup then 1 else 0)
  {
    ReadyKeysAfterInsert(t, r, shelfType);
  }

  /** The ready rows of a shelf after such an insert. */
  lemma ReadyKeysAfterInsert(t: Table, r: ShelfOrderRecord, shelfType: ShelfType)
    requires r.uuid !in t
    ensures r.uuid !in ReadyKeys(t, shelfType)
    ensures ReadyKeys(InsertIgnoringDuplicate(t, r.uuid, r), shelfType) ==
      ReadyKeys(t, shelfType)
      + (if r.shelfType == shelfType && r.orderStatus == OrderStatusReadyForPickup then {r.uuid} else {})
  {
  }

  /** A successful transition out of ready_for_pickup frees exactly one
      slot on the row's shelf. */
  lemma ReadyCountAfterRelease(t: Table, key: string, version: int, status: OrderStatus)
    requires VersionMatches(t, key, version)
    requires t[key].orderStatus == OrderStatusReadyForPickup && status != OrderStatusReadyForPickup
    ensures ReadyCount(Updated(t, key, version, status), t[key].shelfType) ==
      ReadyCount(t, t[key].shelfType) - 1
  {
    var shelfType := t[key].shelfType;
    var t' := Updated(t, key, version, status);
    assert ReadyKeys(t', shelfType) == ReadyKeys(t, shelfType) - {key};
  }

  /** Two updates from the same snapshot: the first wins and bumps the
      version once; the second finds no matching row and changes nothing,
      whatever status it asks for. */
  lemma SameSnapshotTwice(t: Table, key: string, version: int, first: OrderStatus, second: OrderStatus)
    requires VersionMatches(t, key, version)
    ensures var t1 := Updated(t, key, version, first);
      && t1[key].orderStatus == first
      && t1[key].version == version + 1
      && !VersionMatches(t1, key, version)
      && Updated(t1, key, version, second) == t1
  {
  }

  class ShelfOrderRepository {
    var rows: Table

    ghost predicate Valid()
      reads this
    {
      WellKeyed(rows)
    }

    constructor (initial: Table)
      requires WellKeyed(initial)
      ensures Valid() && rows == initial
    {
      rows := initial;
    }

    /** AddOrderToShelf: insert the mapped row; a duplicate UUID is a silent
        success and any other failure is returned as it is. `newUuid` stands
        for guuid.NewV4, which never yields the null UUID. */
    method AddOrderToShelf(shelfOrder: ShelfOrder, newUuid: Uuid.Uuid, fault: Option<Error>)
      returns (err: Option<Error>)
      requires Valid() && newUuid != Uuid.Nil
      modifies this
      ensures Valid()
      ensures err == fault
      ensures fault.Some? ==> rows == old(rows)
      ensures fault.None? ==>
        var r := ShelfOrderMapper.ShelfOrderToRecord(shelfOrder, newUuid);
        rows == InsertIgnoringDuplicate(old(rows), r.uuid, r)
    {
      var r := ShelfOrderMapper.ShelfOrderToRecord(shelfOrder, newUuid);
      if fault.Some? {
        return fault;
      }
      if r.uuid in rows {
        return None;
      }
      Uuid.NonNilString(if shelfOrder.uuid == Uuid.Nil then newUuid else shelfOrder.uuid);
      rows := rows[r.uuid := r];
      return None;
    }

    /** CountOrdersOnShelf: the ready_for_pickup rows on one shelf, or 0 and
        an error caused by ErrDatabase. */
    method CountOrdersOnShelf(shelfType: ShelfType, fault: Option<Error>)
      returns (count: int, err: Option<Error>)
      ensures fault.None? ==> err.None? && count == ReadyCount(rows, shelfType)
      ensures fault.Some? ==> count == 0
      ensures fault.Some? ==> err == Some(CountError(fault.value))
    {
      if fault.Some? {
        return 0, Some(CountError(fault.value));
      }
      count := ReadyCount(rows, shelfType);
      err := None;
    }

    /** UpdateOrderStatus: compare-and-swap on the version. Only the UUID and
        the version guard the update; the row's current status is not read. */
    method UpdateOrderStatus(shelfOrder: ShelfOrder, orderStatus: OrderStatus, fault: Option<Error>)
      returns (err: Option<Error>)
      requires Valid()
      modifies this
      ensures Valid()
      ensures fault.Some? ==> err == fault && rows == old(rows)
      ensures fault.None? ==>
        rows == Updated(old(rows), Key(shelfOrder), shelfOrder.version, orderStatus)
      ensures fault.None? ==>
        (err.None? <==> VersionMatches(old(rows), Key(shelfOrder), shelfOrder.version))
      ensures fault.None? && err.Some? ==> err.value == Sentinel(VersionInvalid)
    {
      if fault.Some? {
        return fault;
      }
      var key := Key(shelfOrder);
      if !VersionMatches(rows, key, shelfOrder.version) {
        return Some(Sentinel(VersionInvalid));
      }
      rows := Updated(rows, key, shelfOrder.version, orderStatus);
      return None;
    }
  }
}
