/**
 * The database rows (the structs of service/repository/record) and the one table
 * operation the repositories share: an insert keyed by the primary key that
 * a duplicate key turns into a no-op.
 */
module Records {

  /** A row of the orders table. */
  datatype OrderRecord = OrderRecord(
    uuid: string,
    name: string,
    temp: string,
    shelfLife: int,
    decayRate: real,
    createdAt: int)

  /** A row of the order history table. */
  datatype OrderLogRecord = OrderLogRecord(
    uuid: string,
    orderUuid: string,
    orderStatus: string,
    description: string,
    createdAt: int)

  /** A row of the shelf orders table. */
  datatype ShelfOrderRecord = ShelfOrderRecord(
    uuid: string,
    orderUuid: string,
    shelfType: string,
    orderStatus: string,
    version: int,
    expiresAt: int,
    createdAt: int,
    updatedAt: int)

  /** INSERT of a row whose primary key is `key`: a duplicate key leaves the
      table as it was. */
  function InsertIgnoringDuplicate<V>(t: map<string, V>, key: string, row: V): (t': map<string, V>)
    ensures key in t ==> t' == t
    ensures key !in t ==> t'.Keys == t.Keys + {key} && t'[key] == row
    ensures forall k :: k in t ==> k in t' && t'[k] == t[k]
  {
    if key in t then t else t[key := row]
  }
}
