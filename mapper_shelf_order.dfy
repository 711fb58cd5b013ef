/** mapper/shelf_order.go: shelf-order entity <-> shelf-order row. */
module ShelfOrderMapper {
  import opened Wrappers
  import opened Exception
  import opened Entity
  import opened Records
  import Uuid

  /** ShelfOrderToRecord. `newUuid` is the UUID guuid.NewV4 would generate;
      it is used only when the entity's own UUID is null. */
  function ShelfOrderToRecord(s: ShelfOrder, newUuid: Uuid.Uuid): (r: ShelfOrderRecord)
    ensures r.uuid == Uuid.ToString(if s.uuid == Uuid.Nil then newUuid else s.uuid)
    ensures r.orderUuid == Uuid.ToString(s.orderUuid)
    ensures r.shelfType == s.shelfType && r.orderStatus == s.orderStatus
    ensures r.version == s.version && r.expiresAt == s.expiresAt
    ensures r.createdAt == s.createdAt && r.updatedAt == s.updatedAt
  {
    var r := ShelfOrderRecord(
      Uuid.ToString(s.uuid), Uuid.ToString(s.orderUuid), s.shelfType, s.orderStatus,
      s.version, s.expiresAt, s.createdAt, s.updatedAt);
    if s.uuid == Uuid.Nil then r.(uuid := Uuid.ToString(newUuid)) else r
  }

  /** RecordToShelfOrder: both UUID strings must parse and the shelf type
      and status must be valid; the joined order is left at its zero value. */
  function RecordToShelfOrder(r: ShelfOrderRecord): (res: Result<ShelfOrder, Error>)
    ensures Uuid.FromString(r.uuid).None? ==> res.Failure?
    ensures Uuid.FromString(r.orderUuid).None? ==> res.Failure?
    ensures r.shelfType !in AllShelfTypes || r.orderStatus !in AllOrderStatuses ==> res.Failure?
    ensures res.Success? <==>
      && Uuid.FromString(r.uuid).Some? && Uuid.FromString(r.orderUuid).Some?
      && r.shelfType in AllShelfTypes && r.orderStatus in AllOrderStatuses
    ensures res.Success? ==>
      && Uuid.FromString(r.uuid) == Some(res.value.uuid)
      && Uuid.FromString(r.orderUuid) == Some(res.value.orderUuid)
      && res.value == ShelfOrder(res.value.uuid, res.value.orderUuid, r.shelfType, r.orderStatus,
           r.version, r.expiresAt, r.createdAt, r.updatedAt, ZeroOrder)
  {
    match Uuid.FromString(r.uuid)
    case None => Failure(Wrap(Uuid.ParseError(r.uuid), "uuid is not valid, uuid: " + r.uuid))
    case Some(uuid) =>
      match Uuid.FromString(r.orderUuid)
      case None => Failure(Wrap(Uuid.ParseError(r.orderUuid), "order uuid is not valid, uuid: " + r.orderUuid))
      case Some(orderUuid) =>
        var s := ShelfOrder(uuid, orderUuid, r.shelfType, r.orderStatus,
          r.version, r.expiresAt, r.createdAt, r.updatedAt, ZeroOrder);
        match ShelfOrderError(s)
        case Some(e) => Failure(e)
        case None => Success(s)
  }

  /** A shelf order with its own UUID and valid fields survives the trip to
      a row and back, except the joined order, which rows do not carry. */
  lemma RoundTrip(s: ShelfOrder, newUuid: Uuid.Uuid)
    requires s.uuid != Uuid.Nil
    requires s.shelfType in AllShelfTypes && s.orderStatus in AllOrderStatuses
    ensures RecordToShelfOrder(ShelfOrderToRecord(s, newUuid)) == Success(s.(order := ZeroOrder))
  {
    Uuid.RoundTrip(s.uuid);
    Uuid.RoundTrip(s.orderUuid);
  }

  /** A null UUID is never written: the row gets the new one instead. */
  lemma NullUuidReplaced(s: ShelfOrder, newUuid: Uuid.Uuid)
    requires s.uuid == Uuid.Nil && newUuid != Uuid.Nil
    ensures ShelfOrderToRecord(s, newUuid).uuid != Uuid.NilString
    ensures Uuid.FromString(ShelfOrderToRecord(s, newUuid).uuid) == Some(newUuid)
  {
    Uuid.NonNilString(newUuid);
    Uuid.RoundTrip(newUuid);
  }
}
