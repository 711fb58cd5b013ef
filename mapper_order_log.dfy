/** mapper/order_log.go: order history entity <-> order history row. */
module OrderLogMapper {
  import opened Wrappers
  import opened Exception
  import opened OrderHistory
  import opened Records
  import Uuid

  /** OrderLogToRecord. `newUuid` is what guuid.NewV4 returns (a UUID or
      the generator's error); it is consulted only for a null UUID. */
  function OrderLogToRecord(l: OrderLog, newUuid: Result<Uuid.Uuid, Error>): (res: Result<OrderLogRecord, Error>)
    ensures l.uuid == Uuid.Nil && newUuid.Failure? ==> res == Failure(newUuid.error)
    ensures l.uuid != Uuid.Nil || newUuid.Success? ==> res.Success?
    ensures res.Success? ==>
      && res.value.uuid == Uuid.ToString(if l.uuid == Uuid.Nil then newUuid.value else l.uuid)
      && res.value.orderUuid == Uuid.ToString(l.orderUuid)
      && res.value.orderStatus == l.orderStatus
      && res.value.description == l.description
      && res.value.createdAt == l.createdAt
  {
    var r := OrderLogRecord(Uuid.ToString(l.uuid), Uuid.ToString(l.orderUuid),
      l.orderStatus, l.description, l.createdAt);
    if l.uuid == Uuid.Nil then
      match newUuid
      case Failure(e) => Failure(e)
      case Success(u) => Success(r.(uuid := Uuid.ToString(u)))
    else Success(r)
  }

  /** RecordToOrderLog: both UUID strings must parse and the status must be
      one of the history statuses. */
  function RecordToOrderLog(r: OrderLogRecord): (res: Result<OrderLog, Error>)
    ensures res.Success? <==>
      Uuid.FromString(r.uuid).Some? && Uuid.FromString(r.orderUuid).Some?
      && r.orderStatus in AllOrderStatuses
    ensures res.Success? ==>
      && Uuid.FromString(r.uuid) == Some(res.value.uuid)
      && Uuid.FromString(r.orderUuid) == Some(res.value.orderUuid)
      && res.value.orderStatus == r.orderStatus
      && res.value.description == r.description
      && res.value.createdAt == r.createdAt
  {
    match Uuid.FromString(r.uuid)
    case None => Failure(Wrap(Uuid.ParseError(r.uuid), "uuid is not valid, uuid: " + r.uuid))
    case Some(uuid) =>
      match Uuid.FromString(r.orderUuid)
      case None => Failure(Wrap(Uuid.ParseError(r.orderUuid), "order uuid is not valid, uuid: " + r.orderUuid))
      case Some(orderUuid) =>
        var l := OrderLog(uuid, orderUuid, r.orderStatus, r.description, r.createdAt);
        match ValidateOrderLog(l)
        case Some(e) => Failure(e)
        case None => Success(l)
  }

  /** An entry with its own UUID and a valid status survives the round trip
      whatever the generator would have returned. */
  lemma RoundTrip(l: OrderLog, newUuid: Result<Uuid.Uuid, Error>)
    requires l.uuid != Uuid.Nil && l.orderStatus in AllOrderStatuses
    ensures OrderLogToRecord(l, newUuid).Success?
    ensures RecordToOrderLog(OrderLogToRecord(l, newUuid).value) == Success(l)
  {
    Uuid.RoundTrip(l.uuid);
    Uuid.RoundTrip(l.orderUuid);
  }

  /** An entry with a null UUID is stored under the generated one. */
  lemma NullUuidReplaced(l: OrderLog, u: Uuid.Uuid)
    requires l.uuid == Uuid.Nil && l.orderStatus in AllOrderStatuses
    ensures OrderLogToRecord(l, Success(u)).Success?
    ensures RecordToOrderLog(OrderLogToRecord(l, Success(u)).value) == Success(l.(uuid := u))
  {
    Uuid.RoundTrip(u);
    Uuid.RoundTrip(l.orderUuid);
  }
}
