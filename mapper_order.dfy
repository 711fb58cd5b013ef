/**
 * mapper/order.go: create-order request -> order entity, and order entity
 * <-> orders row. As written, neither direction copies DecayRate, so it is
 * lost on the way to the database and reads back as 0.
 */
module OrderMapper {
  import opened Wrappers
  import opened Exception
  import opened Entity
  import opened Records
  import Uuid

  /** The request fields the mapper reads (the UUID field is not read). */
  datatype CreateOrderRequest = CreateOrderRequest(
    uuid: string,
    name: string,
    temp: string,
    shelfLife: int,
    decayRate: real)

  /** CreateOrderRequestToOrder: copies the request into an order with a
      null UUID and zero creation time, then validates its temperature. */
  function CreateOrderRequestToOrder(req: CreateOrderRequest): (res: Result<Order, Error>)
    ensures res.Success? <==> req.temp in AllOrderTemp
    ensures res.Failure? ==> res.error.cause == InvalidInput
    ensures res.Success? ==>
      res.value == Order(Uuid.Nil, req.name, req.temp, req.shelfLife, req.decayRate, 0)
  {
    var order := Order(Uuid.Nil, req.name, req.temp, req.shelfLife, req.decayRate, 0);
    match ValidateOrder(order)
    case Some(e) => Failure(e)
    case None => Success(order)
  }

  /** OrderToRecord: copies UUID, name, temperature, shelf life and creation
      time; the row's decay rate stays at its zero value. */
  function OrderToRecord(o: Order): (r: OrderRecord)
    ensures r.uuid == Uuid.ToString(o.uuid) && r.name == o.name && r.temp == o.temp
    ensures r.shelfLife == o.shelfLife && r.createdAt == o.createdAt
    ensures r.decayRate == 0.0
  {
    OrderRecord(Uuid.ToString(o.uuid), o.name, o.temp, o.shelfLife, 0.0, o.createdAt)
  }

  /** RecordToOrder: the UUID must parse and the temperature must be valid;
      the row's decay rate is not read. */
  function RecordToOrder(r: OrderRecord): (res: Result<Order, Error>)
    ensures res.Success? <==> Uuid.FromString(r.uuid).Some? && r.temp in AllOrderTemp
    ensures Uuid.FromString(r.uuid).Some? && r.temp !in AllOrderTemp ==>
      res.Failure? && res.error.cause == InvalidInput
    ensures res.Success? ==>
      && Uuid.FromString(r.uuid) == Some(res.value.uuid)
      && res.value == Order(res.value.uuid, r.name, r.temp, r.shelfLife, 0.0, r.createdAt)
  {
    match Uuid.FromString(r.uuid)
    case None => Failure(Wrap(Uuid.ParseError(r.uuid), "uuid is not valid " + r.uuid))
    case Some(uuid) =>
      var order := Order(uuid, r.name, r.temp, r.shelfLife, 0.0, r.createdAt);
      match ValidateOrder(order)
      case Some(e) => Failure(e)
      case None => Success(order)
  }

  /** A valid order comes back from its row with every field but the decay
      rate, which comes back as 0. */
  lemma RoundTrip(o: Order)
    requires o.temp in AllOrderTemp
    ensures RecordToOrder(OrderToRecord(o)) == Success(o.(decayRate := 0.0))
  {
    Uuid.RoundTrip(o.uuid);
  }

  /** So the round trip is the identity exactly for orders without decay. */
  lemma RoundTripExactIffNoDecay(o: Order)
    requires o.temp in AllOrderTemp
    ensures RecordToOrder(OrderToRecord(o)) == Success(o) <==> o.decayRate == 0.0
  {
    RoundTrip(o);
  }
}
