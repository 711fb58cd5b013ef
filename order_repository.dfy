/**
 * service/repository/order.go over an in-memory orders table keyed by the
 * row's UUID string; `fault` is the driver error a call would meet, or None.
 */
module OrderStore {
  import opened Wrappers
  import opened Exception
  import opened Entity
  import opened Records
  import Uuid
  import OrderMapper

  type Table = map<string, OrderRecord>

  /** What GetOrder returns for `uuid` against table `t`. */
  function Lookup(t: Table, uuid: Uuid.Uuid, fault: Option<Error>): (res: Result<Order, Error>)
    ensures fault.Some? ==> res.Failure? && res.error.cause == Database
    ensures fault.None? && Uuid.ToString(uuid) !in t ==> res == Failure(Sentinel(NotFound))
    ensures fault.None? && Uuid.ToString(uuid) in t ==>
      match OrderMapper.RecordToOrder(t[Uuid.ToString(uuid)])
      case Success(o) => res == Success(o)
      case Failure(_) => res.Failure? && res.error.cause == DataCorrupted
  {
    var key := Uuid.ToString(uuid);
    if fault.Some? then Failure(Wrap(Sentinel(Database), fault.value.message))
    else if key !in t then Failure(Sentinel(NotFound))
    else
      match OrderMapper.RecordToOrder(t[key])
      case Success(o) => Success(o)
      case Failure(e) => Failure(Wrap(Sentinel(DataCorrupted), "failed to map record to order, err: " + e.message))
  }

  /** An order stored from scratch reads back under its UUID with every
      field but the decay rate, which reads back as 0. */
  lemma CreateThenGet(t: Table, o: Order)
    requires Uuid.ToString(o.uuid) !in t
    requires o.temp in AllOrderTemp
    ensures var r := OrderMapper.OrderToRecord(o);
      Lookup(InsertIgnoringDuplicate(t, r.uuid, r), o.uuid, None) == Success(o.(decayRate := 0.0))
  {
    OrderMapper.RoundTrip(o);
  }

  /** The repository does not validate: an order with a bad temperature is
      stored, and reading it back reports corrupted data. */
  lemma InvalidOrderStoredThenCorrupted(t: Table, o: Order)
    requires Uuid.ToString(o.uuid) !in t
    requires o.temp !in AllOrderTemp
    ensures var r := OrderMapper.OrderToRecord(o);
      var t' := InsertIgnoringDuplicate(t, r.uuid, r);
      r.uuid in t' && Lookup(t', o.uuid, None).Failure?
      && Lookup(t', o.uuid, None).error.cause == DataCorrupted
  {
    Uuid.RoundTrip(o.uuid);
  }

  /** Every order mapped from a create-order request has the null UUID, so all
      of them are stored under the all-zero key: into a table without that key
      the first one goes in, every later one is a silent duplicate, and
      GetOrder on the null UUID returns the first. */
  lemma RequestOrdersShareNullKey(t: Table, a: OrderMapper.CreateOrderRequest, b: OrderMapper.CreateOrderRequest)
    requires OrderMapper.CreateOrderRequestToOrder(a).Success?
    requires OrderMapper.CreateOrderRequestToOrder(b).Success?
    requires Uuid.ToString(Uuid.Nil) !in t
    ensures
      var oa := OrderMapper.CreateOrderRequestToOrder(a).value;
      var ra := OrderMapper.OrderToRecord(oa);
      var rb := OrderMapper.OrderToRecord(OrderMapper.CreateOrderRequestToOrder(b).value);
      var t1 := InsertIgnoringDuplicate(t, ra.uuid, ra);
      ra.uuid == rb.uuid == Uuid.ToString(Uuid.Nil)
      && InsertIgnoringDuplicate(t1, rb.uuid, rb) == t1
      && Lookup(t1, Uuid.Nil, None) == Success(oa.(decayRate := 0.0))
  {
    CreateThenGet(t, OrderMapper.CreateOrderRequestToOrder(a).value);
  }

  /** Every order GetOrder hands out carries decay rate 0, so its TTL is its
      shelf life. */
  lemma FetchedOrderIgnoresDecay(t: Table, uuid: Uuid.Uuid, fault: Option<Error>)
    requires Lookup(t, uuid, fault).Success?
    ensures Lookup(t, uuid, fault).value.decayRate == 0.0
    ensures GetTTL(Lookup(t, uuid, fault).value) == Lookup(t, uuid, fault).value.shelfLife
  {
  }

  class OrderRepository {
    var rows: Table

    constructor (initial: Table)
      ensures rows == initial
    {
      rows := initial;
    }

    /** CreateOrder: insert the mapped row; an existing UUID is a silent
        success and any other failure is wrapped with ErrDatabase. */
    method CreateOrder(order: Order, fault: Option<Error>) returns (err: Option<Error>)
      modifies this
      ensures fault.Some? ==> rows == old(rows)
      ensures fault.Some? ==>
        err == Some(Wrap(Sentinel(Database), "failed to store order, err: " + fault.value.message))
      ensures fault.None? ==> err.None?
      ensures fault.None? ==>
        var r := OrderMapper.OrderToRecord(order);
        rows == InsertIgnoringDuplicate(old(rows), r.uuid, r)
    {
      var r := OrderMapper.OrderToRecord(order);
      if fault.Some? {
        return Some(Wrap(Sentinel(Database), "failed to store order, err: " + fault.value.message));
      }
      if r.uuid in rows {
        return None;
      }
      rows := rows[r.uuid := r];
      return None;
    }

    /** GetOrder: NotFound for an absent UUID, DataCorrupted for a row that
        does not map back to an order, otherwise the mapped order. */
    method GetOrder(orderUuid: Uuid.Uuid, fault: Option<Error>) returns (res: Result<Order, Error>)
      ensures res == Lookup(rows, orderUuid, fault)
    {
      if fault.Some? {
        return Failure(Wrap(Sentinel(Database), fault.value.message));
      }
      var key := Uuid.ToString(orderUuid);
      if key !in rows {
        return Failure(Sentinel(NotFound));
      }
      var mapped := OrderMapper.RecordToOrder(rows[key]);
      if mapped.Failure? {
        return Failure(Wrap(Sentinel(DataCorrupted), "failed to map record to order, err: " + mapped.error.message));
      }
      return Success(mapped.value);
    }
  }
}
