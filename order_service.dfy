/**
 * The placement rule of the order service, PlaceOrderOnShelf, as the tests
 * in service/order_test.go pin it: count the ready orders on the shelf that
 * matches the order's temperature; if that shelf is at its limit count the
 * overflow shelf; if both are at their limits report a full shelf; otherwise
 * insert a ready_for_pickup shelf order with version 0 that expires after
 * the order's TTL. Each count and the insert is a separate store call.
 */
module Placement {
  import opened Wrappers
  import opened Exception
  import opened Entity
  import opened Records
  import Uuid
  import ShelfOrderMapper
  import opened ShelfOrderStore
  import OrderStore
  import OrderMapper

  /** The configured capacity of each shelf. */
  datatype ShelfSpaceConfig = ShelfSpaceConfig(hot: int, cold: int, frozen: int, overflow: int)

  /** The service's shelfSpace map: one entry per shelf type. */
  function ShelfSpace(cfg: ShelfSpaceConfig): (m: map<ShelfType, int>)
    ensures m.Keys == AllShelfTypes
    ensures m[HotShelf] == cfg.hot && m[ColdShelf] == cfg.cold
    ensures m[FrozenShelf] == cfg.frozen && m[OverflowShelf] == cfg.overflow
  {
    map[HotShelf := cfg.hot, ColdShelf := cfg.cold, FrozenShelf := cfg.frozen, OverflowShelf := cfg.overflow]
  }

  /** A Go map lookup: a shelf type without an entry has capacity 0. */
  function Capacity(space: map<ShelfType, int>, shelfType: ShelfType): int
  {
    if shelfType in space then space[shelfType] else 0
  }

  /** The driver error, if any, each of the three store calls would meet. */
  datatype PlacementFaults = PlacementFaults(
    corresponding: Option<Error>,
    overflow: Option<Error>,
    insert: Option<Error>)

  /** Where an order goes, before the insert. */
  datatype Decision = OnShelf(shelfType: ShelfType) | ShelfFull | CountFailed(error: Error)

  /** The shelf chosen against table `t`: the order's own shelf while it has
      room, else overflow while it has room; a failed count stops the rule. */
  function Decide(t: Table, space: map<ShelfType, int>, order: Order, faults: PlacementFaults): (d: Decision)
    ensures d.OnShelf? ==> ReadyCount(t, d.shelfType) < Capacity(space, d.shelfType)
    ensures d.OnShelf? ==> d.shelfType in {GetShelfType(order), OverflowShelf}
    ensures faults.corresponding.None? && faults.overflow.None?
      && ReadyCount(t, GetShelfType(order)) >= Capacity(space, GetShelfType(order))
      && ReadyCount(t, OverflowShelf) < Capacity(space, OverflowShelf)
      ==> d == OnShelf(OverflowShelf)
    ensures d.CountFailed? ==>
      (faults.corresponding.Some? && d.error == CountError(faults.corresponding.value))
      || (faults.corresponding.None? && faults.overflow.Some?
          && ReadyCount(t, GetShelfType(order)) >= Capacity(space, GetShelfType(order))
          && d.error == CountError(faults.overflow.value))
  {
    var shelfType := GetShelfType(order);
    if faults.corresponding.Some? then CountFailed(CountError(faults.corresponding.value))
    else if ReadyCount(t, shelfType) < Capacity(space, shelfType) then OnShelf(shelfType)
    else if faults.overflow.Some? then CountFailed(CountError(faults.overflow.value))
    else if ReadyCount(t, OverflowShelf) < Capacity(space, OverflowShelf) then OnShelf(OverflowShelf)
    else ShelfFull
  }

  /** The shelf order the rule inserts. Its UUID is null, so the mapper
      gives the row a freshly generated one. */
  function NewShelfOrder(order: Order, shelfType: ShelfType, now: Time): (s: ShelfOrder)
    requires order.decayRate != -1.0
    ensures s.uuid == Uuid.Nil && s.orderUuid == order.uuid && s.shelfType == shelfType
    ensures s.orderStatus == OrderStatusReadyForPickup && s.version == 0
    ensures s.expiresAt == now + GetTTL(order)
  {
    ShelfOrder(Uuid.Nil, order.uuid, shelfType, OrderStatusReadyForPickup, 0,
      now + GetTTL(order), 0, 0, ZeroOrder)
  }

  /** The row the rule inserts for `order` on `shelfType`. */
  function PlacedRecord(order: Order, shelfType: ShelfType, now: Time, newUuid: Uuid.Uuid): ShelfOrderRecord
    requires order.decayRate != -1.0
  {
    ShelfOrderMapper.ShelfOrderToRecord(NewShelfOrder(order, shelfType, now), newUuid)
  }

  /** The inserted row is keyed by the generated UUID and carries the
      order's UUID, the shelf, ready_for_pickup, version 0 and the expiry. */
  lemma PlacedRecordFields(order: Order, shelfType: ShelfType, now: Time, newUuid: Uuid.Uuid)
    requires order.decayRate != -1.0
    ensures PlacedRecord(order, shelfType, now, newUuid) ==
      ShelfOrderRecord(Uuid.ToString(newUuid), Uuid.ToString(order.uuid), shelfType,
        OrderStatusReadyForPickup, 0, now + GetTTL(order), 0, 0)
  {
  }

  /** The shelf-orders table after the rule has run. */
  function AfterPlacement(t: Table, space: map<ShelfType, int>, order: Order, now: Time,
                          newUuid: Uuid.Uuid, faults: PlacementFaults): (t': Table)
    requires order.decayRate != -1.0
  {
    match Decide(t, space, order, faults)
    case OnShelf(shelfType) =>
      if faults.insert.Some? then t
      else
        var r := PlacedRecord(order, shelfType, now, newUuid);
        InsertIgnoringDuplicate(t, r.uuid, r)
    case _ => t
  }

  /** What the rule returns: the insert's error, ErrFullShelf, or the
      failed count's error (caused by ErrDatabase). */
  function PlacementError(t: Table, space: map<ShelfType, int>, order: Order, faults: PlacementFaults): (err: Option<Error>)
    ensures err.None? <==> Decide(t, space, order, faults).OnShelf? && faults.insert.None?
    ensures Decide(t, space, order, faults).CountFailed? ==> err.Some? && err.value.cause == Database
    ensures Decide(t, space, order, faults).ShelfFull? ==> err == Some(Sentinel(FullShelf))
  {
    match Decide(t, space, order, faults)
    case OnShelf(_) => faults.insert
    case ShelfFull => Some(Sentinel(FullShelf))
    case CountFailed(e) => Some(e)
  }

  /** A valid order whose own shelf has room goes on that shelf, never on
      overflow, and the overflow shelf is not looked at. */
  lemma CorrespondingShelfFirst(t: Table, space: map<ShelfType, int>, order: Order, faults: PlacementFaults)
    requires order.temp in AllOrderTemp
    requires faults.corresponding.None?
    requires ReadyCount(t, order.temp) < Capacity(space, order.temp)
    ensures Decide(t, space, order, faults) == OnShelf(order.temp)
    ensures order.temp != OverflowShelf
    ensures forall f :: Decide(t, space, order, faults.(overflow := f)) == OnShelf(order.temp)
  {
    ValidOrderNeverOverflows(order);
  }

  /** ErrFullShelf exactly when both counts succeed and both shelves are at
      or over their limits. */
  lemma FullShelfIffBothAtLimit(t: Table, space: map<ShelfType, int>, order: Order, faults: PlacementFaults)
    ensures Decide(t, space, order, faults) == ShelfFull <==>
      && faults.corresponding.None? && faults.overflow.None?
      && ReadyCount(t, GetShelfType(order)) >= Capacity(space, GetShelfType(order))
      && ReadyCount(t, OverflowShelf) >= Capacity(space, OverflowShelf)
  {
  }

  /** A successful placement under a new key adds exactly the expected row:
      the order's UUID, the chosen shelf, ready_for_pickup, version 0 and
      expiry now + TTL; that shelf gains one ready order. */
  lemma PlacementAddsOneRow(t: Table, space: map<ShelfType, int>, order: Order, now: Time,
                            newUuid: Uuid.Uuid, faults: PlacementFaults)
    requires order.decayRate != -1.0
    requires Decide(t, space, order, faults).OnShelf? && faults.insert.None?
    requires Uuid.ToString(newUuid) !in t
    ensures var shelfType := Decide(t, space, order, faults).shelfType;
      var key := Uuid.ToString(newUuid);
      var t' := AfterPlacement(t, space, order, now, newUuid, faults);
      && t'.Keys == t.Keys + {key}
      && (forall k :: k in t ==> t'[k] == t[k])
      && t'[key] == ShelfOrderRecord(key, Uuid.ToString(order.uuid), shelfType,
           OrderStatusReadyForPickup, 0, now + GetTTL(order), 0, 0)
      && ReadyCount(t', shelfType) == ReadyCount(t, shelfType) + 1
  {
    var shelfType := Decide(t, space, order, faults).shelfType;
    var r := PlacedRecord(order, shelfType, now, newUuid);
    PlacedRecordFields(order, shelfType, now, newUuid);
    ReadyCountAfterInsert(t, r, shelfType);
  }

  /** Inserting one ready row under a new key onto a shelf with room keeps
      every shelf within its limit. */
  lemma InsertKeepsCapacity(t: Table, space: map<ShelfType, int>, r: ShelfOrderRecord, shelfType: ShelfType)
    requires ReadyCount(t, shelfType) <= Capacity(space, shelfType)
    requires r.shelfType == shelfType ==> ReadyCount(t, r.shelfType) < Capacity(space, r.shelfType)
    ensures ReadyCount(InsertIgnoringDuplicate(t, r.uuid, r), shelfType) <= Capacity(space, shelfType)
  {
    if r.uuid !in t {
      ReadyCountAfterInsert(t, r, shelfType);
    }
  }

  /** Run one at a time, placement never overfills a shelf: a shelf within
      its limit before is within it after. */
  lemma PlacementRespectsCapacity(t: Table, space: map<ShelfType, int>, order: Order, now: Time,
                                  newUuid: Uuid.Uuid, faults: PlacementFaults, shelfType: ShelfType)
    requires order.decayRate != -1.0
    requires ReadyCount(t, shelfType) <= Capacity(space, shelfType)
    ensures ReadyCount(AfterPlacement(t, space, order, now, newUuid, faults), shelfType)
      <= Capacity(space, shelfType)
  {
    if Decide(t, space, order, faults).OnShelf? && faults.insert.None? {
      PlacedKeepsCapacity(t, space, order, now, newUuid, faults, shelfType);
    } else {
      AfterPlacementUnchanged(t, space, order, now, newUuid, faults);
    }
  }

  /** The inserting case of PlacementRespectsCapacity. */
  lemma PlacedKeepsCapacity(t: Table, space: map<ShelfType, int>, order: Order, now: Time,
                            newUuid: Uuid.Uuid, faults: PlacementFaults, shelfType: ShelfType)
    requires order.decayRate != -1.0
    requires ReadyCount(t, shelfType) <= Capacity(space, shelfType)
    requires Decide(t, space, order, faults).OnShelf? && faults.insert.None?
    ensures ReadyCount(AfterPlacement(t, space, order, now, newUuid, faults), shelfType)
      <= Capacity(space, shelfType)
  {
    var d := Decide(t, space, order, faults);
    var r := PlacedRecord(order, d.shelfType, now, newUuid);
    PlacedRecordFields(order, d.shelfType, now, newUuid);
    InsertKeepsCapacity(t, space, r, shelfType);
  }

  /** The worked example: a hot 300-second order with decay 0.45 placed at
      `now` expires 206 seconds later, in the future. */
  lemma ExampleExpiresInFuture(now: Time, u: Uuid.Uuid)
    ensures var order := Order(u, "Cheeze Pizza", OrderTempHot, 300, 0.45, 0);
      NewShelfOrder(order, HotShelf, now).expiresAt == now + 206
      && NewShelfOrder(order, HotShelf, now).expiresAt > now
  {
    TtlExample();
    assert GetTTL(Order(u, "Cheeze Pizza", OrderTempHot, 300, 0.45, 0)) ==
      GetTTL(Order(Uuid.Nil, "Cheeze Pizza", OrderTempHot, 300, 0.45, 0));
  }

  /** One store call, as a mock observes it. */
  datatype StoreCall = CountCall(shelfType: ShelfType) | AddCall(shelfOrder: ShelfOrder)

  /** The count queries the rule makes, in order. */
  ghost function CountCalls(t: Table, space: map<ShelfType, int>, order: Order, faults: PlacementFaults): seq<StoreCall>
  {
    var shelfType := GetShelfType(order);
    [CountCall(shelfType)]
    + (if faults.corresponding.None? && ReadyCount(t, shelfType) >= Capacity(space, shelfType)
       then [CountCall(OverflowShelf)] else [])
  }

  /** All store calls the rule makes, in order: the counts, then the insert
      if a shelf was chosen. */
  ghost function Trace(t: Table, space: map<ShelfType, int>, order: Order, now: Time, faults: PlacementFaults): seq<StoreCall>
    requires order.decayRate != -1.0
  {
    CountCalls(t, space, order, faults)
    + match Decide(t, space, order, faults)
      case OnShelf(shelfType) => [AddCall(NewShelfOrder(order, shelfType, now))]
      case _ => []
  }

  /** Without a chosen shelf or with a failed insert the table is unchanged. */
  lemma AfterPlacementUnchanged(t: Table, space: map<ShelfType, int>, order: Order, now: Time,
                                newUuid: Uuid.Uuid, faults: PlacementFaults)
    requires order.decayRate != -1.0
    requires !Decide(t, space, order, faults).OnShelf? || faults.insert.Some?
    ensures AfterPlacement(t, space, order, now, newUuid, faults) == t
  {
  }

  /** The rule never changes or removes a row; the only row it can add is
      keyed by the new UUID. */
  lemma AfterPlacementKeepsRows(t: Table, space: map<ShelfType, int>, order: Order, now: Time,
                                newUuid: Uuid.Uuid, faults: PlacementFaults)
    requires order.decayRate != -1.0
    ensures var t' := AfterPlacement(t, space, order, now, newUuid, faults);
      && (forall k :: k in t ==> k in t' && t'[k] == t[k])
      && (forall k :: k in t' && k !in t ==> k == Uuid.ToString(newUuid))
  {
    var d := Decide(t, space, order, faults);
    if d.OnShelf? && faults.insert.None? {
      AfterPlacementInserted(t, space, order, now, newUuid, faults, d.shelfType);
    } else {
      AfterPlacementUnchanged(t, space, order, now, newUuid, faults);
    }
  }

  /** With a chosen shelf and a working insert the mapped row is inserted. */
  lemma AfterPlacementInserted(t: Table, space: map<ShelfType, int>, order: Order, now: Time,
                               newUuid: Uuid.Uuid, faults: PlacementFaults, shelfType: ShelfType)
    requires order.decayRate != -1.0
    requires Decide(t, space, order, faults) == OnShelf(shelfType) && faults.insert.None?
    ensures var r := PlacedRecord(order, shelfType, now, newUuid);
      AfterPlacement(t, space, order, now, newUuid, faults) == InsertIgnoringDuplicate(t, r.uuid, r)
  {
  }

  /** The calls of the rule, case by case on the decision. */
  lemma TraceCases(t: Table, space: map<ShelfType, int>, order: Order, now: Time, faults: PlacementFaults)
    requires order.decayRate != -1.0
    ensures var d := Decide(t, space, order, faults);
      && (!d.OnShelf? ==> Trace(t, space, order, now, faults) == CountCalls(t, space, order, faults))
      && (d.OnShelf? ==>
            Trace(t, space, order, now, faults) ==
            CountCalls(t, space, order, faults) + [AddCall(NewShelfOrder(order, d.shelfType, now))])
  {
  }

  /** The order of the calls: the corresponding shelf is counted first; the
      overflow shelf is counted only when the first count succeeded and found
      the shelf at its limit; the last call is an insert exactly when a shelf
      was chosen, and it inserts the new shelf order for that shelf. */
  lemma TraceOrder(t: Table, space: map<ShelfType, int>, order: Order, now: Time, faults: PlacementFaults)
    requires order.decayRate != -1.0
    ensures var calls := Trace(t, space, order, now, faults);
      var d := Decide(t, space, order, faults);
      && 1 <= |calls| <= 3 && calls[0] == CountCall(GetShelfType(order))
      && ((|calls| >= 2 && calls[1] == CountCall(OverflowShelf)) <==>
          faults.corresponding.None?
          && ReadyCount(t, GetShelfType(order)) >= Capacity(space, GetShelfType(order)))
      && (calls[|calls| - 1].AddCall? <==> d.OnShelf?)
      && (d.OnShelf? ==> calls[|calls| - 1] == AddCall(NewShelfOrder(order, d.shelfType, now)))
  {
  }

  class OrderService {
    const shelfSpace: map<ShelfType, int>
    const orders: OrderStore.OrderRepository
    const shelfOrders: ShelfOrderRepository

    ghost predicate Valid()
      reads this, shelfOrders
    {
      shelfOrders.Valid()
    }

    /** NewOrderService: capacities come from the configuration. */
    constructor (cfg: ShelfSpaceConfig, orders: OrderStore.OrderRepository, shelfOrders: ShelfOrderRepository)
      ensures this.shelfSpace == ShelfSpace(cfg)
      ensures this.orders == orders && this.shelfOrders == shelfOrders
    {
      this.shelfSpace := ShelfSpace(cfg);
      this.orders := orders;
      this.shelfOrders := shelfOrders;
    }

    /** CreateOrder: the order goes to the orders repository unchanged, and
        its result is the service's result. */
    method CreateOrder(order: Order, fault: Option<Error>) returns (err: Option<Error>)
      modifies orders
      ensures fault.Some? ==> orders.rows == old(orders.rows)
      ensures fault.Some? ==> err.Some? && err.value.cause == Database
      ensures fault.None? ==> err.None?
      ensures fault.None? ==>
        var r := OrderMapper.OrderToRecord(order);
        orders.rows == InsertIgnoringDuplicate(old(orders.rows), r.uuid, r)
    {
      err := orders.CreateOrder(order, fault);
    }

    /** The counting half of PlaceOrderOnShelf: where the order would go. */
    method ChooseShelf(order: Order, faults: PlacementFaults)
      returns (decision: Decision, ghost calls: seq<StoreCall>)
      ensures decision == Decide(shelfOrders.rows, shelfSpace, order, faults)
      ensures calls == CountCalls(shelfOrders.rows, shelfSpace, order, faults)
    {
      var shelfType := GetShelfType(order);
      var count, countErr := shelfOrders.CountOrdersOnShelf(shelfType, faults.corresponding);
      calls := [CountCall(shelfType)];
      if countErr.Some? {
        return CountFailed(countErr.value), calls;
      }
      if count < Capacity(shelfSpace, shelfType) {
        return OnShelf(shelfType), calls;
      }
      var overflowCount, overflowErr := shelfOrders.CountOrdersOnShelf(OverflowShelf, faults.overflow);
      calls := calls + [CountCall(OverflowShelf)];
      if overflowErr.Some? {
        return CountFailed(overflowErr.value), calls;
      }
      if overflowCount < Capacity(shelfSpace, OverflowShelf) {
        return OnShelf(OverflowShelf), calls;
      }
      return ShelfFull, calls;
    }

    /** PlaceOrderOnShelf. `calls` records the store calls made. */
    method PlaceOrderOnShelf(order: Order, now: Time, newUuid: Uuid.Uuid, faults: PlacementFaults)
      returns (err: Option<Error>, ghost calls: seq<StoreCall>)
      requires Valid() && newUuid != Uuid.Nil && order.decayRate != -1.0
      modifies shelfOrders
      ensures Valid()
      ensures shelfOrders.rows == AfterPlacement(old(shelfOrders.rows), shelfSpace, order, now, newUuid, faults)
      ensures err == PlacementError(old(shelfOrders.rows), shelfSpace, order, faults)
      ensures calls == Trace(old(shelfOrders.rows), shelfSpace, order, now, faults)
    {
      ghost var t0 := shelfOrders.rows;
      TraceCases(t0, shelfSpace, order, now, faults);
      var decision;
      decision, calls := ChooseShelf(order, faults);
      match decision
      case CountFailed(e) =>
        AfterPlacementUnchanged(t0, shelfSpace, order, now, newUuid, faults);
        return Some(e), calls;
      case ShelfFull =>
        AfterPlacementUnchanged(t0, shelfSpace, order, now, newUuid, faults);
        return Some(Sentinel(FullShelf)), calls;
      case OnShelf(target) =>
        if faults.insert.Some? {
          AfterPlacementUnchanged(t0, shelfSpace, order, now, newUuid, faults);
        } else {
          AfterPlacementInserted(t0, shelfSpace, order, now, newUuid, faults, target);
        }
        var shelfOrder := NewShelfOrder(order, target, now);
        err := shelfOrders.AddOrderToShelf(shelfOrder, newUuid, faults.insert);
        calls := calls + [AddCall(shelfOrder)];
    }
  }
}
