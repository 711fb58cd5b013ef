/**
 * The `entity` package: orders (entity/order.go) and orders placed on a
 * shelf (entity/shelf_order.go). Times are whole seconds; Go's zero time is 0.
 */
module Entity {
  import opened Wrappers
  import opened Exception
  import opened Strings
  import Uuid

  type Time = int

  // ---------------------------------------------------------------- orders

  type OrderTemp = string

  const OrderTempHot: OrderTemp := "hot"
  const OrderTempCold: OrderTemp := "cold"
  const OrderTempFrozen: OrderTemp := "frozen"

  /** Every accepted order temperature. */
  const AllOrderTemp: set<OrderTemp> := {OrderTempHot, OrderTempCold, OrderTempFrozen}

  /** A kitchen order; `decayRate` is a real number, not an IEEE double. */
  datatype Order = Order(
    uuid: Uuid.Uuid,
    name: string,
    temp: OrderTemp,
    shelfLife: int,
    decayRate: real,
    createdAt: Time)

  /** Go's zero value of Order. */
  const ZeroOrder: Order := Order(Uuid.Nil, "", "", 0, 0.0, 0)

  /** Order.Validate: the temperature must be one of the three. */
  function ValidateOrder(o: Order): (err: Option<Error>)
    ensures err.None? <==> o.temp in AllOrderTemp
    ensures err.Some? ==> err.value.cause == InvalidInput
  {
    if o.temp in AllOrderTemp then None
    else Some(Wrap(Sentinel(InvalidInput), "temp value is invalid, temp: " + o.temp))
  }

  /** Order.String: name and temperature can be read back from the text. */
  function OrderString(o: Order): (s: string)
    ensures |s| == 14 + |o.name| + |o.temp|
    ensures s[..6] == "Name: " && s[6..6 + |o.name|] == o.name
    ensures s[6 + |o.name|..14 + |o.name|] == ", Temp: " && s[14 + |o.name|..] == o.temp
  {
    "Name: " + o.name + ", Temp: " + o.temp
  }

  /** Order.GetShelfType: the shelf named like the temperature, else overflow. */
  function GetShelfType(o: Order): (t: ShelfType)
    ensures o.temp == OrderTempHot ==> t == HotShelf
    ensures o.temp == OrderTempCold ==> t == ColdShelf
    ensures o.temp == OrderTempFrozen ==> t == FrozenShelf
    ensures t == OverflowShelf <==> o.temp !in AllOrderTemp
    ensures t in AllShelfTypes
  {
    if o.temp == OrderTempHot then HotShelf
    else if o.temp == OrderTempCold then ColdShelf
    else if o.temp == OrderTempFrozen then FrozenShelf
    else OverflowShelf
  }

  /** An order that validates is routed to the shelf of its own temperature. */
  lemma ValidOrderNeverOverflows(o: Order)
    requires ValidateOrder(o).None?
    ensures GetShelfType(o) != OverflowShelf
    ensures GetShelfType(o) == o.temp
  {
  }

  /** Order.GetTTL: floor(shelfLife / (1 + decayRate)) seconds. Go divides
      by zero without failing when decayRate is -1; the model excludes it.
      Without decay an order lives exactly its shelf life. */
  function GetTTL(o: Order): (ttl: int)
    requires o.decayRate != -1.0
    ensures o.decayRate == 0.0 ==> ttl == o.shelfLife
  {
    (o.shelfLife as real / (1.0 + o.decayRate)).Floor
  }

  /** The TTL is the largest whole number of seconds not above the decayed
      shelf life. */
  lemma TtlIsFloor(o: Order)
    requires o.decayRate != -1.0
    ensures GetTTL(o) as real <= o.shelfLife as real / (1.0 + o.decayRate) < GetTTL(o) as real + 1.0
  {
  }

  /** A non-negative decay rate only shortens a non-negative shelf life. */
  lemma TtlBounds(o: Order)
    requires o.decayRate >= 0.0 && o.shelfLife >= 0
    ensures 0 <= GetTTL(o) <= o.shelfLife
  {
    var q := o.shelfLife as real / (1.0 + o.decayRate);
    assert q * (1.0 + o.decayRate) == o.shelfLife as real;
    assert 0.0 <= q;
    assert q <= q * (1.0 + o.decayRate);
  }

  /** The worked example: 300 seconds at decay 0.45 give 206 seconds. */
  lemma TtlExample()
    ensures GetTTL(Order(Uuid.Nil, "Cheeze Pizza", OrderTempHot, 300, 0.45, 0)) == 206
  {
    var q := 300.0 / 1.45;
    assert 206.0 * 1.45 <= 300.0 < 207.0 * 1.45;
    assert 206.0 <= q < 207.0;
  }

  // ----------------------------------------------------------- shelf orders

  type ShelfType = string

  const HotShelf: ShelfType := "hot"
  const ColdShelf: ShelfType := "cold"
  const FrozenShelf: ShelfType := "frozen"
  const OverflowShelf: ShelfType := "overflow"

  /** Every valid shelf type. */
  const AllShelfTypes: set<ShelfType> := {HotShelf, ColdShelf, FrozenShelf, OverflowShelf}

  type OrderStatus = string

  const OrderStatusReadyForPickup: OrderStatus := "ready_for_pickup"
  const OrderStatusPickedUp: OrderStatus := "picked_up"
  const OrderStatusWasted: OrderStatus := "wasted"

  /** Every valid shelf-order status. */
  const AllOrderStatuses: set<OrderStatus> :=
    {OrderStatusReadyForPickup, OrderStatusWasted, OrderStatusPickedUp}

  /** An order occupying a shelf slot; `order` is only filled by joins. */
  datatype ShelfOrder = ShelfOrder(
    uuid: Uuid.Uuid,
    orderUuid: Uuid.Uuid,
    shelfType: ShelfType,
    orderStatus: OrderStatus,
    version: int,
    expiresAt: Time,
    createdAt: Time,
    updatedAt: Time,
    order: Order)

  function ShelfTypeMessage(s: ShelfOrder): string
  {
    "shelf type " + s.shelfType + " is invalid"
  }

  function OrderStatusMessage(s: ShelfOrder): string
  {
    "order status " + s.orderStatus + " is invalid"
  }

  /** What ShelfOrder.Validate returns: nothing when both fields are in their
      sets, otherwise one error listing the shelf-type complaint before the
      status complaint, separated by ", ". */
  function ShelfOrderError(s: ShelfOrder): (err: Option<Error>)
    ensures err.None? <==> s.shelfType in AllShelfTypes && s.orderStatus in AllOrderStatuses
    ensures err.Some? ==> err.value.cause == Foreign
    ensures s.shelfType !in AllShelfTypes && s.orderStatus !in AllOrderStatuses ==>
      err == Some(Error(Foreign, ShelfTypeMessage(s) + ", " + OrderStatusMessage(s)))
    ensures s.shelfType !in AllShelfTypes && s.orderStatus in AllOrderStatuses ==>
      err == Some(Error(Foreign, ShelfTypeMessage(s)))
    ensures s.shelfType in AllShelfTypes && s.orderStatus !in AllOrderStatuses ==>
      err == Some(Error(Foreign, OrderStatusMessage(s)))
  {
    var msgs := (if s.shelfType in AllShelfTypes then [] else [ShelfTypeMessage(s)])
      + (if s.orderStatus in AllOrderStatuses then [] else [OrderStatusMessage(s)]);
    assert s.shelfType !in AllShelfTypes && s.orderStatus !in AllOrderStatuses ==>
      Join(msgs, ", ") == ShelfTypeMessage(s) + ", " + Join([OrderStatusMessage(s)], ", ");
    if msgs == [] then None else Some(Error(Foreign, Join(msgs, ", ")))
  }

  /** ShelfOrder.Validate, collecting the messages step by step. */
  method ValidateShelfOrder(s: ShelfOrder) returns (err: Option<Error>)
    ensures err == ShelfOrderError(s)
  {
    var errorMsgs: seq<string> := [];
    if s.shelfType !in AllShelfTypes {
      errorMsgs := errorMsgs + [ShelfTypeMessage(s)];
    }
    if s.orderStatus !in AllOrderStatuses {
      errorMsgs := errorMsgs + [OrderStatusMessage(s)];
    }
    if |errorMsgs| != 0 {
      return Some(Error(Foreign, Join(errorMsgs, ", ")));
    }
    return None;
  }

  /** ShelfOrder.String: shelf type and status can be read back. */
  function ShelfOrderString(s: ShelfOrder): (r: string)
    ensures |r| == 26 + |s.shelfType| + |s.orderStatus|
    ensures r[..11] == "ShelfType: " && r[11..11 + |s.shelfType|] == s.shelfType
    ensures r[11 + |s.shelfType|..26 + |s.shelfType|] == ", OrderStatus: "
    ensures r[26 + |s.shelfType|..] == s.orderStatus
  {
    "ShelfType: " + s.shelfType + ", OrderStatus: " + s.orderStatus
  }

  /** The three temperatures and the four shelf types are distinct strings,
      so the validity sets have exactly their listed sizes. */
  lemma EnumerationSizes()
    ensures |AllOrderTemp| == 3
    ensures |AllShelfTypes| == 4
    ensures |AllOrderStatuses| == 3
  {
    assert OrderTempHot[0] == 'h' && OrderTempCold[0] == 'c' && OrderTempFrozen[0] == 'f';
    assert OverflowShelf[0] == 'o';
    assert OrderStatusReadyForPickup[0] == 'r' && OrderStatusPickedUp[0] == 'p' && OrderStatusWasted[0] == 'w';
  }
}
