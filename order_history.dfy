/**
 * Order history entries (entity/order_history.go). Its status values are a
 * separate enumeration from the shelf-order statuses. The constant for the
 * cold shelf is spelled "hot_shelf", the same text as the hot-shelf constant.
 */
module OrderHistory {
  import opened Wrappers
  import opened Exception
  import Uuid

  type OrderStatus = string

  const OrderStatusHotShelf: OrderStatus := "hot_shelf"
  const OrderStatusColdShelf: OrderStatus := "hot_shelf"
  const OrderStatusFrozenShelf: OrderStatus := "frozen_shelf"
  const OrderStatusOverflowShelf: OrderStatus := "overflow_shelf"
  const OrderStatusWasted: OrderStatus := "wasted"
  const OrderStatusDropped: OrderStatus := "dropped"
  const OrderStatusPickedUp: OrderStatus := "picked_up"

  /** The seven constants, as listed. */
  const AllOrderStatuses: set<OrderStatus> := {
    OrderStatusHotShelf, OrderStatusColdShelf, OrderStatusFrozenShelf,
    OrderStatusOverflowShelf, OrderStatusWasted, OrderStatusDropped,
    OrderStatusPickedUp}

  /** An immutable order history record. */
  datatype OrderLog = OrderLog(
    uuid: Uuid.Uuid,
    orderUuid: Uuid.Uuid,
    orderStatus: OrderStatus,
    description: string,
    createdAt: int)

  /** OrderLog.Validate: the status must be one of the listed constants. */
  function ValidateOrderLog(l: OrderLog): (err: Option<Error>)
    ensures err.None? <==> l.orderStatus in AllOrderStatuses
    ensures err.Some? ==> err.value.cause == InvalidInput
  {
    if l.orderStatus in AllOrderStatuses then None
    else Some(Wrap(Sentinel(InvalidInput), "status value is invalid " + l.orderStatus))
  }

  /** Seven constants name only six statuses: "cold_shelf" is not one of
      them, but "dropped" is. */
  lemma StatusSet()
    ensures OrderStatusColdShelf == OrderStatusHotShelf
    ensures AllOrderStatuses ==
      {"hot_shelf", "frozen_shelf", "overflow_shelf", "wasted", "dropped", "picked_up"}
    ensures |AllOrderStatuses| == 6
    ensures "cold_shelf" !in AllOrderStatuses
    ensures OrderStatusDropped in AllOrderStatuses
  {
    var six := ["hot_shelf", "frozen_shelf", "overflow_shelf", "wasted", "dropped", "picked_up"];
    assert forall i, j :: 0 <= i < j < |six| ==> six[i] != six[j] by {
      assert six[0][0] == 'h' && six[1][0] == 'f' && six[2][0] == 'o';
      assert six[3][0] == 'w' && six[4][0] == 'd' && six[5][0] == 'p';
    }
    assert "cold_shelf"[0] == 'c';
  }
}
