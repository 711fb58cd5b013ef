/**
 * The background jobs of job/order.go, one step at a time: one tick of the
 * expiry sweep (RemoveExpiredOrders), the per-order classification
 * (removeExpiredOrder) and one worker step that places a dequeued order
 * (placeOrderOnShelf). Sleeps, goroutines, Redis polling and logging are
 * not modelled; the store faults each call meets are inputs.
 */
module Jobs {
  import opened Wrappers
  import opened Exception
  import opened Entity
  import Uuid
  import opened ShelfOrderStore
  import opened Records
  import OrderStore
  import opened Placement

  /** removeExpiredOrder's view of the store error: a version conflict means
      the order was picked up meanwhile and is not a failure; everything
      else, ErrDatabase included, is returned. */
  function Classify(err: Option<Error>): (r: Option<Error>)
    ensures r.None? <==> err.None? || err.value.cause == VersionInvalid
    ensures r.Some? ==> r == err
  {
    if err.Some? && err.value.cause == VersionInvalid then None else err
  }

  /** The table after marking each expired shelf order as wasted in list
      order; `faults[i]` is the store error the i-th update meets. */
  function Swept(t: Table, expired: seq<ShelfOrder>, faults: seq<Option<Error>>): (t': Table)
    requires |faults| == |expired|
    ensures t'.Keys == t.Keys
    decreases |expired|
  {
    if |expired| == 0 then t
    else
      var n := |expired| - 1;
      var before := Swept(t, expired[..n], faults[..n]);
      if faults[n].Some? then before
      else Updated(before, Key(expired[n]), expired[n].version, OrderStatusWasted)
  }

  /** A row the sweep touches is marked wasted at a higher version, its
      other columns unchanged. */
  lemma {:induction false} SweptOnlyWastes(t: Table, expired: seq<ShelfOrder>, faults: seq<Option<Error>>)
    requires |faults| == |expired|
    ensures forall k :: k in t ==> Swept(t, expired, faults)[k] == t[k] || WastedFrom(t[k], Swept(t, expired, faults)[k])
    decreases |expired|
  {
    if |expired| > 0 {
      var n := |expired| - 1;
      SweptOnlyWastes(t, expired[..n], faults[..n]);
      var before := Swept(t, expired[..n], faults[..n]);
      var after := Swept(t, expired, faults);
      forall k | k in t
        ensures after[k] == t[k] || WastedFrom(t[k], after[k])
      {
        WastedAgain(t[k], before[k], after[k]);
      }
    }
  }

  /** Row `after` is row `before` marked wasted at a higher version. */
  ghost predicate WastedFrom(before: ShelfOrderRecord, after: ShelfOrderRecord)
  {
    after == before.(orderStatus := OrderStatusWasted, version := after.version) && after.version > before.version
  }

  /** Marking a row wasted once more keeps it wasted from the original. */
  lemma WastedAgain(a: ShelfOrderRecord, b: ShelfOrderRecord, c: ShelfOrderRecord)
    requires b == a || WastedFrom(a, b)
    requires c == b || c == b.(orderStatus := OrderStatusWasted, version := b.version + 1)
    ensures c == a || WastedFrom(a, c)
  {
  }

  /** The shelf orders whose removal is logged as failed, in list order. */
  function Failures(expired: seq<ShelfOrder>, faults: seq<Option<Error>>): (r: seq<ShelfOrder>)
    requires |faults| == |expired|
    ensures forall so :: so in r ==> so in expired
    ensures forall i :: 0 <= i < |expired| && Classify(faults[i]).Some? ==> expired[i] in r
    ensures (forall i :: 0 <= i < |faults| ==> Classify(faults[i]).None?) ==> r == []
    decreases |expired|
  {
    if |expired| == 0 then []
    else
      var n := |expired| - 1;
      assert forall i :: 0 <= i < n ==> expired[..n][i] == expired[i] && faults[..n][i] == faults[i];
      Failures(expired[..n], faults[..n]) + (if Classify(faults[n]).Some? then [expired[n]] else [])
  }

  /** The positions of the failed updates, in increasing order. */
  function FailingIndices(expired: seq<ShelfOrder>, faults: seq<Option<Error>>): (ix: seq<nat>)
    requires |faults| == |expired|
    ensures forall j :: 0 <= j < |ix| ==> ix[j] < |expired| && Classify(faults[ix[j]]).Some?
    ensures forall j, k :: 0 <= j < k < |ix| ==> ix[j] < ix[k]
    decreases |expired|
  {
    if |expired| == 0 then []
    else
      var n := |expired| - 1;
      var ix := FailingIndices(expired[..n], faults[..n]);
      assert forall j :: 0 <= j < |ix| ==> faults[..n][ix[j]] == faults[ix[j]];
      ix + (if Classify(faults[n]).Some? then [n] else [])
  }

  /** The failure list is the expired orders at the failing positions, in
      list order. */
  lemma {:induction false} FailuresInOrder(expired: seq<ShelfOrder>, faults: seq<Option<Error>>)
    requires |faults| == |expired|
    ensures var r := Failures(expired, faults);
      var ix := FailingIndices(expired, faults);
      |r| == |ix| && forall j :: 0 <= j < |r| ==> r[j] == expired[ix[j]]
    decreases |expired|
  {
    if |expired| > 0 {
      var n := |expired| - 1;
      FailuresInOrder(expired[..n], faults[..n]);
      var r0, ix0 := Failures(expired[..n], faults[..n]), FailingIndices(expired[..n], faults[..n]);
      FailuresUnfold(expired, faults);
      AlignStep(expired, r0, ix0, Failures(expired, faults), FailingIndices(expired, faults),
        Classify(faults[n]).Some?);
    }
  }

  /** Every failing position is listed, so a repeated order that fails
      twice is logged twice. */
  lemma {:induction false} FailingIndicesComplete(expired: seq<ShelfOrder>, faults: seq<Option<Error>>)
    requires |faults| == |expired|
    ensures forall i :: 0 <= i < |expired| && Classify(faults[i]).Some? ==> i in FailingIndices(expired, faults)
    decreases |expired|
  {
    if |expired| > 0 {
      var n := |expired| - 1;
      FailingIndicesComplete(expired[..n], faults[..n]);
      assert FailingIndices(expired, faults) ==
        FailingIndices(expired[..n], faults[..n]) + (if Classify(faults[n]).Some? then [n] else []);
      assert forall i :: 0 <= i < n ==> faults[..n][i] == faults[i];
    }
  }

  /** The failure list and the failing positions, one order shorter. */
  lemma FailuresUnfold(expired: seq<ShelfOrder>, faults: seq<Option<Error>>)
    requires |faults| == |expired| > 0
    ensures var n := |expired| - 1;
      var add := Classify(faults[n]).Some?;
      && Failures(expired, faults) == Failures(expired[..n], faults[..n]) + (if add then [expired[n]] else [])
      && FailingIndices(expired, faults) == FailingIndices(expired[..n], faults[..n]) + (if add then [n] else [])
  {
  }

  /** Every logged failure is an expired order whose own update failed. */
  lemma FailuresAreFailed(expired: seq<ShelfOrder>, faults: seq<Option<Error>>)
    requires |faults| == |expired|
    ensures forall so :: so in Failures(expired, faults) ==>
      exists i :: 0 <= i < |expired| && expired[i] == so && Classify(faults[i]).Some?
  {
    var r, ix := Failures(expired, faults), FailingIndices(expired, faults);
    FailuresInOrder(expired, faults);
    forall so | so in r
      ensures exists i :: 0 <= i < |expired| && expired[i] == so && Classify(faults[i]).Some?
    {
      var j :| 0 <= j < |r| && r[j] == so;
      assert expired[ix[j]] == so && Classify(faults[ix[j]]).Some?;
    }
  }

  /** Extending a failure list and its positions by the last expired order
      keeps the two aligned. */
  lemma AlignStep(expired: seq<ShelfOrder>, r0: seq<ShelfOrder>, ix0: seq<nat>,
                  r: seq<ShelfOrder>, ix: seq<nat>, add: bool)
    requires |expired| > 0 && |r0| == |ix0|
    requires forall j :: 0 <= j < |ix0| ==> ix0[j] < |expired| - 1
    requires forall j :: 0 <= j < |r0| ==> r0[j] == expired[..|expired| - 1][ix0[j]]
    requires r == r0 + (if add then [expired[|expired| - 1]] else [])
    requires ix == ix0 + (if add then [|expired| - 1] else [])
    ensures |r| == |ix| && forall j :: 0 <= j < |r| ==> r[j] == expired[ix[j]]
  {
    assert forall j :: 0 <= j < |r0| ==> r0[j] == expired[ix0[j]];
    if add {
      assert r[|r0|] == expired[ix[|r0|]];
    }
  }

  /** One more step of the sweep and of its failure list. */
  lemma SweepStep(t: Table, expired: seq<ShelfOrder>, faults: seq<Option<Error>>, i: int)
    requires |faults| == |expired| && 0 <= i < |expired|
    ensures Swept(t, expired[..i + 1], faults[..i + 1]) ==
      if faults[i].Some? then Swept(t, expired[..i], faults[..i])
      else Updated(Swept(t, expired[..i], faults[..i]), Key(expired[i]), expired[i].version, OrderStatusWasted)
    ensures Failures(expired[..i + 1], faults[..i + 1]) ==
      Failures(expired[..i], faults[..i]) + (if Classify(faults[i]).Some? then [expired[i]] else [])
  {
    assert expired[..i + 1][..i] == expired[..i];
    assert faults[..i + 1][..i] == faults[..i];
  }

  /** No shelf order of the list can be found at its snapshot version. */
  ghost predicate AllStale(t: Table, expired: seq<ShelfOrder>)
  {
    forall i :: 0 <= i < |expired| ==> !VersionMatches(t, Key(expired[i]), expired[i].version)
  }

  /** The shelf orders of the list are distinct rows. */
  ghost predicate DistinctRows(expired: seq<ShelfOrder>)
  {
    forall i, j :: 0 <= i < j < |expired| ==> expired[i].uuid != expired[j].uuid
  }

  /** A sweep in which every update is a version conflict changes nothing. */
  lemma {:induction false} SweepOfStaleIsIdentity(t: Table, expired: seq<ShelfOrder>, faults: seq<Option<Error>>)
    requires |faults| == |expired|
    requires AllStale(t, expired)
    ensures Swept(t, expired, faults) == t
    decreases |expired|
  {
    if |expired| > 0 {
      var n := |expired| - 1;
      assert AllStale(t, expired[..n]) by {
        forall i | 0 <= i < n
          ensures !VersionMatches(t, Key(expired[..n][i]), expired[..n][i].version)
        {
          assert expired[..n][i] == expired[i];
        }
      }
      SweepOfStaleIsIdentity(t, expired[..n], faults[..n]);
    }
  }

  /** Marking the last shelf order of a list leaves that one off its
      snapshot version, and every earlier one that was off stays off. */
  lemma StaleAfterLast(before: Table, expired: seq<ShelfOrder>, i: int)
    requires 0 <= i < |expired| && DistinctRows(expired)
    requires i < |expired| - 1 ==> !VersionMatches(before, Key(expired[i]), expired[i].version)
    ensures var last := expired[|expired| - 1];
      !VersionMatches(Updated(before, Key(last), last.version, OrderStatusWasted), Key(expired[i]), expired[i].version)
  {
    Uuid.ToStringInjective(expired[i].uuid, expired[|expired| - 1].uuid);
  }

  /** After a fault-free sweep over distinct rows, none of them is still at
      its snapshot version: each was either bumped by its own update or
      already stale, and the later updates touched other rows. */
  lemma {:induction false} SweepLeavesAllStale(t: Table, expired: seq<ShelfOrder>, faults: seq<Option<Error>>)
    requires |faults| == |expired|
    requires forall i :: 0 <= i < |faults| ==> faults[i].None?
    requires DistinctRows(expired)
    ensures AllStale(Swept(t, expired, faults), expired)
    decreases |expired|
  {
    if |expired| > 0 {
      assert DistinctRows(expired[..|expired| - 1]);
      var n := |expired| - 1;
      var last := expired[n];
      var before := Swept(t, expired[..n], faults[..n]);
      var after := Updated(before, Key(last), last.version, OrderStatusWasted);
      assert Swept(t, expired, faults) == after;
      SweepLeavesAllStale(t, expired[..n], faults[..n]);
      forall i | 0 <= i < |expired|
        ensures !VersionMatches(after, Key(expired[i]), expired[i].version)
      {
        if i < n {
          assert expired[..n][i] == expired[i];
        }
        StaleAfterLast(before, expired, i);
      }
    }
  }

  /** Running the sweep a second time over the same snapshot, the first run
      having met no store error, changes nothing: every update meets a
      version conflict. A version conflict counts as success, so a tick
      without store errors reports no failure whatever the table holds. */
  lemma SecondTickNoOp(t: Table, expired: seq<ShelfOrder>, first: seq<Option<Error>>, second: seq<Option<Error>>)
    requires |first| == |expired| && |second| == |expired|
    requires forall i :: 0 <= i < |first| ==> first[i].None?
    requires DistinctRows(expired)
    ensures var t1 := Swept(t, expired, first);
      Swept(t1, expired, second) == t1
    ensures (forall i :: 0 <= i < |second| ==> second[i].None?) ==> Failures(expired, second) == []
  {
    SweepLeavesAllStale(t, expired, first);
    SweepOfStaleIsIdentity(Swept(t, expired, first), expired, second);
  }

  /** What one worker step ends with. */
  datatype WorkerOutcome =
    | FetchFailed(error: Error)
    | Dropped(order: Order)
    | PlacementFailed(error: Error)
    | Placed(order: Order)

  /** The worker's reading of a placement error: ErrFullShelf drops the
      order, any other error is logged; neither is retried. */
  function Outcome(order: Order, err: Option<Error>): (o: WorkerOutcome)
    ensures err.None? <==> o == Placed(order)
    ensures err.Some? && err.value.cause == FullShelf <==> o == Dropped(order)
    ensures err.Some? && err.value.cause != FullShelf ==> o == PlacementFailed(err.value)
  {
    match err
    case None => Placed(order)
    case Some(e) => if e.cause == FullShelf then Dropped(order) else PlacementFailed(e)
  }

  class OrderJob {
    const service: OrderService

    ghost predicate Valid()
      reads this, service, service.shelfOrders
    {
      service.Valid()
    }

    constructor (service: OrderService)
      ensures this.service == service
    {
      this.service := service;
    }

    /** removeExpiredOrder: mark one shelf order wasted. A version conflict
        (the order was picked up, or already marked) comes back as success. */
    method RemoveExpiredOrder(shelfOrder: ShelfOrder, fault: Option<Error>) returns (err: Option<Error>)
      requires Valid()
      modifies service.shelfOrders
      ensures Valid()
      ensures err == Classify(fault)
      ensures service.shelfOrders.rows ==
        if fault.Some? then old(service.shelfOrders.rows)
        else Updated(old(service.shelfOrders.rows), Key(shelfOrder), shelfOrder.version, OrderStatusWasted)
    {
      err := service.shelfOrders.UpdateOrderStatus(shelfOrder, OrderStatusWasted, fault);
      if err.Some? && err.value.cause == VersionInvalid {
        err := None;
      }
    }

    /** One tick of RemoveExpiredOrders: if the expired orders cannot be read
        nothing happens; otherwise every one is attempted. `failed` lists
        the ones whose failure is logged. */
    method RemoveExpiredOrdersTick(expired: Result<seq<ShelfOrder>, Error>, faults: seq<Option<Error>>)
      returns (failed: seq<ShelfOrder>)
      requires Valid()
      requires expired.Success? ==> |faults| == |expired.value|
      modifies service.shelfOrders
      ensures Valid()
      ensures expired.Failure? ==> service.shelfOrders.rows == old(service.shelfOrders.rows) && failed == []
      ensures expired.Success? ==>
        && service.shelfOrders.rows == Swept(old(service.shelfOrders.rows), expired.value, faults)
        && failed == Failures(expired.value, faults)
    {
      if expired.Failure? {
        return [];
      }
      failed := RemoveEach(expired.value, faults);
    }

    /** The loop of a tick: each expired order in list order; a failure is
        logged and the loop goes on. */
    method RemoveEach(list: seq<ShelfOrder>, faults: seq<Option<Error>>) returns (failed: seq<ShelfOrder>)
      requires Valid() && |faults| == |list|
      modifies service.shelfOrders
      ensures Valid()
      ensures service.shelfOrders.rows == Swept(old(service.shelfOrders.rows), list, faults)
      ensures failed == Failures(list, faults)
    {
      ghost var t0 := service.shelfOrders.rows;
      failed := [];
      var i := 0;
      while i < |list|
        invariant 0 <= i <= |list|
        invariant Valid()
        invariant service.shelfOrders.rows == Swept(t0, list[..i], faults[..i])
        invariant failed == Failures(list[..i], faults[..i])
      {
        SweepStep(t0, list, faults, i);
        var err := RemoveExpiredOrder(list[i], faults[i]);
        if err.Some? {
          failed := failed + [list[i]];
        }
        i := i + 1;
      }
      assert list[..i] == list;
      assert faults[..i] == faults;
    }

    /** placeOrderOnShelf: fetch the order; on failure stop; otherwise try
        placement once. */
    method PlaceOrderOnShelf(orderUuid: Uuid.Uuid, fetchFault: Option<Error>, now: Time,
                             newUuid: Uuid.Uuid, faults: PlacementFaults)
      returns (outcome: WorkerOutcome)
      requires Valid() && newUuid != Uuid.Nil
      modifies service.shelfOrders
      ensures Valid()
      ensures var fetched := OrderStore.Lookup(service.orders.rows, orderUuid, fetchFault);
        && (fetched.Failure? ==>
              outcome == FetchFailed(fetched.error)
              && service.shelfOrders.rows == old(service.shelfOrders.rows))
        && (fetched.Success? ==>
              var order := fetched.value;
              && order.decayRate == 0.0
              && service.shelfOrders.rows ==
                 AfterPlacement(old(service.shelfOrders.rows), service.shelfSpace, order, now, newUuid, faults)
              && outcome == Outcome(order, PlacementError(old(service.shelfOrders.rows), service.shelfSpace, order, faults)))
    {
      var fetched := service.orders.GetOrder(orderUuid, fetchFault);
      if fetched.Failure? {
        return FetchFailed(fetched.error);
      }
      var order := fetched.value;
      OrderStore.FetchedOrderIgnoresDecay(service.orders.rows, orderUuid, fetchFault);
      var err, _ := service.PlaceOrderOnShelf(order, now, newUuid, faults);
      outcome := Outcome(order, err);
    }
  }
}
