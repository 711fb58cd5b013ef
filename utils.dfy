/**
 * lib/utils.go: StringifyShelves renders the contents of the shelves, one
 * line per shelf, the names of its orders separated by ", ", the lines
 * separated by a blank line. Go iterates a map in no fixed order; here the
 * shelves come as a sequence, in the order they are rendered.
 */
module Utils {
  import opened Strings
  import opened Entity

  /** The names of the orders on a shelf, in list order. */
  function OrderNames(shelfOrders: seq<ShelfOrder>): (names: seq<string>)
    ensures |names| == |shelfOrders|
    ensures forall i :: 0 <= i < |shelfOrders| ==> names[i] == shelfOrders[i].order.name
  {
    if |shelfOrders| == 0 then []
    else OrderNames(shelfOrders[..|shelfOrders| - 1]) + [shelfOrders[|shelfOrders| - 1].order.name]
  }

  /** The line of one shelf: its type, ": ", then the names. */
  function ShelfLine(shelfType: ShelfType, shelfOrders: seq<ShelfOrder>): (line: string)
    ensures |line| >= |shelfType| + 2 && line[..|shelfType| + 2] == shelfType + ": "
  {
    shelfType + ": " + Join(OrderNames(shelfOrders), ", ")
  }

  /** One line per shelf, in order. */
  function ShelfLines(shelves: seq<(ShelfType, seq<ShelfOrder>)>): (lines: seq<string>)
    ensures |lines| == |shelves|
    ensures forall i :: 0 <= i < |shelves| ==> lines[i] == ShelfLine(shelves[i].0, shelves[i].1)
  {
    if |shelves| == 0 then []
    else
      var n := |shelves| - 1;
      ShelfLines(shelves[..n]) + [ShelfLine(shelves[n].0, shelves[n].1)]
  }

  /** StringifyShelves. */
  method StringifyShelves(shelves: seq<(ShelfType, seq<ShelfOrder>)>) returns (s: string)
    ensures s == Join(ShelfLines(shelves), "\n\n")
  {
    var prettifiedShelves: seq<string> := [];
    var i := 0;
    while i < |shelves|
      invariant 0 <= i <= |shelves|
      invariant prettifiedShelves == ShelfLines(shelves[..i])
    {
      var (shelfType, shelfOrders) := shelves[i];
      var orderStrs: seq<string> := [];
      var j := 0;
      while j < |shelfOrders|
        invariant 0 <= j <= |shelfOrders|
        invariant orderStrs == OrderNames(shelfOrders[..j])
      {
        orderStrs := orderStrs + [shelfOrders[j].order.name];
        assert shelfOrders[..j + 1][..j] == shelfOrders[..j];
        j := j + 1;
      }
      assert shelfOrders[..j] == shelfOrders;
      prettifiedShelves := prettifiedShelves + [shelfType + ": " + Join(orderStrs, ", ")];
      assert shelves[..i + 1][..i] == shelves[..i];
      i := i + 1;
    }
    assert shelves[..i] == shelves;
    s := Join(prettifiedShelves, "\n\n");
  }

  /** A shelf without orders renders as its type followed by ": ". */
  lemma EmptyShelfLine(shelfType: ShelfType)
    ensures ShelfLine(shelfType, []) == shelfType + ": "
  {
  }

  /** One more shelf adds a blank line and that shelf's line to the end;
      the earlier text is unchanged. */
  lemma StringifyOneMore(shelves: seq<(ShelfType, seq<ShelfOrder>)>, shelfType: ShelfType, shelfOrders: seq<ShelfOrder>)
    ensures Join(ShelfLines(shelves + [(shelfType, shelfOrders)]), "\n\n") ==
      if shelves == [] then ShelfLine(shelfType, shelfOrders)
      else Join(ShelfLines(shelves), "\n\n") + "\n\n" + ShelfLine(shelfType, shelfOrders)
  {
    assert (shelves + [(shelfType, shelfOrders)])[..|shelves|] == shelves;
    JoinAppend(ShelfLines(shelves), ShelfLine(shelfType, shelfOrders), "\n\n");
  }

  /** Likewise, one more order on a shelf appends ", " and its name to the
      shelf's line. */
  lemma ShelfLineOneMore(shelfType: ShelfType, shelfOrders: seq<ShelfOrder>, so: ShelfOrder)
    ensures ShelfLine(shelfType, shelfOrders + [so]) ==
      if shelfOrders == [] then shelfType + ": " + so.order.name
      else ShelfLine(shelfType, shelfOrders) + ", " + so.order.name
  {
    assert (shelfOrders + [so])[..|shelfOrders|] == shelfOrders;
    JoinAppend(OrderNames(shelfOrders), so.order.name, ", ");
  }
}
