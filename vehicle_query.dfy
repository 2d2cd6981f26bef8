/**
 * Query expansion: a list of `{length, quantity}` demand items becomes the
 * flat list of vehicle lengths that the packer consumes.
 */
module VehicleQuery {
  import opened Runs

  /** `quantity` vehicles, each `length` long. */
  datatype QueryItem = QueryItem(length: nat, quantity: int)

  /** How many vehicles `range(quantity)` yields: none for a quantity of zero or below. */
  function Copies(quantity: int): nat
  {
    if quantity < 0 then 0 else quantity
  }

  function ItemRuns(items: seq<QueryItem>): seq<Run<nat>>
  {
    seq(|items|, p requires 0 <= p < |items| => Run(items[p].length, Copies(items[p].quantity)))
  }

  /** The flat vehicle list: each item's length, repeated, in item order. */
  function Vehicles(items: seq<QueryItem>): seq<nat>
  {
    Expand(ItemRuns(items))
  }

  /** Total number of vehicles asked for. */
  function TotalQuantity(items: seq<QueryItem>): nat
  {
    if items == [] then 0 else Copies(items[0].quantity) + TotalQuantity(items[1..])
  }

  /** Expands a query, extending the list item by item. */
  method ParseVehicleQuery(items: seq<QueryItem>) returns (vehicles: seq<nat>)
    ensures vehicles == Vehicles(items)
  {
    vehicles := [];
    for p := 0 to |items|
      invariant vehicles == Expand(ItemRuns(items)[..p])
    {
      var queryItem := items[p];
      var quantity := queryItem.quantity;
      var copies: seq<nat> := [];
      var n := 0;
      while n < quantity
        invariant copies == Repeat(queryItem.length, Copies(n))
        invariant quantity >= 0 ==> 0 <= n <= quantity
        invariant quantity < 0 ==> n == 0
      {
        copies := copies + [queryItem.length];
        n := n + 1;
        assert Repeat(queryItem.length, n) == Repeat(queryItem.length, n - 1) + [queryItem.length];
      }
      vehicles := vehicles + copies;
      assert ItemRuns(items)[..p + 1] == ItemRuns(items)[..p] + [ItemRuns(items)[p]];
      ExpandSnoc(ItemRuns(items)[..p], ItemRuns(items)[p]);
    }
    assert ItemRuns(items)[..|items|] == ItemRuns(items);
  }

  /** The expanded list holds one vehicle per unit of quantity. */
  lemma {:induction false} VehiclesLength(items: seq<QueryItem>)
    ensures |Vehicles(items)| == TotalQuantity(items)
  {
    if items != [] {
      VehiclesSplit(items, 0);
      assert items[..0] == [];
      assert Vehicles([]) == [];
      VehiclesLength(items[1..]);
    }
  }

  /**
   * Item `p` contributes exactly its quantity of copies of its length, after
   * the vehicles of the items before it and before those of the items after it.
   */
  lemma VehiclesSplit(items: seq<QueryItem>, p: nat)
    requires p < |items|
    ensures Vehicles(items)
         == Vehicles(items[..p]) + Repeat(items[p].length, Copies(items[p].quantity)) + Vehicles(items[p + 1..])
  {
    var rs := ItemRuns(items);
    ExpandSplit(rs, p);
    assert rs[..p] == ItemRuns(items[..p]);
    assert rs[p + 1..] == ItemRuns(items[p + 1..]);
  }

  /** The expansion of the query 10 x 1, 20 x 2, 25 x 1. */
  lemma ThreeItemQuery()
    ensures Vehicles([QueryItem(10, 1), QueryItem(20, 2), QueryItem(25, 1)]) == [10, 20, 20, 25]
  {
  }
}
