/** Join & Derive: from the order table and the item table to the
    item-detail table (output_deliverect_data).

    The order rows dated on or after the cutoff are left-joined to the item
    rows on PrimaryKeyItem; the quantity is coerced to a number; the total
    cost is price times quantity; the two index columns are assigned; and
    the missing item values are filled with 0. */
module Deliverect {
  import opened Tables
  import opened Numeric
  import opened Indexing

  // ---------------------------------------------------------------------
  // Date filter

  /** The order rows placed on or after the cutoff, in their original order. */
  function KeepFromCutoff(orders: seq<OrderRecord>): seq<OrderRecord> {
    if orders == [] then []
    else (if OnOrAfter(orders[0].orderPlacedDate, Cutoff) then [orders[0]] else [])
         + KeepFromCutoff(orders[1..])
  }

  /** Each order row is kept as often as it occurs when it is dated on or
      after the cutoff, and dropped otherwise. */
  lemma {:induction false} KeepFromCutoffCounts(orders: seq<OrderRecord>)
    ensures forall o :: multiset(KeepFromCutoff(orders))[o]
                          == if OnOrAfter(o.orderPlacedDate, Cutoff) then multiset(orders)[o] else 0
  {
    if orders != [] {
      KeepFromCutoffCounts(orders[1..]);
      assert orders == [orders[0]] + orders[1..];
    }
  }

  /** The filter keeps the relative order of rows: filtering two stretches
      of a table one after the other is filtering the whole. */
  lemma {:induction false} KeepFromCutoffAppend(a: seq<OrderRecord>, b: seq<OrderRecord>)
    ensures KeepFromCutoff(a + b) == KeepFromCutoff(a) + KeepFromCutoff(b)
  {
    if a != [] {
      KeepFromCutoffAppend(a[1..], b);
      assert (a + b)[1..] == a[1..] + b;
    } else {
      assert a + b == b;
    }
  }

  /** A row dated exactly on the cutoff day is kept; one dated the day before is dropped. */
  lemma CutoffBoundary(o: OrderRecord)
    ensures o.orderPlacedDate == Date(2023, 1, 1) ==> KeepFromCutoff([o]) == [o]
    ensures o.orderPlacedDate == Date(2022, 12, 31) ==> KeepFromCutoff([o]) == []
  {
    assert [o][1..] == [];
  }

  // ---------------------------------------------------------------------
  // Left join on PrimaryKeyItem

  /** The item rows with the given key, in item-table order. */
  function MatchingItems(items: seq<ItemRecord>, key: string): seq<ItemRecord> {
    if items == [] then []
    else (if items[0].primaryKeyItem == key then [items[0]] else []) + MatchingItems(items[1..], key)
  }

  /** The first item row with the given key, if any. */
  function LookupItem(items: seq<ItemRecord>, key: string): Option<ItemRecord> {
    if items == [] then None
    else if items[0].primaryKeyItem == key then Some(items[0])
    else LookupItem(items[1..], key)
  }

  predicate UniqueItemKeys(items: seq<ItemRecord>) {
    forall i, j :: 0 <= i < j < |items| ==> items[i].primaryKeyItem != items[j].primaryKeyItem
  }

  /** An order row joined to one item row, or to none. The quantity is
      coerced here; the cost and the indexes are filled in later. */
  function Joined(o: OrderRecord, item: Option<ItemRecord>): JoinedRow {
    JoinedRow(
      o.primaryKeyAlt, o.primaryKeyItem, o.orderPlacedDate, o.productPLU, o.productName,
      ToNumeric(o.quantity), o.grossAOV, o.promotionsOnItems, o.driverTip,
      if item.Some? then item.value.itemPrice else None,
      if item.Some? then item.value.itemQuantity else None,
      None, 0, 0)
  }

  /** One joined row per matching item row. */
  function JoinEach(o: OrderRecord, matches: seq<ItemRecord>): seq<JoinedRow> {
    if matches == [] then []
    else [Joined(o, Some(matches[0]))] + JoinEach(o, matches[1..])
  }

  /** What a left join makes of one order row: a row per match, or a single
      row with missing item values when nothing matches. */
  function JoinOrder(o: OrderRecord, items: seq<ItemRecord>): seq<JoinedRow> {
    var matches := MatchingItems(items, o.primaryKeyItem);
    if matches == [] then [Joined(o, None)] else JoinEach(o, matches)
  }

  function LeftJoin(orders: seq<OrderRecord>, items: seq<ItemRecord>): seq<JoinedRow> {
    if orders == [] then [] else JoinOrder(orders[0], items) + LeftJoin(orders[1..], items)
  }

  /** With unique item keys an order row has at most one match: the one the lookup finds. */
  lemma {:induction false} MatchingItemsUnique(items: seq<ItemRecord>, key: string)
    requires UniqueItemKeys(items)
    ensures MatchingItems(items, key) == match LookupItem(items, key) case Some(it) => [it] case None => []
  {
    if items != [] {
      var rest := items[1..];
      assert UniqueItemKeys(rest) by {
        forall i, j | 0 <= i < j < |rest| ensures rest[i].primaryKeyItem != rest[j].primaryKeyItem {
          assert rest[i] == items[i + 1] && rest[j] == items[j + 1];
        }
      }
      MatchingItemsUnique(rest, key);
      if items[0].primaryKeyItem == key {
        NoMatchAfterUniqueKey(items, key);
      }
    }
  }

  lemma {:induction false} NoMatchAfterUniqueKey(items: seq<ItemRecord>, key: string)
    requires UniqueItemKeys(items) && items != [] && items[0].primaryKeyItem == key
    ensures MatchingItems(items[1..], key) == []
  {
    var rest := items[1..];
    forall j | 0 <= j < |rest| ensures rest[j].primaryKeyItem != key {
      assert rest[j] == items[j + 1];
    }
    NoMatch(rest, key);
  }

  lemma {:induction false} NoMatch(items: seq<ItemRecord>, key: string)
    requires forall j :: 0 <= j < |items| ==> items[j].primaryKeyItem != key
    ensures MatchingItems(items, key) == []
  {
    if items != [] {
      NoMatch(items[1..], key);
    }
  }

  /** With unique item keys the left join keeps every order row exactly
      once, in order, joined to the item row with its key or to none. */
  lemma {:induction false} LeftJoinUniqueKeys(orders: seq<OrderRecord>, items: seq<ItemRecord>)
    requires UniqueItemKeys(items)
    ensures |LeftJoin(orders, items)| == |orders|
    ensures forall i :: 0 <= i < |orders| ==>
              LeftJoin(orders, items)[i] == Joined(orders[i], LookupItem(items, orders[i].primaryKeyItem))
  {
    if orders != [] {
      LeftJoinUniqueKeys(orders[1..], items);
      MatchingItemsUnique(items, orders[0].primaryKeyItem);
      var first := JoinOrder(orders[0], items);
      match LookupItem(items, orders[0].primaryKeyItem) {
        case Some(it) => assert JoinEach(orders[0], [it]) == [Joined(orders[0], Some(it))] + JoinEach(orders[0], []);
        case None =>
      }
      assert first == [Joined(orders[0], LookupItem(items, orders[0].primaryKeyItem))];
      var rest := LeftJoin(orders[1..], items);
      forall i | 0 <= i < |orders|
        ensures LeftJoin(orders, items)[i] == Joined(orders[i], LookupItem(items, orders[i].primaryKeyItem))
      {
        if i > 0 {
          assert LeftJoin(orders, items)[i] == rest[i - 1];
          assert orders[1..][i - 1] == orders[i];
        }
      }
    }
  }

  /** Joining a row to its matches gives one row per match, in match order. */
  lemma {:induction false} JoinEachRows(o: OrderRecord, matches: seq<ItemRecord>)
    ensures |JoinEach(o, matches)| == |matches|
    ensures forall j :: 0 <= j < |matches| ==> JoinEach(o, matches)[j] == Joined(o, Some(matches[j]))
  {
    if matches != [] {
      JoinEachRows(o, matches[1..]);
    }
  }

  /** What one order row becomes, whatever the item table holds: a single
      row with missing item values when no item row has its key, and
      otherwise one row per matching item row, in item-table order. */
  lemma JoinOrderShape(o: OrderRecord, items: seq<ItemRecord>)
    ensures MatchingItems(items, o.primaryKeyItem) == [] ==> JoinOrder(o, items) == [Joined(o, None)]
    ensures MatchingItems(items, o.primaryKeyItem) != [] ==>
              && |JoinOrder(o, items)| == |MatchingItems(items, o.primaryKeyItem)|
              && forall j :: 0 <= j < |JoinOrder(o, items)| ==>
                   JoinOrder(o, items)[j] == Joined(o, Some(MatchingItems(items, o.primaryKeyItem)[j]))
    ensures |JoinOrder(o, items)| >= 1
  {
    JoinEachRows(o, MatchingItems(items, o.primaryKeyItem));
  }

  /** Order row `i`'s block of joined rows sits in the join right after the
      blocks of the rows before it. */
  lemma LeftJoinBlock(orders: seq<OrderRecord>, items: seq<ItemRecord>, i: nat)
    requires i < |orders|
    ensures |LeftJoin(orders[..i], items)| + |JoinOrder(orders[i], items)| <= |LeftJoin(orders, items)|
    ensures LeftJoin(orders, items)[|LeftJoin(orders[..i], items)|..|LeftJoin(orders[..i], items)| + |JoinOrder(orders[i], items)|]
              == JoinOrder(orders[i], items)
  {
    assert orders == orders[..i] + orders[i..];
    LeftJoinAppend(orders[..i], orders[i..], items);
    assert orders[i..][1..] == orders[i + 1..];
  }

  lemma {:induction false} LeftJoinLength(orders: seq<OrderRecord>, items: seq<ItemRecord>)
    ensures |LeftJoin(orders, items)| >= |orders|
  {
    if orders != [] {
      LeftJoinLength(orders[1..], items);
      JoinOrderShape(orders[0], items);
    }
  }

  /** Whatever the item table holds, every order row keeps its own block of
      at least one joined row, in order: row `i`'s block starts after the
      blocks of rows 0..i-1 and is exactly what `JoinOrder` makes of it. */
  lemma {:induction false} LeftJoinKeepsOrders(orders: seq<OrderRecord>, items: seq<ItemRecord>)
    ensures |LeftJoin(orders, items)| >= |orders|
    ensures forall i :: 0 <= i < |orders| ==>
              && |LeftJoin(orders[..i], items)| + |JoinOrder(orders[i], items)| <= |LeftJoin(orders, items)|
              && LeftJoin(orders, items)[|LeftJoin(orders[..i], items)|..|LeftJoin(orders[..i], items)| + |JoinOrder(orders[i], items)|]
                   == JoinOrder(orders[i], items)
  {
    LeftJoinLength(orders, items);
    forall i | 0 <= i < |orders|
      ensures && |LeftJoin(orders[..i], items)| + |JoinOrder(orders[i], items)| <= |LeftJoin(orders, items)|
              && LeftJoin(orders, items)[|LeftJoin(orders[..i], items)|..|LeftJoin(orders[..i], items)| + |JoinOrder(orders[i], items)|]
                   == JoinOrder(orders[i], items)
    {
      LeftJoinBlock(orders, items, i);
    }
  }

  /** The join keeps the order of the order rows. */
  lemma {:induction false} LeftJoinAppend(a: seq<OrderRecord>, b: seq<OrderRecord>, items: seq<ItemRecord>)
    ensures LeftJoin(a + b, items) == LeftJoin(a, items) + LeftJoin(b, items)
  {
    if a != [] {
      LeftJoinAppend(a[1..], b, items);
      assert (a + b)[1..] == a[1..] + b;
    } else {
      assert a + b == b;
    }
  }

  // ---------------------------------------------------------------------
  // Derived columns

  /** A product that is missing when either factor is. */
  function Product(price: Option<int>, quantity: Option<int>): Option<int> {
    if price.Some? && quantity.Some? then Some(price.value * quantity.value) else None
  }

  function WithCost(r: JoinedRow): JoinedRow {
    r.(totalItemCost := Product(r.itemPrice, r.quantity))
  }

  function SetRunIndex(r: JoinedRow, n: int): JoinedRow {
    r.(primaryKeyIndex := n)
  }

  function SetItemIndex(r: JoinedRow, n: int): JoinedRow {
    r.(itemIndex := n)
  }

  function WithRunIndex(rows: seq<JoinedRow>): (r: seq<JoinedRow>)
    ensures |r| == |rows|
  {
    seq(|rows|, i requires 0 <= i < |rows| => SetRunIndex(rows[i], RunIndex(JoinedKeys(rows), i)))
  }

  function WithItemIndex(rows: seq<JoinedRow>): (r: seq<JoinedRow>)
    ensures |r| == |rows|
  {
    seq(|rows|, i requires 0 <= i < |rows| => SetItemIndex(rows[i], ItemIndex(JoinedKeys(rows), i)))
  }

  /** A joined row with its missing price, item quantity and cost set to 0. */
  function Fill(r: JoinedRow): LineItem {
    LineItem(
      r.primaryKeyAlt, r.primaryKeyItem, r.orderPlacedDate, r.productPLU, r.productName,
      r.quantity, r.grossAOV, r.promotionsOnItems, r.driverTip,
      r.itemPrice.GetOr(0), r.itemQuantity.GetOr(0), r.totalItemCost.GetOr(0),
      r.primaryKeyIndex, r.itemIndex)
  }

  /** The item-detail table the whole stage produces. */
  function DeliverectData(orders: seq<OrderRecord>, items: seq<ItemRecord>): seq<LineItem> {
    var joined := LeftJoin(KeepFromCutoff(orders), items);
    var costed := seq(|joined|, i requires 0 <= i < |joined| => WithCost(joined[i]));
    var indexed := WithItemIndex(WithRunIndex(costed));
    seq(|indexed|, i requires 0 <= i < |indexed| => Fill(indexed[i]))
  }

  /** The cost of a row is its price times its quantity, where a missing
      quantity makes the cost 0 (and a missing price already reads as 0). */
  predicate CostIsPriceTimesQuantity(r: LineItem) {
    r.totalItemCost == if r.quantity.Some? then r.itemPrice * r.quantity.value else 0
  }

  /** Row `r` of the item-detail table comes from order row `o` joined to `item`. */
  predicate Describes(r: LineItem, o: OrderRecord, item: Option<ItemRecord>) {
    && r.primaryKeyAlt == o.primaryKeyAlt
    && r.primaryKeyItem == o.primaryKeyItem
    && r.orderPlacedDate == o.orderPlacedDate
    && r.productPLU == o.productPLU
    && r.productName == o.productName
    && r.quantity == ToNumeric(o.quantity)
    && r.grossAOV == o.grossAOV
    && r.promotionsOnItems == o.promotionsOnItems
    && r.driverTip == o.driverTip
    && r.itemPrice == (if item.Some? then item.value.itemPrice.GetOr(0) else 0)
    && r.itemQuantity == (if item.Some? then item.value.itemQuantity.GetOr(0) else 0)
  }

  /** What every item-detail table satisfies: both index columns follow
      the keys, and every cost is price times quantity. */
  lemma DeliverectDataIndexedAndCosted(orders: seq<OrderRecord>, items: seq<ItemRecord>)
    ensures RunIndexed(DeliverectData(orders, items))
    ensures ItemIndexed(DeliverectData(orders, items))
    ensures forall i :: 0 <= i < |DeliverectData(orders, items)| ==>
              CostIsPriceTimesQuantity(DeliverectData(orders, items)[i])
  {
    var joined := LeftJoin(KeepFromCutoff(orders), items);
    var costed := seq(|joined|, i requires 0 <= i < |joined| => WithCost(joined[i]));
    var ran := WithRunIndex(costed);
    var indexed := WithItemIndex(ran);
    var out := DeliverectData(orders, items);
    assert Keys(out) == JoinedKeys(ran) == JoinedKeys(costed);
  }

  /** With unique item keys the table has one row per kept order row, in
      order, carrying the order's columns and the matched item's values
      (0 where the item or its value is missing). */
  lemma DeliverectDataRows(orders: seq<OrderRecord>, items: seq<ItemRecord>)
    requires UniqueItemKeys(items)
    ensures |DeliverectData(orders, items)| == |KeepFromCutoff(orders)|
    ensures forall i :: 0 <= i < |KeepFromCutoff(orders)| ==>
              Describes(DeliverectData(orders, items)[i], KeepFromCutoff(orders)[i],
                        LookupItem(items, KeepFromCutoff(orders)[i].primaryKeyItem))
  {
    LeftJoinUniqueKeys(KeepFromCutoff(orders), items);
  }

  // ---------------------------------------------------------------------
  // The stage as the source runs it: column by column on one table

  /** TotalItemCost = ItemPrice * Quantity, for every row at once. */
  method ComputeTotalItemCost(table: array<JoinedRow>)
    modifies table
    ensures forall i :: 0 <= i < table.Length ==> table[i] == WithCost(old(table[i]))
  {
    forall i | 0 <= i < table.Length {
      table[i] := WithCost(table[i]);
    }
  }

  /** The PrimaryKeyIndex column: a counter that goes up wherever the key
      differs from the previous row's, the first row included. */
  method RunIndexColumn(keys: seq<string>) returns (column: seq<nat>)
    ensures |column| == |keys|
    ensures forall i {:trigger column[i]} :: 0 <= i < |keys| ==> column[i] == RunIndex(keys, i)
  {
    var values := new nat[|keys|];
    var counter, previous := 0, "";
    var i := 0;
    while i < |keys|
      invariant 0 <= i <= |keys|
      invariant forall j {:trigger values[j]} :: 0 <= j < i ==> values[j] == RunIndex(keys, j)
      invariant i > 0 ==> counter == RunIndex(keys, i - 1) && previous == keys[i - 1]
      invariant i == 0 ==> counter == 0
    {
      if i == 0 || keys[i] != previous {
        counter := counter + 1;
      }
      values[i] := counter;
      previous := keys[i];
      i := i + 1;
    }
    column := values[..];
  }

  /** The ItemIndex column: a running count of the rows seen so far for each key. */
  method ItemIndexColumn(keys: seq<string>) returns (column: seq<nat>)
    ensures |column| == |keys|
    ensures forall i :: 0 <= i < |keys| ==> column[i] == ItemIndex(keys, i)
  {
    var values := new nat[|keys|];
    var seen: map<string, nat> := map[];
    var i := 0;
    while i < |keys|
      invariant 0 <= i <= |keys|
      invariant forall j :: 0 <= j < i ==> values[j] == ItemIndex(keys, j)
      invariant forall k :: multiset(keys[..i])[k] == if k in seen then seen[k] else 0
    {
      var count := if keys[i] in seen then seen[keys[i]] else 0;
      values[i] := count + 1;
      seen := seen[keys[i] := count + 1];
      assert keys[..i + 1] == keys[..i] + [keys[i]];
      i := i + 1;
    }
    column := values[..];
  }

  /** Writes the PrimaryKeyIndex column of every row. */
  method SetRunIndexColumn(table: array<JoinedRow>, column: seq<nat>)
    requires |column| == table.Length
    modifies table
    ensures forall i :: 0 <= i < table.Length ==> table[i] == SetRunIndex(old(table[i]), column[i])
  {
    forall i | 0 <= i < table.Length {
      table[i] := SetRunIndex(table[i], column[i]);
    }
  }

  /** Writes the ItemIndex column of every row. */
  method SetItemIndexColumn(table: array<JoinedRow>, column: seq<nat>)
    requires |column| == table.Length
    modifies table
    ensures forall i :: 0 <= i < table.Length ==> table[i] == SetItemIndex(old(table[i]), column[i])
  {
    forall i | 0 <= i < table.Length {
      table[i] := SetItemIndex(table[i], column[i]);
    }
  }

  /** The item-detail table, built as the source builds it: filter, join,
      then one column at a time on a single table. */
  method OutputDeliverectData(orders: seq<OrderRecord>, items: seq<ItemRecord>) returns (output: seq<LineItem>)
    ensures output == DeliverectData(orders, items)
    ensures RunIndexed(output) && ItemIndexed(output)
    ensures forall i :: 0 <= i < |output| ==> CostIsPriceTimesQuantity(output[i])
  {
    var kept := KeepFromCutoff(orders);
    var joined := LeftJoin(kept, items);
    var table := new JoinedRow[|joined|](i requires 0 <= i < |joined| => joined[i]);
    ComputeTotalItemCost(table);
    ghost var costed := table[..];
    assert costed == seq(|joined|, i requires 0 <= i < |joined| => WithCost(joined[i]));
    var keys := seq(table.Length, i requires 0 <= i < table.Length reads table => table[i].primaryKeyAlt);
    assert keys == JoinedKeys(costed);
    var runs := RunIndexColumn(keys);
    SetRunIndexColumn(table, runs);
    ghost var ran := table[..];
    assert ran == WithRunIndex(costed);
    var positions := ItemIndexColumn(keys);
    SetItemIndexColumn(table, positions);
    assert JoinedKeys(ran) == keys;
    assert table[..] == WithItemIndex(ran);
    output := seq(table.Length, i requires 0 <= i < table.Length reads table => Fill(table[i]));
    DeliverectDataIndexedAndCosted(orders, items);
  }
}
