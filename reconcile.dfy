/** Discrepancy Reconciler (add_balancing_items).

    For every order the sum of its rows' TotalItemCost is compared with the
    GrossAOV of its first row. Each order where the two differ gets one
    balancing row, made from the order's row with ItemIndex 1, that carries
    the signed difference GrossAOV - sum as its price and its cost. The
    balancing rows are returned; the item-detail table with the balancing
    rows added and sorted by (PrimaryKeyIndex, ItemIndex) is the exported
    result. */
module Reconcile {
  import opened Tables
  import opened Indexing

  const BalancingPLU: string := "x-xx-xxxx-x"
  const BalancingName: string := "Balancing Item"
  /** The ItemIndex of every balancing row. */
  const BalancingIndex: int := 500

  // ---------------------------------------------------------------------
  // Per-order views of a table

  /** The rows of order `k`, in table order. */
  function RowsOf(rows: seq<LineItem>, k: string): seq<LineItem> {
    if rows == [] then []
    else RowsOf(rows[..|rows| - 1], k)
         + (if rows[|rows| - 1].primaryKeyAlt == k then [rows[|rows| - 1]] else [])
  }

  /** The sum of TotalItemCost over the rows of order `k`. */
  function OrderCost(rows: seq<LineItem>, k: string): int {
    if rows == [] then 0
    else OrderCost(rows[..|rows| - 1], k)
         + (if rows[|rows| - 1].primaryKeyAlt == k then rows[|rows| - 1].totalItemCost else 0)
  }

  /** The position of the first row with key `k`. */
  function FirstIndex(keys: seq<string>, k: string): (i: nat)
    requires k in keys
    ensures i < |keys| && keys[i] == k && k !in keys[..i]
  {
    if keys[0] == k then 0
    else
      var i := 1 + FirstIndex(keys[1..], k);
      assert keys[..i] == [keys[0]] + keys[1..][..i - 1];
      i
  }

  /** The GrossAOV of the first row of order `k`. */
  function FirstGrossAOV(table: seq<LineItem>, k: string): int
    requires k in Keys(table)
  {
    table[FirstIndex(Keys(table), k)].grossAOV
  }

  // ---------------------------------------------------------------------
  // Discrepancies and balancing rows

  /** The orders whose summed cost differs from their gross value, each
      mapped to the signed difference GrossAOV - summed cost. */
  function PriceDifferences(table: seq<LineItem>): map<string, int> {
    map k | k in Keys(table) && OrderCost(table, k) != FirstGrossAOV(table, k)
      :: FirstGrossAOV(table, k) - OrderCost(table, k)
  }

  /** The order's template row turned into a balancing row. */
  function BalancingRow(template: LineItem, difference: int): LineItem {
    template.(
      productPLU := BalancingPLU,
      productName := BalancingName,
      itemPrice := difference,
      quantity := Some(1),
      itemQuantity := 1,
      totalItemCost := difference,
      itemIndex := BalancingIndex)
  }

  /** A balancing row for every row with ItemIndex 1 whose order has a
      difference, in table order. */
  function BalancingOf(rows: seq<LineItem>, differences: map<string, int>): seq<LineItem> {
    if rows == [] then []
    else BalancingOf(rows[..|rows| - 1], differences) + BalancingFor(rows[|rows| - 1], differences)
  }

  /** The balancing row one row gives rise to: one when it has ItemIndex 1
      and its order has a difference, none otherwise. */
  function BalancingFor(r: LineItem, differences: map<string, int>): seq<LineItem> {
    if r.itemIndex == 1 && r.primaryKeyAlt in differences
    then [BalancingRow(r, differences[r.primaryKeyAlt])] else []
  }

  /** The rows add_balancing_items returns. */
  function BalancingItems(table: seq<LineItem>): seq<LineItem> {
    BalancingOf(table, PriceDifferences(table))
  }

  /** The balancing row order `k` is due: one made from its first row when
      the order has a difference, none otherwise. */
  function OrderBalancing(table: seq<LineItem>, k: string): seq<LineItem> {
    var differences := PriceDifferences(table);
    if k in differences then [BalancingRow(table[FirstIndex(Keys(table), k)], differences[k])] else []
  }

  predicate IsBalancingRow(b: LineItem) {
    && b.productPLU == BalancingPLU
    && b.productName == BalancingName
    && b.quantity == Some(1)
    && b.itemQuantity == 1
    && b.itemIndex == BalancingIndex
    && b.itemPrice == b.totalItemCost
  }

  // ---------------------------------------------------------------------
  // Lemmas

  /** An order is flagged exactly when its summed cost differs from its
      first gross value; the difference is signed, never 0, and closes the gap. */
  lemma PriceDifferencesFlagged(table: seq<LineItem>, k: string)
    ensures k in PriceDifferences(table) <==> k in Keys(table) && OrderCost(table, k) != FirstGrossAOV(table, k)
    ensures k in PriceDifferences(table) ==>
              PriceDifferences(table)[k] != 0 && OrderCost(table, k) + PriceDifferences(table)[k] == FirstGrossAOV(table, k)
  {
  }

  lemma {:induction false} RowsOfAppend(a: seq<LineItem>, b: seq<LineItem>, k: string)
    ensures RowsOf(a + b, k) == RowsOf(a, k) + RowsOf(b, k)
    decreases |b|
  {
    if b == [] {
      assert a + b == a;
    } else {
      assert (a + b)[..|a + b| - 1] == a + b[..|b| - 1];
      RowsOfAppend(a, b[..|b| - 1], k);
    }
  }

  lemma {:induction false} OrderCostAppend(a: seq<LineItem>, b: seq<LineItem>, k: string)
    ensures OrderCost(a + b, k) == OrderCost(a, k) + OrderCost(b, k)
    decreases |b|
  {
    if b == [] {
      assert a + b == a;
    } else {
      assert (a + b)[..|a + b| - 1] == a + b[..|b| - 1];
      OrderCostAppend(a, b[..|b| - 1], k);
    }
  }

  /** An order's cost only depends on the order's own rows. */
  lemma {:induction false} OrderCostOfRows(rows: seq<LineItem>, k: string)
    ensures OrderCost(rows, k) == OrderCost(RowsOf(rows, k), k)
  {
    if rows != [] {
      var last := rows[|rows| - 1];
      OrderCostOfRows(rows[..|rows| - 1], k);
      var tail := if last.primaryKeyAlt == k then [last] else [];
      OrderCostAppend(RowsOf(rows[..|rows| - 1], k), tail, k);
      if last.primaryKeyAlt == k {
        assert tail[..0] == [];
      }
    }
  }

  /** The rows of an order, counted with their repeats, are the table's rows with that key. */
  lemma {:induction false} RowsOfCounts(rows: seq<LineItem>, k: string)
    ensures forall x :: multiset(RowsOf(rows, k))[x] == if x.primaryKeyAlt == k then multiset(rows)[x] else 0
  {
    if rows != [] {
      RowsOfCounts(rows[..|rows| - 1], k);
      assert rows == rows[..|rows| - 1] + [rows[|rows| - 1]];
    }
  }

  /** Reordering a table changes no order's cost. */
  lemma {:induction false} OrderCostPermutation(s: seq<LineItem>, t: seq<LineItem>, k: string)
    requires multiset(s) == multiset(t)
    ensures OrderCost(s, k) == OrderCost(t, k)
    decreases |s|
  {
    if s == [] {
      assert |t| == |multiset(t)| == 0;
    } else {
      var x := s[|s| - 1];
      var front := s[..|s| - 1];
      assert x in multiset(s);
      var j :| 0 <= j < |t| && t[j] == x;
      var rest := t[..j] + t[j + 1..];
      RemoveOne(t, j);
      RemoveOne(s, |s| - 1);
      assert s[..|s| - 1] + s[|s| - 1 + 1..] == front;
      OrderCostPermutation(front, rest, k);
      OrderCostRemove(t, j, k);
    }
  }

  /** Taking out one row takes out exactly its share of the order's cost. */
  lemma OrderCostRemove(t: seq<LineItem>, j: nat, k: string)
    requires j < |t|
    ensures OrderCost(t, k) == OrderCost(t[..j] + t[j + 1..], k) + (if t[j].primaryKeyAlt == k then t[j].totalItemCost else 0)
  {
    var x := t[j];
    assert t == (t[..j] + [x]) + t[j + 1..];
    OrderCostAppend(t[..j] + [x], t[j + 1..], k);
    OrderCostAppend(t[..j], [x], k);
    OrderCostAppend(t[..j], t[j + 1..], k);
    assert [x][..0] == [];
  }

  lemma RemoveOne<T>(t: seq<T>, j: nat)
    requires j < |t|
    ensures multiset(t[..j] + t[j + 1..]) == multiset(t) - multiset{t[j]}
  {
    assert t == t[..j] + [t[j]] + t[j + 1..];
  }

  lemma FirstIndexUnique(keys: seq<string>, k: string, i: nat)
    requires i < |keys| && keys[i] == k && k !in keys[..i]
    ensures FirstIndex(keys, k) == i
  {
  }

  /** What the row at position `i` adds to order `k`'s balancing rows:
      the order's balancing row when the row is the order's first, nothing otherwise. */
  lemma BalancingForRow(table: seq<LineItem>, i: nat, k: string)
    requires ItemIndexed(table)
    requires i < |table|
    ensures RowsOf(BalancingFor(table[i], PriceDifferences(table)), k)
              == if table[i].primaryKeyAlt == k && k !in Keys(table)[..i] then OrderBalancing(table, k) else []
  {
    var differences := PriceDifferences(table);
    var extra := BalancingFor(table[i], differences);
    ItemIndexIsOne(Keys(table), i);
    if extra != [] {
      assert extra[..0] == [];
    }
    if table[i].primaryKeyAlt == k && k !in Keys(table)[..i] {
      FirstIndexUnique(Keys(table), k, i);
    }
  }

  lemma {:induction false} BalancingOfPrefix(table: seq<LineItem>, n: nat, k: string)
    requires ItemIndexed(table)
    requires n <= |table|
    ensures RowsOf(BalancingOf(table[..n], PriceDifferences(table)), k)
              == if k in Keys(table)[..n] then OrderBalancing(table, k) else []
    decreases n
  {
    var differences := PriceDifferences(table);
    var keys := Keys(table);
    if n == 0 {
      assert table[..0] == [];
    } else {
      BalancingOfPrefix(table, n - 1, k);
      PrefixGrows(table, n - 1);
      var extra := BalancingFor(table[n - 1], differences);
      assert BalancingOf(table[..n], differences) == BalancingOf(table[..n - 1], differences) + extra;
      RowsOfAppend(BalancingOf(table[..n - 1], differences), extra, k);
      BalancingForRow(table, n - 1, k);
      var before := RowsOf(BalancingOf(table[..n - 1], differences), k);
      var here := RowsOf(extra, k);
      PrefixGrows(keys, n - 1);
      if k in keys[..n - 1] {
        assert here == [];
      } else if keys[n - 1] == k {
        assert before == [];
      } else {
        assert before == [] && here == [];
      }
    }
  }

  /** On a table whose ItemIndex column is the running count per order,
      the balancing rows of an order are exactly the one it is due. */
  lemma BalancingRowsOf(table: seq<LineItem>, k: string)
    requires ItemIndexed(table)
    ensures RowsOf(BalancingItems(table), k) == OrderBalancing(table, k)
  {
    BalancingOfPrefix(table, |table|, k);
    assert table[..|table|] == table;
    assert Keys(table)[..|table|] == Keys(table);
  }

  /** Each order has one balancing row when it is flagged and none otherwise. */
  lemma BalancingRowCount(table: seq<LineItem>, k: string)
    requires ItemIndexed(table)
    ensures |RowsOf(BalancingItems(table), k)| == if k in PriceDifferences(table) then 1 else 0
  {
    BalancingRowsOf(table, k);
  }

  /** Every balancing row is a row with ItemIndex 1 of a flagged order,
      with the fixed identity, quantity 1, ItemIndex 500 and the order's
      difference as its price and its cost. */
  lemma {:induction false} BalancingOfShape(rows: seq<LineItem>, differences: map<string, int>)
    ensures forall b :: b in BalancingOf(rows, differences) ==>
              && IsBalancingRow(b)
              && b.primaryKeyAlt in differences
              && b.totalItemCost == differences[b.primaryKeyAlt]
              && exists t :: t in rows && t.itemIndex == 1 && t.primaryKeyAlt in differences && b == BalancingRow(t, differences[t.primaryKeyAlt])
  {
    if rows != [] {
      var front := rows[..|rows| - 1];
      BalancingOfShape(front, differences);
      forall t | t in front ensures t in rows {
        assert rows == front + [rows[|rows| - 1]];
      }
    }
  }

  /** After adding its balancing row, an order's costs sum to its first gross value. */
  lemma Conservation(table: seq<LineItem>, k: string)
    requires ItemIndexed(table)
    requires k in Keys(table)
    ensures OrderCost(table + BalancingItems(table), k) == FirstGrossAOV(table, k)
  {
    var balancing := BalancingItems(table);
    OrderCostAppend(table, balancing, k);
    OrderCostOfRows(balancing, k);
    BalancingRowsOf(table, k);
    if k in PriceDifferences(table) {
      var b := OrderBalancing(table, k);
      assert b[..0] == [];
    }
  }

  // ---------------------------------------------------------------------
  // Sorting by (PrimaryKeyIndex, ItemIndex)

  predicate LessEq(a: LineItem, b: LineItem) {
    || a.primaryKeyIndex < b.primaryKeyIndex
    || (a.primaryKeyIndex == b.primaryKeyIndex && a.itemIndex <= b.itemIndex)
  }

  predicate SortedByIndex(s: seq<LineItem>) {
    forall p, q :: 0 <= p < q < |s| ==> LessEq(s[p], s[q])
  }

  /** In a sorted table every row of an order with an item index below 500
      comes before the order's balancing rows. */
  lemma BalancingRowsLast(s: seq<LineItem>, i: nat, j: nat)
    requires SortedByIndex(s)
    requires i < |s| && j < |s|
    requires s[i].primaryKeyIndex == s[j].primaryKeyIndex
    requires s[i].itemIndex < BalancingIndex && s[j].itemIndex == BalancingIndex
    ensures i < j
  {
  }

  /** The first `n` rows are in order. */
  predicate SortedUpTo(s: seq<LineItem>, n: nat)
    requires n <= |s|
  {
    forall p, q :: 0 <= p < q < n ==> LessEq(s[p], s[q])
  }

  /** Rows 0..i are in order except for row `j`, which is on its way down
      and is no greater than any row after it. */
  predicate Inserting(s: seq<LineItem>, i: nat, j: nat)
    requires j <= i < |s|
  {
    && (forall p, q :: 0 <= p < q <= i && p != j && q != j ==> LessEq(s[p], s[q]))
    && (forall q :: j < q <= i ==> LessEq(s[j], s[q]))
  }

  /** Swapping the row on its way down with the greater row before it
      moves it one place down. */
  lemma SwapStep(s: seq<LineItem>, i: nat, j: nat)
    requires 0 < j <= i < |s|
    requires Inserting(s, i, j) && !LessEq(s[j - 1], s[j])
    ensures Inserting(s[j - 1 := s[j]][j := s[j - 1]], i, j - 1)
  {
  }

  /** Once the row on its way down is in place, rows 0..i are in order. */
  lemma InsertDone(s: seq<LineItem>, i: nat, j: nat)
    requires j <= i < |s|
    requires Inserting(s, i, j) && (j == 0 || LessEq(s[j - 1], s[j]))
    ensures SortedUpTo(s, i + 1)
  {
  }

  /** Sorts in place by (PrimaryKeyIndex, ItemIndex), keeping rows with
      equal indexes in their order. */
  method SortByIndex(a: array<LineItem>)
    modifies a
    ensures SortedByIndex(a[..])
    ensures multiset(a[..]) == multiset(old(a[..]))
  {
    var i := 0;
    while i < a.Length
      invariant 0 <= i <= a.Length
      invariant SortedUpTo(a[..], i)
      invariant multiset(a[..]) == multiset(old(a[..]))
    {
      var j := i;
      while j > 0 && !LessEq(a[j - 1], a[j])
        invariant 0 <= j <= i
        invariant Inserting(a[..], i, j)
        invariant multiset(a[..]) == multiset(old(a[..]))
      {
        ghost var before := a[..];
        a[j - 1], a[j] := a[j], a[j - 1];
        assert a[..] == before[j - 1 := before[j]][j := before[j - 1]];
        SwapStep(before, i, j);
        j := j - 1;
      }
      InsertDone(a[..], i, j);
      i := i + 1;
    }
  }

  /** Any reordering of the table with its balancing rows added holds, per
      order, the order's own rows and the balancing row it is due, and its
      costs sum to the order's first gross value. */
  lemma CombinedPerOrder(table: seq<LineItem>, combined: seq<LineItem>)
    requires ItemIndexed(table)
    requires multiset(combined) == multiset(table + BalancingItems(table))
    ensures forall k :: multiset(RowsOf(combined, k)) == multiset(RowsOf(table, k) + OrderBalancing(table, k))
    ensures forall k :: k in Keys(table) ==> OrderCost(combined, k) == FirstGrossAOV(table, k)
  {
    forall k
      ensures multiset(RowsOf(combined, k)) == multiset(RowsOf(table, k) + OrderBalancing(table, k))
    {
      CombinedRowsOf(table, combined, k);
    }
    forall k | k in Keys(table)
      ensures OrderCost(combined, k) == FirstGrossAOV(table, k)
    {
      Conservation(table, k);
      OrderCostPermutation(combined, table + BalancingItems(table), k);
    }
  }

  lemma CombinedRowsOf(table: seq<LineItem>, combined: seq<LineItem>, k: string)
    requires ItemIndexed(table)
    requires multiset(combined) == multiset(table + BalancingItems(table))
    ensures multiset(RowsOf(combined, k)) == multiset(RowsOf(table, k) + OrderBalancing(table, k))
  {
    var balancing := BalancingItems(table);
    RowsOfPermutation(combined, table + balancing, k);
    RowsOfAppend(table, balancing, k);
    BalancingRowsOf(table, k);
  }

  /** Reordering a table reorders each order's rows and nothing more. */
  lemma RowsOfPermutation(s: seq<LineItem>, t: seq<LineItem>, k: string)
    requires multiset(s) == multiset(t)
    ensures multiset(RowsOf(s, k)) == multiset(RowsOf(t, k))
  {
    RowsOfCounts(s, k);
    RowsOfCounts(t, k);
    forall x ensures multiset(RowsOf(s, k))[x] == multiset(RowsOf(t, k))[x] {
    }
  }

  // ---------------------------------------------------------------------
  // The stage

  /** Returns the balancing rows, and the table with them added and sorted
      by (PrimaryKeyIndex, ItemIndex). */
  method AddBalancingItems(table: seq<LineItem>) returns (balancing: seq<LineItem>, combined: seq<LineItem>)
    ensures balancing == BalancingItems(table)
    ensures SortedByIndex(combined)
    ensures multiset(combined) == multiset(table) + multiset(balancing)
    ensures ItemIndexed(table) ==> forall k :: multiset(RowsOf(combined, k)) == multiset(RowsOf(table, k) + OrderBalancing(table, k))
    ensures ItemIndexed(table) ==> forall k :: k in Keys(table) ==> OrderCost(combined, k) == FirstGrossAOV(table, k)
  {
    balancing := BalancingItems(table);
    var all := table + balancing;
    var a := new LineItem[|all|](i requires 0 <= i < |all| => all[i]);
    assert a[..] == all;
    SortByIndex(a);
    combined := a[..];
    if ItemIndexed(table) {
      CombinedPerOrder(table, combined);
    }
  }
}
