# Item pricing: line items and balancing items

A model of the two stages in `_03_combine_dataframes.py` that turn the cleaned
order table and item table into an item-detail table, and then reconcile each
order's item costs against its reported gross value.

- **Join & Derive** (`output_deliverect_data`, module `Deliverect`). Order rows
  dated before 2023-01-01 are dropped. The rest are left-joined to the item
  table on `PrimaryKeyItem`, taking `ItemPrice` and `ItemQuantity`. `Quantity`
  is coerced to a number, with unparsable text becoming missing (module
  `Numeric`). `TotalItemCost` is `ItemPrice * Quantity`, and missing item
  values are then set to 0. The method `OutputDeliverectData` does this as the
  source does: one column at a time on a single array of rows. Each step is
  proved equal to the function `DeliverectData`, which the lemmas are about.
- **Group Indexer** (module `Indexing`, used by the same stage). Two columns are
  computed. `PrimaryKeyIndex` is a run counter over the order key
  `PrimaryKeyAlt`. `ItemIndex` is one more than the number of earlier rows with
  the same key. The loops `RunIndexColumn` and `ItemIndexColumn` compute the
  columns, and they are proved against the functions `RunIndex` and `ItemIndex`.
- **Discrepancy Reconciler** (`add_balancing_items`, module `Reconcile`). Per
  order, the summed `TotalItemCost` is compared with the `GrossAOV` of the
  order's first row. Every order where the two differ gets one balancing row.
  It is a copy of the order's `ItemIndex == 1` row with PLU `x-xx-xxxx-x`,
  name `Balancing Item`, quantity 1, `ItemIndex` 500, and the signed
  difference as both its price and its cost. The balancing rows are appended,
  and the whole table is sorted in place by `(PrimaryKeyIndex, ItemIndex)`.
  `AddBalancingItems` returns two things. `balancing` is what the source
  function returns. `combined` is the sorted table, which the source only
  writes to a file.

Money is held as integer cents. The rounding to two decimal places that the
source applies before comparing amounts is therefore the identity, and
conservation holds exactly. A value that may be missing is an `Option`.

The first row gets `PrimaryKeyIndex` 1, not 0. The code computes
`cumsum(mask) + 1` and then subtracts 1, and the mask is true on the first row,
because `shift()` leaves nothing to compare it with. So the column is 1, 1, 2,
... The model follows the code. A zero-based reading of the same column would
be `RunIndex - 1`.

## Model

| member | source | states |
|---|---|---|
| `Deliverect.KeepFromCutoffCounts` | _03_combine_dataframes.py:26-27 | Every order row dated on or after 2023-01-01 is kept exactly as many times as it occurs, and every earlier row is dropped |
| `Deliverect.KeepFromCutoffAppend` | _03_combine_dataframes.py:26-27 | The date filter keeps relative order: filtering a concatenation gives the filtered parts concatenated |
| `Deliverect.CutoffBoundary` | _03_combine_dataframes.py:26-27 | A row dated 2023-01-01 is kept; a row dated 2022-12-31 is dropped |
| `Deliverect.JoinEachRows` | _03_combine_dataframes.py:30 | An order row joined to its matching item rows gives one row per match, in item-table order, each carrying that item's price and quantity |
| `Deliverect.JoinOrderShape` | _03_combine_dataframes.py:30 | Whatever the item table holds, an order row with no matching item becomes one row with missing item values, and an order row with matches becomes one row per match carrying that match's values |
| `Deliverect.LeftJoinBlock` | _03_combine_dataframes.py:30 | Order row i's block of joined rows sits in the join directly after the blocks of order rows 0..i-1 |
| `Deliverect.LeftJoinKeepsOrders` | _03_combine_dataframes.py:30 | Whatever the item table holds, the join has at least as many rows as there are order rows. The join is the blocks of the order rows in order, and each block is what that order row becomes |
| `Deliverect.LeftJoinUniqueKeys` | _03_combine_dataframes.py:30 | With unique item keys, row i of the join is order row i with the matching item's price and quantity, or with missing ones when no item matches |
| `Deliverect.LeftJoinAppend` | _03_combine_dataframes.py:30 | The join keeps the order of the order rows: joining a concatenation gives the joined parts concatenated |
| `Numeric.ParseIntRoundTrip` | _03_combine_dataframes.py:31 | Every whole number written in decimal coerces back to itself |
| `Numeric.ParseIntRejectsNonDigit` | _03_combine_dataframes.py:31 | Text containing a character that is neither a digit nor a leading sign coerces to missing |
| `Numeric.ToNumericTextAgrees` | _03_combine_dataframes.py:31 | A quantity given as the text of a number coerces to that number; an empty text coerces to missing |
| `Deliverect.DeliverectDataIndexedAndCosted` | _03_combine_dataframes.py:34-62 | In the item-detail table both index columns follow the order keys, and every cost is price times quantity, or 0 when the quantity is missing |
| `Deliverect.DeliverectDataRows` | _03_combine_dataframes.py:26-62 | With unique item keys the table has one row per kept order row, in order. Each row carries the order's columns, the coerced quantity and the matched item's price and quantity, with 0 for a missing item or value |
| `Deliverect.ComputeTotalItemCost` | _03_combine_dataframes.py:34 | Each row's cost becomes its price times its quantity, and is missing when either is missing |
| `Deliverect.RunIndexColumn` | _03_combine_dataframes.py:37-39 | The counter loop's column is the run index of every row |
| `Deliverect.SetRunIndexColumn` | _03_combine_dataframes.py:38-39 | Only the PrimaryKeyIndex field of every row changes, and it becomes the column's value |
| `Deliverect.ItemIndexColumn` | _03_combine_dataframes.py:42 | The per-key counting loop's column is the item index of every row |
| `Deliverect.SetItemIndexColumn` | _03_combine_dataframes.py:42 | Only the ItemIndex field of every row changes, and it becomes the column's value |
| `Deliverect.OutputDeliverectData` | _03_combine_dataframes.py:16-67 | The column-by-column stage produces the item-detail table. Both of its index columns follow the keys, and its costs are price times quantity |
| `Indexing.RunIndexFirst` | _03_combine_dataframes.py:37-39 | The first row's PrimaryKeyIndex is 1 |
| `Indexing.RunIndexAdjacent` | _03_combine_dataframes.py:37-39 | Between adjacent rows the index stays the same when the key is equal, and goes up by exactly 1 when the key differs |
| `Indexing.RunIndexMonotone` | _03_combine_dataframes.py:37-39 | The index never decreases down the table |
| `Indexing.RunIndexSameRun` | _03_combine_dataframes.py:37-39 | Two rows share an index if and only if the key does not change anywhere between them |
| `Indexing.RunIndexBounds` | _03_combine_dataframes.py:37-39 | Row i's index lies between 1 and i + 1 |
| `Indexing.RunIndexSameKey` | _03_combine_dataframes.py:37-39 | On a table grouped into contiguous runs, two rows share an index if and only if they share a key |
| `Indexing.RunIndexIsRank` | _03_combine_dataframes.py:37-39 | On a grouped table, a row's index is the number of distinct keys seen up to and including that row |
| `Indexing.ItemIndexIsOne` | _03_combine_dataframes.py:42 | A row's item index is 1 if and only if no earlier row has its key |
| `Indexing.ItemIndexIncreases` | _03_combine_dataframes.py:42 | Later rows with the same key get strictly larger item indexes |
| `Indexing.ItemIndexInRun` | _03_combine_dataframes.py:37-42 | On a grouped table the item index goes up by 1 along a run, and is back to 1 wherever the key changes or PrimaryKeyIndex increments |
| `Indexing.IndexPairsUnique` | _03_combine_dataframes.py:37-42 | On a grouped table no two rows carry the same (PrimaryKeyIndex, ItemIndex) pair |
| `Reconcile.FirstIndex` | _03_combine_dataframes.py:80 | The position found holds the key, and no earlier position does |
| `Reconcile.PriceDifferencesFlagged` | _03_combine_dataframes.py:77-94 | An order is flagged if and only if its summed cost differs from its first GrossAOV. Its difference is never 0, and adding it to the summed cost gives the GrossAOV |
| `Reconcile.OrderCostOfRows` | _03_combine_dataframes.py:77 | An order's summed cost depends only on that order's own rows |
| `Reconcile.RowsOfCounts` | _03_combine_dataframes.py:97 | The rows selected for an order are, with their repeats, exactly the table's rows with that key |
| `Reconcile.RowsOfAppend` | _03_combine_dataframes.py:115 | Selecting an order's rows from a concatenation gives the selections from each part, concatenated |
| `Reconcile.OrderCostAppend` | _03_combine_dataframes.py:115 | An order's summed cost over a concatenation is the sum over the parts |
| `Reconcile.OrderCostPermutation` | _03_combine_dataframes.py:115-118 | Reordering the rows of a table changes no order's summed cost |
| `Reconcile.RowsOfPermutation` | _03_combine_dataframes.py:115-118 | Reordering a table reorders each order's rows and adds or loses none |
| `Reconcile.CombinedPerOrder` | _03_combine_dataframes.py:97-118 | In any reordering of the table plus its balancing rows, each order holds its own rows and the balancing row it is due, and its costs sum to its first GrossAOV |
| `Reconcile.BalancingRowsOf` | _03_combine_dataframes.py:97-112 | When ItemIndex is the per-order running count, the balancing rows of an order are exactly one row made from its first row if it is flagged, and none otherwise |
| `Reconcile.BalancingRowCount` | _03_combine_dataframes.py:97-112 | Each flagged order has exactly one balancing row, and each other order has none |
| `Reconcile.BalancingOfShape` | _03_combine_dataframes.py:100-112 | Every balancing row copies an ItemIndex-1 row of a flagged order, with PLU x-xx-xxxx-x, name Balancing Item, quantity 1, item quantity 1, ItemIndex 500, and the order's difference as both price and cost |
| `Reconcile.Conservation` | _03_combine_dataframes.py:77-115 | After the balancing rows are appended, every order's costs sum to its first GrossAOV |
| `Reconcile.BalancingRowsLast` | _03_combine_dataframes.py:118 | In the sorted table, every row of an order with ItemIndex below 500 comes before the order's balancing rows |
| `Reconcile.SortByIndex` | _03_combine_dataframes.py:118 | The in-place sort leaves the rows ascending by (PrimaryKeyIndex, ItemIndex), as a permutation of the rows it started with |
| `Reconcile.AddBalancingItems` | _03_combine_dataframes.py:72-126 | It returns the balancing rows. The combined table is sorted and is exactly the original rows plus the balancing rows. Per order it holds the order's rows and its due balancing row, and each order's costs sum to the order's first GrossAOV |

## Left out

- Reading the two input tables from earlier stages (_03_combine_dataframes.py:12-14, 19-20) is not modelled. They are parameters of `OutputDeliverectData` instead.
- The `sys.path` change at line 9 is not modelled, and neither are the module-level calls at lines 70 and 128.
- The CSV exports at lines 65 and 124 are file output. They are not modelled.
- `column_name_sorter` (line 121) only reorders columns and is not part of this model. Records have a fixed field order, so nothing of it is modelled.
- The float casts at lines 45-47 are not modelled. Neither is the string round-trip at lines 50-57, where each number is turned into text, an empty text is replaced by 0, and the text is parsed back into a number. Together with the fills at lines 60-62 these are modelled as one step: a missing value becomes 0.
- The binary floating-point rounding at lines 86-87 is not modelled. Amounts are integer cents, so the rounding is exact.
- `Numeric.ParseInt`: covers only whole decimal numbers with an optional sign. It does not cover the decimals, exponents, surrounding whitespace or special values that pandas' `to_numeric` also accepts, so the model coerces such text to missing.
- Missing values in `PrimaryKeyAlt`, `GrossAOV`, `PromotionsOnItems` or `DriverTip` are not modelled; these columns are always present. The order table's other columns are not modelled either, because the stages only carry them along.
- A missing `PrimaryKeyItem` is not modelled. Every key is a string, so the model cannot show pandas' merge at line 30 pairing a missing order key with missing item keys.
- A missing `OrderPlacedDate` is not modelled. Every date is present, so the model does not describe the comparison at line 27 on a missing date.
- `OutputDeliverectData` returns only the item-detail table. It does not return the unchanged `order_df` and `item_df`, which line 67 also returns. The caller already holds them as its inputs.
- `Deliverect.LeftJoinUniqueKeys`: gives the row-for-row shape only when item keys are unique. With repeated item keys an order row becomes several rows, one per match. That general case is stated block by block in `LeftJoinKeepsOrders` and `JoinOrderShape`.
- `AddBalancingItems`: the `PriceDifference` column that the merge at line 103 gives the returned rows is not modelled. On every balancing row it equals `ItemPrice` and `TotalItemCost`.
- `Reconcile.SortByIndex`: states sortedness and permutation, but not the order of rows with equal (PrimaryKeyIndex, ItemIndex). The model's insertion sort happens to keep their original order, but the contract does not say so.
- `Reconcile.BalancingRowsLast`: relies on 500 exceeding every ordinary ItemIndex, which holds only for orders with fewer than 500 rows. It is stated for rows whose ItemIndex is below 500.
