/** The rows the reconciliation pipeline works on.

    Money (GrossAOV, ItemPrice, TotalItemCost, PromotionsOnItems, DriverTip) is
    held in integer cents, so the rounding to two decimal places that the
    pipeline applies before comparing amounts is exact and leaves them unchanged.
    A value that may be missing (pandas' NaN) is an Option. */
module Tables {

  datatype Option<+T> = None | Some(value: T) {
    /** The value, or `default` when it is missing (pandas' fillna). */
    function GetOr(default: T): T {
      match this
      case Some(v) => v
      case None => default
    }
  }

  /** A calendar date. */
  datatype Date = Date(year: int, month: int, day: int)

  /** `d` is the same day as `e` or a later one (lexicographic order). */
  predicate OnOrAfter(d: Date, e: Date) {
    || d.year > e.year
    || (d.year == e.year && d.month > e.month)
    || (d.year == e.year && d.month == e.month && d.day >= e.day)
  }

  /** Orders placed before this day are dropped. */
  const Cutoff: Date := Date(2023, 1, 1)

  /** A cell of the order table's Quantity column as it arrives: a number,
      a piece of text that may or may not spell one, or empty. */
  datatype Cell = Number(n: int) | Text(s: string) | Blank

  /** One row of the order table. */
  datatype OrderRecord = OrderRecord(
    primaryKeyAlt: string,
    primaryKeyItem: string,
    orderPlacedDate: Date,
    productPLU: string,
    productName: string,
    quantity: Cell,
    grossAOV: int,
    promotionsOnItems: int,
    driverTip: int)

  /** One row of the item table (only the three columns the join takes). */
  datatype ItemRecord = ItemRecord(
    primaryKeyItem: string,
    itemPrice: Option<int>,
    itemQuantity: Option<int>)

  /** A row of the working table while the columns are being derived: the
      quantity has been coerced to a number, the item columns may still be
      missing, and the two index columns are filled in later. */
  datatype JoinedRow = JoinedRow(
    primaryKeyAlt: string,
    primaryKeyItem: string,
    orderPlacedDate: Date,
    productPLU: string,
    productName: string,
    quantity: Option<int>,
    grossAOV: int,
    promotionsOnItems: int,
    driverTip: int,
    itemPrice: Option<int>,
    itemQuantity: Option<int>,
    totalItemCost: Option<int>,
    primaryKeyIndex: int,
    itemIndex: int)

  /** A row of the item-detail table: the three item columns are always
      present once the missing values have been filled with 0. The quantity
      column is never filled and may stay missing. */
  datatype LineItem = LineItem(
    primaryKeyAlt: string,
    primaryKeyItem: string,
    orderPlacedDate: Date,
    productPLU: string,
    productName: string,
    quantity: Option<int>,
    grossAOV: int,
    promotionsOnItems: int,
    driverTip: int,
    itemPrice: int,
    itemQuantity: int,
    totalItemCost: int,
    primaryKeyIndex: int,
    itemIndex: int)

  /** The order keys of a working table, row by row. */
  function JoinedKeys(rows: seq<JoinedRow>): (keys: seq<string>)
    ensures |keys| == |rows|
    ensures forall i :: 0 <= i < |rows| ==> keys[i] == rows[i].primaryKeyAlt
  {
    seq(|rows|, i requires 0 <= i < |rows| => rows[i].primaryKeyAlt)
  }

  /** The order keys of an item-detail table, row by row. */
  function Keys(table: seq<LineItem>): (keys: seq<string>)
    ensures |keys| == |table|
    ensures forall i :: 0 <= i < |table| ==> keys[i] == table[i].primaryKeyAlt
  {
    seq(|table|, i requires 0 <= i < |table| => table[i].primaryKeyAlt)
  }
}
