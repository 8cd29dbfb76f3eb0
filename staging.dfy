/**
 * Staging to production: the cleansing of customer, product, transaction
 * and item frames, the incremental selection of new rows, and the loading
 * of a production table. A frame is a sequence of rows; a row maps column
 * names to cells. `str.title()` is a parameter, since its word-boundary
 * rules are not modelled.
 */
module Staging {
  import opened Text
  import opened Rounding

  /** A cell of a frame: a string, a number, or a missing value (NaN/None). */
  datatype Cell = Str(s: string) | Num(x: real) | Null

  type Row = map<string, Cell>
  type Frame = seq<Row>

  // -----------------------------------------------------------------------
  // Cell normalisers (each leaves non-strings alone)

  function StripCell(c: Cell): (r: Cell)
    ensures c.Str? <==> r.Str?
    ensures c.Str? ==> r.s == Strip(c.s)
    ensures !c.Str? ==> r == c
  {
    if c.Str? then Str(Strip(c.s)) else c
  }

  function LowerCell(c: Cell): (r: Cell)
    ensures c.Str? ==> r == Str(Lower(c.s))
    ensures !c.Str? ==> r == c
  {
    if c.Str? then Str(Lower(c.s)) else c
  }

  /** `re.sub(r"\D", "", x)` on strings. */
  function PhoneCell(c: Cell): (r: Cell)
    ensures c.Str? ==> r.Str? && forall k :: 0 <= k < |r.s| ==> IsDigit(r.s[k])
    ensures !c.Str? ==> r == c
  {
    if c.Str? then Str(DigitsOnly(c.s)) else c
  }

  function TitleCell(c: Cell, title: string -> string): Cell {
    if c.Str? then Str(title(c.s)) else c
  }

  /** ASCII lower-casing moves no whitespace, so it keeps a string stripped. */
  lemma LowerKeepsStripped(s: string)
    requires IsStripped(s)
    ensures IsStripped(Lower(s))
  {
  }

  // -----------------------------------------------------------------------
  // Customers

  /** A customer row: the four columns `cleanse_customer_data` rewrites by
      name, and the other columns by name. */
  datatype Customer = Customer(firstName: Cell, lastName: Cell, email: Cell, phone: Cell,
                               others: map<string, Cell>)

  /** Strip every string cell of a set of columns. */
  function StripAll(cols: map<string, Cell>): (r: map<string, Cell>)
    ensures r.Keys == cols.Keys
    ensures forall k :: k in cols ==> r[k] == StripCell(cols[k])
  {
    map k | k in cols :: StripCell(cols[k])
  }

  /** `cleanse_customer_data` on one row: strip every string, then lower-case
      the email, keep only the digits of the phone and title-case the names. */
  function CleanseCustomer(row: Customer, title: string -> string): (r: Customer)
    ensures r.email == LowerCell(StripCell(row.email))
    ensures r.phone == PhoneCell(StripCell(row.phone))
    ensures r.firstName == TitleCell(StripCell(row.firstName), title)
    ensures r.lastName == TitleCell(StripCell(row.lastName), title)
    ensures r.others.Keys == row.others.Keys
    ensures forall k :: k in row.others ==> r.others[k] == StripCell(row.others[k])
  {
    Customer(TitleCell(StripCell(row.firstName), title), TitleCell(StripCell(row.lastName), title),
             LowerCell(StripCell(row.email)), PhoneCell(StripCell(row.phone)), StripAll(row.others))
  }

  predicate StrippedCell(c: Cell) {
    c.Str? ==> IsStripped(c.s)
  }

  ghost predicate AllStripped(cols: map<string, Cell>) {
    forall k :: k in cols ==> StrippedCell(cols[k])
  }

  lemma StripAllStripped(cols: map<string, Cell>)
    ensures AllStripped(StripAll(cols))
  {
  }

  /** What a cleansed customer row looks like: every string stripped, the
      email lower-case, the phone digits only, and non-strings unchanged. */
  lemma CustomerNormalised(row: Customer, title: string -> string)
    requires forall s :: IsStripped(s) ==> IsStripped(title(s))
    ensures var r := CleanseCustomer(row, title);
      && StrippedCell(r.firstName) && StrippedCell(r.lastName)
      && StrippedCell(r.email) && StrippedCell(r.phone)
      && AllStripped(r.others)
      && (r.email.Str? ==> forall i :: 0 <= i < |r.email.s| ==> !IsUpper(r.email.s[i]))
      && (r.phone.Str? ==> forall i :: 0 <= i < |r.phone.s| ==> IsDigit(r.phone.s[i]))
      && (!row.email.Str? ==> r.email == row.email) && (!row.phone.Str? ==> r.phone == row.phone)
      && (forall k :: k in row.others && !row.others[k].Str? ==> r.others[k] == row.others[k])
  {
    StripAllStripped(row.others);
    EmailNormalised(row.email);
    PhoneNormalised(row.phone);
    NameNormalised(row.firstName, title);
    NameNormalised(row.lastName, title);
  }

  lemma EmailNormalised(c: Cell)
    ensures var r := LowerCell(StripCell(c));
      StrippedCell(r) && (r.Str? ==> forall i :: 0 <= i < |r.s| ==> !IsUpper(r.s[i]))
  {
    if c.Str? {
      LowerKeepsStripped(Strip(c.s));
    }
  }

  lemma PhoneNormalised(c: Cell)
    ensures StrippedCell(PhoneCell(StripCell(c)))
  {
    if c.Str? {
      DigitsStripped(DigitsOnly(Strip(c.s)));
    }
  }

  lemma NameNormalised(c: Cell, title: string -> string)
    requires forall s :: IsStripped(s) ==> IsStripped(title(s))
    ensures StrippedCell(TitleCell(StripCell(c), title))
  {
  }

  /** The phone digits are the digits of the original, in their order
      (stripping only removes whitespace, never a digit). */
  lemma PhoneKeepsDigits(pre: string, s: string, post: string)
    requires AllSpace(pre) && AllSpace(post) && IsStripped(s)
    ensures DigitsOnly(Strip(pre + s + post)) == DigitsOnly(pre + s + post)
  {
    StripPadding(pre, s, post);
    NoDigitsInSpace(pre);
    NoDigitsInSpace(post);
    DigitsOfPadded(pre, s, post);
  }

  lemma DigitsOfPadded(pre: string, s: string, post: string)
    requires DigitsOnly(pre) == [] && DigitsOnly(post) == []
    ensures DigitsOnly(pre + s + post) == DigitsOnly(s)
  {
    DigitsOnlyAppend(pre + s, post);
    DigitsOnlyAppend(pre, s);
    assert [] + DigitsOnly(s) + [] == DigitsOnly(s);
  }

  lemma {:induction false} NoDigitsInSpace(s: string)
    requires AllSpace(s)
    ensures DigitsOnly(s) == []
  {
    if s != [] {
      NoDigitsInSpace(s[1..]);
    }
  }

  /** Cleansing a cleansed row again changes nothing, provided that
      title-casing keeps strings stripped and is idempotent. */
  lemma CleanseCustomerIdempotent(row: Customer, title: string -> string)
    requires forall s :: IsStripped(s) ==> IsStripped(title(s))
    requires forall s :: title(title(s)) == title(s)
    ensures CleanseCustomer(CleanseCustomer(row, title), title) == CleanseCustomer(row, title)
  {
    NameIdempotent(row.firstName, title);
    NameIdempotent(row.lastName, title);
    EmailIdempotent(row.email);
    PhoneIdempotent(row.phone);
    StripAllIdempotent(row.others);
  }

  lemma NameIdempotent(c: Cell, title: string -> string)
    requires forall s :: IsStripped(s) ==> IsStripped(title(s))
    requires forall s :: title(title(s)) == title(s)
    ensures var r := TitleCell(StripCell(c), title);
      TitleCell(StripCell(r), title) == r
  {
    if c.Str? {
      StripStripped(title(Strip(c.s)));
    }
  }

  lemma EmailIdempotent(c: Cell)
    ensures var r := LowerCell(StripCell(c));
      LowerCell(StripCell(r)) == r
  {
    if c.Str? {
      EmailNormalised(c);
      StripStripped(Lower(Strip(c.s)));
      LowerIdempotent(Strip(c.s));
    }
  }

  lemma PhoneIdempotent(c: Cell)
    ensures var r := PhoneCell(StripCell(c));
      PhoneCell(StripCell(r)) == r
  {
    if c.Str? {
      var d := DigitsOnly(Strip(c.s));
      DigitsStripped(d);
      StripStripped(d);
      DigitsOnlyIdempotent(Strip(c.s));
    }
  }

  lemma StripAllIdempotent(cols: map<string, Cell>)
    ensures StripAll(StripAll(cols)) == StripAll(cols)
  {
    var r := StripAll(cols);
    forall k | k in r ensures StripCell(r[k]) == r[k] {
      if r[k].Str? { StripStripped(r[k].s); }
    }
    assert StripAll(r) == r;
  }

  function CleanseCustomers(df: seq<Customer>, title: string -> string): (r: seq<Customer>)
    ensures |r| == |df|
    ensures forall i :: 0 <= i < |df| ==> r[i] == CleanseCustomer(df[i], title)
  {
    seq(|df|, i requires 0 <= i < |df| => CleanseCustomer(df[i], title))
  }

  /** Cleansing a cleansed customer frame again changes nothing. */
  lemma CleanseCustomersIdempotent(df: seq<Customer>, title: string -> string)
    requires forall s :: IsStripped(s) ==> IsStripped(title(s))
    requires forall s :: title(title(s)) == title(s)
    ensures CleanseCustomers(CleanseCustomers(df, title), title) == CleanseCustomers(df, title)
  {
    var r := CleanseCustomers(df, title);
    forall i | 0 <= i < |df| ensures CleanseCustomer(r[i], title) == r[i] {
      CleanseCustomerIdempotent(df[i], title);
    }
  }

  // -----------------------------------------------------------------------
  // Products

  datatype PriceCategory = Budget | MidRange | Premium

  /** `price_category`. A missing price compares false with both bounds and
      so lands in Premium. */
  function PriceCategoryOf(price: Cell): (cat: PriceCategory)
    ensures price.Num? ==> (cat == Budget <==> price.x < 50.0)
    ensures price.Num? ==> (cat == MidRange <==> 50.0 <= price.x < 200.0)
    ensures price.Num? ==> (cat == Premium <==> price.x >= 200.0)
    ensures price.Null? ==> cat == Premium
  {
    if price.Num? && price.x < 50.0 then Budget
    else if price.Num? && price.x < 200.0 then MidRange
    else Premium
  }

  function CategoryName(cat: PriceCategory): string {
    match cat
    case Budget => "Budget"
    case MidRange => "Mid-range"
    case Premium => "Premium"
  }

  /** The category only goes up with the price. */
  lemma PriceCategoryMonotone(p1: real, p2: real)
    requires p1 <= p2
    ensures CategoryRank(PriceCategoryOf(Num(p1))) <= CategoryRank(PriceCategoryOf(Num(p2)))
  {
  }

  function CategoryRank(cat: PriceCategory): nat {
    match cat
    case Budget => 0
    case MidRange => 1
    case Premium => 2
  }

  /** `.str.strip()` on a text column: a non-string becomes missing. */
  function StrStripCell(c: Cell): (r: Cell)
    ensures c.Str? ==> r == Str(Strip(c.s))
    ensures !c.Str? ==> r == Null
  {
    if c.Str? then Str(Strip(c.s)) else Null
  }

  /** `.round(2)` on a numeric cell; a missing value stays missing. */
  function RoundCell(c: Cell): (r: Cell)
    ensures c.Num? ==> r == Num(RoundHundredths(c.x))
    ensures !c.Num? ==> r == c
  {
    if c.Num? then Num(RoundHundredths(c.x)) else c
  }

  /** Round one column of a row, when the row has it. */
  function RoundColumn(row: Row, column: string): (r: Row)
    ensures r.Keys == row.Keys
    ensures column in row ==> r[column] == RoundCell(row[column])
    ensures forall k :: k in row && k != column ==> r[k] == row[k]
  {
    if column in row then row[column := RoundCell(row[column])] else row
  }

  /** `cleanse_product_data` on one row, given the names of its text
      columns (price and cost are numeric, so not among them): strip the
      text, round price and cost, and categorise the rounded price. The
      profit margin is not modelled. */
  function CleanseProduct(row: Row, textColumns: set<string>): (r: Row)
    requires "price" in row && "cost" in row
    requires "price" !in textColumns && "cost" !in textColumns
    ensures r.Keys == row.Keys + {"price_category"}
    ensures r["price_category"] == Str(CategoryName(PriceCategoryOf(RoundCell(row["price"]))))
    ensures r["price"] == RoundCell(row["price"]) && r["cost"] == RoundCell(row["cost"])
    ensures forall k :: k in row && k in textColumns && k != "price_category" ==>
      r[k] == StrStripCell(row[k])
    ensures forall k :: k in row && k !in textColumns && k !in {"price", "cost", "price_category"} ==>
      r[k] == row[k]
  {
    var stripped := map k | k in row :: if k in textColumns then StrStripCell(row[k]) else row[k];
    var rounded := RoundColumn(RoundColumn(stripped, "price"), "cost");
    rounded["price_category" := Str(CategoryName(PriceCategoryOf(rounded["price"])))]
  }

  /** Because the price is rounded first, the category boundaries fall half
      a cent early: below 49.995 is Budget, from 199.995 on is Premium. */
  lemma RoundedCategoryBoundaries(price: real)
    ensures PriceCategoryOf(RoundCell(Num(price))) == Budget <==> price < 49.995
    ensures PriceCategoryOf(RoundCell(Num(price))) == Premium <==> price >= 199.995
  {
    RoundAtLeast(price, 5000);
    RoundAtLeast(price, 20000);
  }

  // -----------------------------------------------------------------------
  // Row filters

  /** The row has the column, and it holds a positive number; a missing
      value compares false. */
  predicate Positive(row: Row, column: string) {
    column in row && row[column].Num? && row[column].x > 0.0
  }

  /** `df[df[column] > 0]`: the rows that pass, in their order. */
  function KeepPositive(df: Frame, column: string): (r: Frame)
    ensures |r| <= |df|
    ensures forall i :: 0 <= i < |r| ==> Positive(r[i], column)
    ensures forall row :: row in r <==> row in df && Positive(row, column)
    decreases |df|
  {
    if df == [] then []
    else
      var rest := KeepPositive(df[..|df| - 1], column);
      if Positive(df[|df| - 1], column) then rest + [df[|df| - 1]] else rest
  }

  /** Filtering a concatenation filters each part: the relative order of
      the kept rows is the order they had. */
  lemma {:induction false} KeepPositiveAppend(a: Frame, b: Frame, column: string)
    ensures KeepPositive(a + b, column) == KeepPositive(a, column) + KeepPositive(b, column)
    decreases |b|
  {
    if b == [] {
      assert a + b == a;
    } else {
      assert (a + b)[..|a + b| - 1] == a + b[..|b| - 1];
      KeepPositiveAppend(a, b[..|b| - 1], column);
    }
  }

  lemma {:induction false} KeepPositiveIdempotent(df: Frame, column: string)
    ensures KeepPositive(KeepPositive(df, column), column) == KeepPositive(df, column)
    decreases |df|
  {
    if df != [] {
      var rest := KeepPositive(df[..|df| - 1], column);
      KeepPositiveIdempotent(df[..|df| - 1], column);
      if Positive(df[|df| - 1], column) {
        KeepPositiveAppend(rest, [df[|df| - 1]], column);
        assert [df[|df| - 1]][..0] == [];
      }
    }
  }

  /** `cleanse_transaction_data`: round the totals, then keep the
      transactions whose rounded total is positive. */
  function CleanseTransactions(df: Frame): (r: Frame)
    ensures |r| <= |df|
    ensures forall i :: 0 <= i < |r| ==> WholeCentsAtLeastOne(r[i], "total_amount")
  {
    var r := KeepPositive(RoundRows(df, "total_amount"), "total_amount");
    forall i | 0 <= i < |r| ensures WholeCentsAtLeastOne(r[i], "total_amount") {
      RoundedPositive(df, r[i], "total_amount");
    }
    r
  }

  /** The column holds a positive whole number of cents, hence at least one. */
  predicate WholeCentsAtLeastOne(row: Row, column: string) {
    column in row && row[column].Num?
    && (row[column].x * 100.0).Floor as real == row[column].x * 100.0
    && row[column].x >= 0.01
  }

  /** A row of a rounded frame that passes the positive filter holds at
      least one whole cent. */
  lemma RoundedPositive(df: Frame, row: Row, column: string)
    requires row in RoundRows(df, column) && Positive(row, column)
    ensures WholeCentsAtLeastOne(row, column)
  {
    var i :| 0 <= i < |df| && RoundRows(df, column)[i] == row;
    assert row == RoundColumn(df[i], column);
    var x := df[i][column].x;
    assert row[column].x == RoundHundredths(x);
    RoundPositive(x);
    RoundAtLeast(x, 1);
  }

  /** A column rounded in every row. */
  function RoundRows(df: Frame, column: string): (r: Frame)
    ensures |r| == |df|
    ensures forall i :: 0 <= i < |df| ==> r[i] == RoundColumn(df[i], column)
  {
    seq(|df|, i requires 0 <= i < |df| => RoundColumn(df[i], column))
  }

  /** A transaction with a numeric total is kept, rounded, exactly when its
      total is at least half a cent. */
  lemma TransactionKept(df: Frame, i: nat)
    requires i < |df| && "total_amount" in df[i] && df[i]["total_amount"].Num?
    ensures RoundColumn(df[i], "total_amount") in CleanseTransactions(df)
      <==> df[i]["total_amount"].x >= 0.005
  {
    var rounded := RoundRows(df, "total_amount");
    assert rounded[i] == RoundColumn(df[i], "total_amount");
    RoundPositive(df[i]["total_amount"].x);
  }

  /** The recalculated `line_total` of an item: quantity times unit price
      less the discount, rounded; missing when an operand is missing. */
  function LineTotal(row: Row): (c: Cell)
    ensures c.Num? <==> ItemOperands(row)
    ensures c.Num? ==> -0.005 < c.x - ExactLineTotal(row) <= 0.005
    ensures c.Num? ==> (c.x * 100.0).Floor as real == c.x * 100.0
  {
    if ItemOperands(row) then
      Num(RoundHundredths(ExactLineTotal(row)))
    else Null
  }

  predicate ItemOperands(row: Row) {
    && "quantity" in row && row["quantity"].Num?
    && "unit_price" in row && row["unit_price"].Num?
    && "discount_percentage" in row && row["discount_percentage"].Num?
  }

  function ExactLineTotal(row: Row): real
    requires ItemOperands(row)
  {
    row["quantity"].x * row["unit_price"].x * (1.0 - row["discount_percentage"].x / 100.0)
  }

  /** `cleanse_transaction_items`: keep the items with a positive quantity,
      then recalculate their line totals. */
  function CleanseItems(df: Frame): (r: Frame)
    ensures |r| == |KeepPositive(df, "quantity")|
    ensures forall i :: 0 <= i < |r| ==>
      r[i] == KeepPositive(df, "quantity")[i]["line_total" := LineTotal(KeepPositive(df, "quantity")[i])]
  {
    var kept := KeepPositive(df, "quantity");
    seq(|kept|, i requires 0 <= i < |kept| => kept[i]["line_total" := LineTotal(kept[i])])
  }

  /** Every cleansed item has a positive quantity, and its line total, when
      the operands are present, is within half a cent of the exact value, so
      it is within the 0.01 tolerance the staging consistency check uses. */
  lemma ItemsConsistent(df: Frame)
    ensures forall i :: 0 <= i < |CleanseItems(df)| ==> Positive(CleanseItems(df)[i], "quantity")
    ensures forall i :: 0 <= i < |CleanseItems(df)| && ItemOperands(CleanseItems(df)[i]) ==>
      var row := CleanseItems(df)[i];
      -0.01 <= row["line_total"].x - ExactLineTotal(row) <= 0.01
  {
    var kept := KeepPositive(df, "quantity");
    var r := CleanseItems(df);
    forall i | 0 <= i < |r|
      ensures Positive(r[i], "quantity")
      ensures ItemOperands(r[i]) ==> -0.01 <= r[i]["line_total"].x - ExactLineTotal(r[i]) <= 0.01
    {
      assert Positive(kept[i], "quantity");
      assert r[i]["quantity"] == kept[i]["quantity"];
      if ItemOperands(r[i]) {
        assert ExactLineTotal(r[i]) == ExactLineTotal(kept[i]);
      }
    }
  }

  /** Items are cleansed one by one: cleansing a concatenation cleanses each
      part, so the kept items keep their order. */
  lemma CleanseItemsAppend(a: Frame, b: Frame)
    ensures CleanseItems(a + b) == CleanseItems(a) + CleanseItems(b)
  {
    KeepPositiveAppend(a, b, "quantity");
    var ka, kb := KeepPositive(a, "quantity"), KeepPositive(b, "quantity");
    var r, ra, rb := CleanseItems(a + b), CleanseItems(a), CleanseItems(b);
    assert |r| == |ra| + |rb|;
    forall i | 0 <= i < |r| ensures r[i] == (ra + rb)[i] {
      if i < |ka| {
        assert (ka + kb)[i] == ka[i];
      } else {
        assert (ka + kb)[i] == kb[i - |ka|];
      }
    }
  }

  // -----------------------------------------------------------------------
  // Incremental selection

  /** The id of a row, or a missing value. */
  function IdOf(row: Row, idColumn: string): Cell {
    if idColumn in row then row[idColumn] else Null
  }

  /** `df[~df[idColumn].isin(existing)]`. */
  function NewRows(df: Frame, idColumn: string, existing: set<Cell>): (r: Frame)
    ensures |r| <= |df|
    ensures forall row :: row in r <==> row in df && IdOf(row, idColumn) !in existing
    ensures forall i :: 0 <= i < |r| ==> IdOf(r[i], idColumn) !in existing
    decreases |df|
  {
    if df == [] then []
    else
      var rest := NewRows(df[..|df| - 1], idColumn, existing);
      var last := df[|df| - 1];
      if IdOf(last, idColumn) !in existing then rest + [last] else rest
  }

  /** Selecting from a concatenation selects from each part: the selected
      rows keep their order and their repetitions. */
  lemma {:induction false} NewRowsAppend(a: Frame, b: Frame, idColumn: string, existing: set<Cell>)
    ensures NewRows(a + b, idColumn, existing) == NewRows(a, idColumn, existing) + NewRows(b, idColumn, existing)
    decreases |b|
  {
    if b == [] {
      assert a + b == a;
    } else {
      assert (a + b)[..|a + b| - 1] == a + b[..|b| - 1];
      NewRowsAppend(a, b[..|b| - 1], idColumn, existing);
    }
  }

  /** One row is selected exactly when its id is not already present. */
  lemma NewRowsSingle(row: Row, idColumn: string, existing: set<Cell>)
    ensures NewRows([row], idColumn, existing) == if IdOf(row, idColumn) !in existing then [row] else []
  {
    assert [row][..0] == [];
  }

  function Ids(df: Frame, idColumn: string): (ids: set<Cell>)
    ensures forall row :: row in df ==> IdOf(row, idColumn) in ids
  {
    set row | row in df :: IdOf(row, idColumn)
  }

  /** Selecting against an existing set that already holds the ids of the
      new rows selects nothing: a second incremental run inserts nothing. */
  lemma IncrementalRerun(df: Frame, idColumn: string, existing: set<Cell>)
    ensures NewRows(df, idColumn, existing + Ids(NewRows(df, idColumn, existing), idColumn)) == []
  {
    NothingNew(df, idColumn, existing + Ids(NewRows(df, idColumn, existing), idColumn));
  }

  lemma {:induction false} NothingNew(df: Frame, idColumn: string, existing: set<Cell>)
    requires forall row :: row in df ==> IdOf(row, idColumn) in existing
    ensures NewRows(df, idColumn, existing) == []
    decreases |df|
  {
    if df != [] {
      assert df[|df| - 1] in df;
      assert forall row :: row in df[..|df| - 1] ==> row in df;
      NothingNew(df[..|df| - 1], idColumn, existing);
    }
  }

  // -----------------------------------------------------------------------
  // Loading a production table

  datatype Strategy = Truncate | Incremental
  datatype LoadStatus = Skipped | Success
  datatype LoadResult = LoadResult(inserted: nat, status: LoadStatus)

  class Table {
    var rows: Frame

    constructor (initial: Frame)
      ensures rows == initial
    {
      rows := initial;
    }

    /** `load_to_production`: nothing to do for an empty frame; otherwise
        empty the table first when the strategy says so, then insert. */
    method Load(df: Frame, strategy: Strategy) returns (result: LoadResult)
      modifies this
      ensures df == [] ==> result == LoadResult(0, Skipped) && rows == old(rows)
      ensures df != [] ==> result == LoadResult(|df|, Success)
      ensures df != [] && strategy == Truncate ==> rows == df
      ensures df != [] && strategy == Incremental ==> rows == old(rows) + df
    {
      if df == [] {
        return LoadResult(0, Skipped);
      }
      if strategy == Truncate {
        rows := [];
      }
      rows := rows + df;
      result := LoadResult(|df|, Success);
    }
  }

  /** The incremental step of the transfer: read the ids already present,
      select the new rows and append them. */
  method LoadNew(table: Table, df: Frame, idColumn: string) returns (result: LoadResult)
    modifies table
    ensures table.rows == old(table.rows) + NewRows(df, idColumn, Ids(old(table.rows), idColumn))
    ensures var added := NewRows(df, idColumn, Ids(old(table.rows), idColumn));
      result == if added == [] then LoadResult(0, Skipped) else LoadResult(|added|, Success)
  {
    var existing := Ids(table.rows, idColumn);
    var newRows := NewRows(df, idColumn, existing);
    result := table.Load(newRows, Incremental);
  }

  /** Running the incremental step twice with the same frame inserts
      nothing the second time. */
  method LoadNewTwice(initial: Frame, df: Frame, idColumn: string)
    returns (first: LoadResult, second: LoadResult, rowsAfter: Frame)
    ensures second == LoadResult(0, Skipped)
    ensures rowsAfter == initial + NewRows(df, idColumn, Ids(initial, idColumn))
    ensures first.inserted == |rowsAfter| - |initial|
  {
    var t := new Table(initial);
    first := LoadNew(t, df, idColumn);
    ghost var added := NewRows(df, idColumn, Ids(initial, idColumn));
    assert Ids(initial + added, idColumn) == Ids(initial, idColumn) + Ids(added, idColumn);
    IncrementalRerun(df, idColumn, Ids(initial, idColumn));
    second := LoadNew(t, df, idColumn);
    rowsAfter := t.rows;
  }
}
