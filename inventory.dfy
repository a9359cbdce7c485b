/**
 * The inventory program's state and its imperative operations: the product
 * table as an object updated in place, the `populate` loop over it, the
 * reading of the import file's records (`process_data`), and the session that
 * keeps the in-memory row list (`inv_list`) which startup and the add form
 * feed back into `populate`.
 */
module Inventory {
  import opened Wrappers
  import opened Text
  import PyInt
  import opened Merge

  /** What an attempt to create a product returns. */
  datatype CreateResult = Created(id: nat) | UniquenessViolation

  /** The product table, keyed by unique product name. */
  class Database {
    var products: map<string, Product>
    var nextId: nat

    function Snapshot(): Table
      reads this
    {
      Table(products, nextId)
    }

    ghost predicate Valid()
      reads this
    {
      TableValid(Snapshot())
    }

    /** Opens the table with whatever it already holds. */
    constructor (existing: Table)
      requires TableValid(existing)
      ensures Valid() && Snapshot() == existing
    {
      products := existing.products;
      nextId := existing.nextId;
    }

    /** Creates a product under a fresh id, or reports that the name is taken. */
    method Create(name: string, price: nat, quantity: int, date: Date) returns (result: CreateResult)
      modifies this
      ensures name in old(products) ==> result == UniquenessViolation && products == old(products) && nextId == old(nextId)
      ensures name !in old(products) ==>
        && result == Created(old(nextId))
        && products == old(products)[name := Product(old(nextId), price, quantity, date)]
        && nextId == old(nextId) + 1
    {
      if name in products {
        result := UniquenessViolation;
      } else {
        result := Created(nextId);
        products := products[name := Product(nextId, price, quantity, date)];
        nextId := nextId + 1;
      }
    }

    /** The record stored under a name. */
    method FindByName(name: string) returns (p: Product)
      requires name in products
      ensures p == products[name]
    {
      p := products[name];
    }

    /** Writes back a changed record under its name. */
    method Save(name: string, p: Product)
      requires name in products
      modifies this
      ensures products == old(products)[name := p] && nextId == old(nextId)
    {
      products := products[name := p];
    }

    /**
     * One row's write: try to create the product; when the name is taken,
     * fetch the stored record and overwrite its price, quantity and date if
     * its date is on or before the row's.
     */
    method CreateOrUpdate(e: Entry)
      modifies this
      ensures Snapshot() == MergeEntry(old(Snapshot()), e)
    {
      var created := Create(e.name, e.price, e.quantity, e.date);
      if created.UniquenessViolation? {
        var prev := FindByName(e.name);
        if DateLe(prev.updated, e.date) {
          Save(e.name, prev.(price := e.price, quantity := e.quantity, updated := e.date));
        }
      }
    }

    /**
     * Merges the rows in order: create, and on a name clash overwrite the
     * stored record when its date is on or before the row's. Stops at the
     * first row whose date or quantity does not parse, keeping what was merged.
     */
    method Populate(rows: seq<Row>, parseDate: DateParser) returns (fault: Option<ImportError>)
      requires StoredPricesHaveDigits(rows, parseDate)
      modifies this
      ensures Outcome(Snapshot(), fault) == Populated(old(Snapshot()), rows, parseDate)
      ensures old(Valid()) ==> Valid()
    {
      ghost var start := Snapshot();
      var i := 0;
      while i < |rows|
        invariant i <= |rows|
        invariant i <= FirstBad(rows, parseDate)
        invariant AllParse(rows[..i], parseDate) && PricesHaveDigits(rows[..i])
        invariant Snapshot() == Apply(start, Entries(rows[..i], parseDate))
      {
        var row := rows[i];
        var date := parseDate(row.rawDate);
        if date.None? {
          fault := Some(BadDate(i));
          PopulateStop(start, rows, parseDate, i);
          return;
        }
        var quantity := PyInt.Int(row.rawQuantity);
        if quantity.None? {
          fault := Some(BadQuantity(i));
          PopulateStop(start, rows, parseDate, i);
          return;
        }
        PopulateStep(start, rows, parseDate, i);
        // the filtered price text is read as an integer only when it is stored
        CreateOrUpdate(Entry(row.name, Price(row.rawPrice), quantity.value, date.value));
        i := i + 1;
      }
      fault := None;
      assert rows[..i] == rows;
      PopulatedComplete(start, rows, parseDate);
      FinishValid(start, rows, parseDate);
    }
  }

  /** One more row that parses is merged after the rows before it. */
  lemma PopulateStep(t: Table, rows: seq<Row>, parseDate: DateParser, i: nat)
    requires StoredPricesHaveDigits(rows, parseDate) && i <= FirstBad(rows, parseDate) && i < |rows|
    requires AllParse(rows[..i], parseDate) && PricesHaveDigits(rows[..i]) && RowParses(rows[i], parseDate)
    ensures i < FirstBad(rows, parseDate)
    ensures AllParse(rows[..i + 1], parseDate) && PricesHaveDigits(rows[..i + 1])
    ensures Apply(t, Entries(rows[..i + 1], parseDate))
         == MergeEntry(Apply(t, Entries(rows[..i], parseDate)), EntryOf(rows[i], parseDate))
  {
    assert rows[..i + 1] == rows[..i] + [rows[i]];
    StoredPriceAt(rows, parseDate, i);
    EntriesAppend(rows[..i], rows[i], parseDate);
    ApplyAppend(t, Entries(rows[..i], parseDate), EntryOf(rows[i], parseDate));
  }

  /** A row that does not parse ends the import with the rows before it merged. */
  lemma PopulateStop(t: Table, rows: seq<Row>, parseDate: DateParser, i: nat)
    requires StoredPricesHaveDigits(rows, parseDate) && i < |rows|
    requires AllParse(rows[..i], parseDate) && !RowParses(rows[i], parseDate)
    ensures PricesHaveDigits(rows[..i])
    ensures Populated(t, rows, parseDate) == Outcome(Apply(t, Entries(rows[..i], parseDate)), RowError(rows[i], i, parseDate))
    ensures TableValid(t) ==> TableValid(Populated(t, rows, parseDate).table)
  {
    PopulatedStops(t, rows, parseDate, i);
    FinishValid(t, rows, parseDate);
  }

  /** The merged table keeps its ids valid whenever the starting table did. */
  lemma FinishValid(t: Table, rows: seq<Row>, parseDate: DateParser)
    requires StoredPricesHaveDigits(rows, parseDate)
    ensures TableValid(t) ==> TableValid(Populated(t, rows, parseDate).table)
  {
    var k := FirstBad(rows, parseDate);
    if TableValid(t) {
      ApplyValid(t, Entries(rows[..k], parseDate));
    }
  }

  /** The row `populate` reads from a record of at least four fields; later fields are not read. */
  function RowOf(rec: seq<string>): Row
    requires |rec| >= 4
  {
    Row(rec[0], rec[1], rec[2], rec[3])
  }

  /**
   * The error reading a data record raises: too few fields for `row[3]`, or a
   * bad date. A record that passes has the four fields the import reads, and
   * its row can then fail the import only on its quantity.
   */
  function RecordError(rec: seq<string>, at: nat, parseDate: DateParser): (e: Option<ImportError>)
    ensures e.None? <==> |rec| >= 4 && parseDate(rec[3]).Some?
    ensures e.None? ==> RowError(RowOf(rec), at, parseDate) in {None, Some(BadQuantity(at))}
    ensures e.Some? ==> e == Some(ShortRecord(at)) || e == Some(BadDate(at))
  {
    if |rec| < 4 then Some(ShortRecord(at))
    else if parseDate(rec[3]).None? then Some(BadDate(at))
    else None
  }

  /** The error of data row `i`, which is record `i + 1` of the file. */
  function DataError(records: seq<seq<string>>, i: nat, parseDate: DateParser): Option<ImportError>
    requires i + 1 < |records|
  {
    RecordError(records[i + 1], i, parseDate)
  }

  /** The file reads without error: it has a header, and every data record passes. */
  predicate Readable(records: seq<seq<string>>, parseDate: DateParser) {
    records != [] && forall i :: 0 <= i < |records| - 1 ==> DataError(records, i, parseDate).None?
  }

  /** The rows of a file that reads: data record `i + 1` is row `i`. */
  function DataRows(records: seq<seq<string>>, parseDate: DateParser): seq<Row>
    requires Readable(records, parseDate)
  {
    seq(|records| - 1, i requires 0 <= i < |records| - 1 =>
      assert DataError(records, i, parseDate).None?;
      RowOf(records[i + 1]))
  }

  /**
   * Reads the import file's records: skips the header record, checks that
   * every later record has a date field that parses, and keeps the records in
   * order. An empty file has no header to skip. Record `i + 1` of the file is
   * row `i` of the result, and errors name that row position.
   */
  method ProcessData(records: seq<seq<string>>, parseDate: DateParser) returns (result: Result<seq<Row>, ImportError>)
    ensures records == [] ==> result == Failure(MissingHeader)
    ensures result.Success? <==> Readable(records, parseDate)
    ensures result.Success? ==> result.value == DataRows(records, parseDate)
    ensures result.Success? ==>
      && |result.value| == |records| - 1
      && forall i :: 1 <= i < |records| ==> |records[i]| >= 4 && result.value[i - 1] == RowOf(records[i])
    ensures result.Failure? && records != [] ==>
      exists k :: && 0 <= k < |records| - 1
                  && DataError(records, k, parseDate) == Some(result.error)
                  && forall j :: 0 <= j < k ==> DataError(records, j, parseDate).None?
  {
    if records == [] {
      return Failure(MissingHeader);
    }
    var rows: seq<Row> := [];
    var i := 1;
    while i < |records|
      invariant 1 <= i <= |records|
      invariant |rows| == i - 1
      invariant forall j :: 0 <= j < i - 1 ==> DataError(records, j, parseDate).None?
      invariant forall j :: 1 <= j < i ==> |records[j]| >= 4 && rows[j - 1] == RowOf(records[j])
    {
      var err := DataError(records, i - 1, parseDate);
      if err.Some? {
        return Failure(err.value);
      }
      rows := rows + [RowOf(records[i])];
      assert rows[i - 1] == RowOf(records[i]);
      i := i + 1;
    }
    assert forall j :: 0 <= j < |rows| ==> rows[j] == RowOf(records[j + 1]);
    return Success(rows);
  }

  /** What one pass of the add form does with the answers it was given. */
  datatype AddOutcome = QuantityNotNumeric | PriceNotNumeric | Added

  /**
   * The running program: the product table and the in-memory row list that
   * startup loads and the add form extends. The date parser is fixed for the
   * run.
   */
  class Session {
    const db: Database
    const parseDate: DateParser
    var invList: seq<Row>

    /**
     * Every row of the list parses and merging the whole list again leaves
     * the table as it is: the table has absorbed the list.
     */
    ghost predicate Absorbed()
      reads this, db
    {
      && db.Valid()
      && AllParse(invList, parseDate)
      && PricesHaveDigits(invList)
      && Apply(db.Snapshot(), Entries(invList, parseDate)) == db.Snapshot()
    }

    constructor (db: Database, parseDate: DateParser)
      requires db.Valid()
      ensures this.db == db && this.parseDate == parseDate && invList == []
      ensures Absorbed()
    {
      this.db := db;
      this.parseDate := parseDate;
      invList := [];
    }

    /**
     * Startup: read the import file into the row list, then merge the list
     * into the table. A file that cannot be read (no header, a short record
     * or a bad date) changes nothing and reports its first bad record; once
     * it is read, the outcome is exactly that of the import, so a bad
     * quantity stops the merge part way with the rows before it merged.
     */
    method Load(records: seq<seq<string>>) returns (error: Option<ImportError>)
      requires db.Valid()
      requires Readable(records, parseDate) ==> StoredPricesHaveDigits(DataRows(records, parseDate), parseDate)
      modifies this, db
      ensures db.Valid()
      ensures records == [] ==> error == Some(MissingHeader)
      ensures (error.Some? && !error.value.BadQuantity?) <==>
        records == [] || exists i :: 0 <= i < |records| - 1 && DataError(records, i, parseDate).Some?
      ensures error.Some? && !error.value.BadQuantity? ==>
        && invList == old(invList) && db.Snapshot() == old(db.Snapshot())
        && (records != [] ==>
              exists k :: && 0 <= k < |records| - 1
                          && DataError(records, k, parseDate) == error
                          && forall j :: 0 <= j < k ==> DataError(records, j, parseDate).None?)
      ensures error.None? || error.value.BadQuantity? ==>
        && |invList| == |records| - 1
        && (forall i :: 1 <= i < |records| ==> |records[i]| >= 4 && invList[i - 1] == RowOf(records[i]))
        && StoredPricesHaveDigits(invList, parseDate)
        && Outcome(db.Snapshot(), error) == Populated(old(db.Snapshot()), invList, parseDate)
      ensures error.None? ==> Absorbed() && db.Snapshot() == Apply(old(db.Snapshot()), Entries(invList, parseDate))
    {
      var read := ProcessData(records, parseDate);
      if read.Failure? {
        if records != [] {
          ghost var k :| 0 <= k < |records| - 1 && DataError(records, k, parseDate) == Some(read.error);
        }
        return Some(read.error);
      }
      ghost var before := db.Snapshot();
      invList := read.value;
      forall i | 0 <= i < |invList| ensures parseDate(invList[i].rawDate).Some? {
        assert DataError(records, i, parseDate).None?;
        assert invList[i] == RowOf(records[i + 1]);
      }
      error := db.Populate(invList, parseDate);
      PopulatedComplete(before, invList, parseDate);
      if error.None? {
        ApplyIdempotent(before, Entries(invList, parseDate));
      } else {
        var k := FirstBad(invList, parseDate);
        assert parseDate(invList[k].rawDate).Some?;
      }
    }

    /**
     * One pass of the add form: check the quantity and the price with `int`,
     * append the row, dated today, to the row list, and merge the whole list
     * again. Because the table has absorbed the list, the effect is that of
     * merging the new row alone; the price stored is the magnitude of the
     * number entered.
     */
    method AddProduct(name: string, quantityText: string, priceText: string, todayText: string) returns (outcome: AddOutcome)
      requires Absorbed()
      requires parseDate(todayText).Some?
      modifies this, db
      ensures Absorbed()
      ensures PyInt.Int(quantityText).None? ==> outcome == QuantityNotNumeric
      ensures PyInt.Int(quantityText).Some? && PyInt.Int(priceText).None? ==> outcome == PriceNotNumeric
      ensures outcome != Added ==> invList == old(invList) && db.Snapshot() == old(db.Snapshot())
      ensures PyInt.Int(quantityText).Some? && PyInt.Int(priceText).Some? ==>
        && outcome == Added
        && invList == old(invList) + [Row(name, priceText, quantityText, todayText)]
        && db.Snapshot() == MergeEntry(old(db.Snapshot()),
             Entry(name, PyInt.Abs(PyInt.Int(priceText).value), PyInt.Int(quantityText).value, parseDate(todayText).value))
    {
      var quantity := PyInt.Int(quantityText);
      if quantity.None? {
        return QuantityNotNumeric;
      }
      var price := PyInt.Int(priceText);
      if price.None? {
        return PriceNotNumeric;
      }
      var row := Row(name, priceText, quantityText, todayText);
      PyInt.IntDigitFilter(priceText);
      ghost var before := db.Snapshot();
      ghost var earlier := invList;
      invList := invList + [row];
      EntriesAppend(earlier, row, parseDate);
      StoredPricesAll(invList, parseDate);
      var _ := db.Populate(invList, parseDate);
      PopulatedComplete(before, invList, parseDate);
      ApplyAppend(before, Entries(earlier, parseDate), EntryOf(row, parseDate));
      ApplyIdempotent(before, Entries(invList, parseDate));
      outcome := Added;
    }
  }
}
