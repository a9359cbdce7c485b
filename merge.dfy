/**
 * The bulk import of the inventory (`populate`) stated on values: each row is
 * parsed, then merged into a product table keyed by unique name. A new name
 * creates a product; a known name overwrites the stored price, quantity and
 * date when the stored date is on or before the row's date, and otherwise the
 * row is discarded. Parsing stops at the first bad row, and the rows before it
 * stay merged.
 */
module Merge {
  import opened Wrappers
  import opened Text
  import PyInt

  /** A calendar date as `strptime` yields it. */
  datatype Date = Date(year: int, month: int, day: int)

  /** Calendar order: by year, then month, then day. */
  predicate DateLe(a: Date, b: Date) {
    a.year < b.year || (a.year == b.year && (a.month < b.month || (a.month == b.month && a.day <= b.day)))
  }

  /** Calendar order is a total order: reflexive, total, antisymmetric and transitive. */
  lemma DateLeTotalOrder(a: Date, b: Date, c: Date)
    ensures DateLe(a, a)
    ensures DateLe(a, b) || DateLe(b, a)
    ensures DateLe(a, b) && DateLe(b, a) ==> a == b
    ensures DateLe(a, b) && DateLe(b, c) ==> DateLe(a, c)
  {
  }

  /** The date parser (`strptime(text, "%m/%d/%Y")`), None where it raises. */
  type DateParser = string -> Option<Date>

  /** One inventory row: product_name, product_price, product_quantity, date_updated. */
  datatype Row = Row(name: string, rawPrice: string, rawQuantity: string, rawDate: string)

  /** A stored product; its name is the key under which the table holds it. */
  datatype Product = Product(id: nat, price: nat, quantity: int, updated: Date)

  /** The product table: unique name to record, and the next surrogate id. */
  datatype Table = Table(products: map<string, Product>, nextId: nat)

  /** Surrogate ids are distinct and below the next id to be handed out. */
  ghost predicate TableValid(t: Table) {
    && (forall n :: n in t.products ==> t.products[n].id < t.nextId)
    && (forall n, m :: n in t.products && m in t.products && n != m ==> t.products[n].id != t.products[m].id)
  }

  /** The values a parsed row writes: name, filtered price, int(quantity), date. */
  datatype Entry = Entry(name: string, price: nat, quantity: int, date: Date)

  /** Why an import stops; `at` is the position of the offending row in the row list. */
  datatype ImportError = MissingHeader | ShortRecord(at: nat) | BadDate(at: nat) | BadQuantity(at: nat)

  /** Both parses a row needs succeed: its date, then its quantity. */
  predicate RowParses(r: Row, parseDate: DateParser) {
    parseDate(r.rawDate).Some? && PyInt.Int(r.rawQuantity).Some?
  }

  /** The error a row raises, date first as the import evaluates it. */
  function RowError(r: Row, at: nat, parseDate: DateParser): (e: Option<ImportError>)
    ensures e.None? <==> RowParses(r, parseDate)
    ensures e.Some? ==> e.value == (if parseDate(r.rawDate).None? then BadDate(at) else BadQuantity(at))
  {
    if parseDate(r.rawDate).None? then Some(BadDate(at))
    else if PyInt.Int(r.rawQuantity).None? then Some(BadQuantity(at))
    else None
  }

  /** The raw price keeps at least one digit after filtering. */
  predicate PriceHasDigit(r: Row) {
    DigitFilter(r.rawPrice) != []
  }

  predicate PricesHaveDigits(rows: seq<Row>) {
    forall i :: 0 <= i < |rows| ==> PriceHasDigit(rows[i])
  }

  /** The stored price: the filtered digits read as a whole number of cents. */
  function Price(raw: string): nat
    requires DigitFilter(raw) != []
  {
    DigitsValue(DigitFilter(raw))
  }

  /**
   * The store reads the filtered price text as an integer with `int()`; the
   * integer it keeps is the value of the digits.
   */
  lemma PriceIsInt(raw: string)
    requires DigitFilter(raw) != []
    ensures PyInt.Int(DigitFilter(raw)) == Some(Price(raw))
  {
    PyInt.DigitsValueIsInt(DigitFilter(raw));
  }

  function EntryOf(r: Row, parseDate: DateParser): Entry
    requires RowParses(r, parseDate) && PriceHasDigit(r)
  {
    Entry(r.name, Price(r.rawPrice), PyInt.Int(r.rawQuantity).value, parseDate(r.rawDate).value)
  }

  predicate AllParse(rows: seq<Row>, parseDate: DateParser) {
    forall i :: 0 <= i < |rows| ==> RowParses(rows[i], parseDate)
  }

  /** The parsed rows, in order. */
  function Entries(rows: seq<Row>, parseDate: DateParser): (es: seq<Entry>)
    requires AllParse(rows, parseDate) && PricesHaveDigits(rows)
    ensures |es| == |rows|
    ensures forall i :: 0 <= i < |rows| ==> es[i] == EntryOf(rows[i], parseDate)
  {
    if rows == [] then []
    else Entries(rows[..|rows| - 1], parseDate) + [EntryOf(rows[|rows| - 1], parseDate)]
  }

  lemma EntriesAppend(rows: seq<Row>, r: Row, parseDate: DateParser)
    requires AllParse(rows, parseDate) && PricesHaveDigits(rows)
    requires RowParses(r, parseDate) && PriceHasDigit(r)
    ensures AllParse(rows + [r], parseDate) && PricesHaveDigits(rows + [r])
    ensures Entries(rows + [r], parseDate) == Entries(rows, parseDate) + [EntryOf(r, parseDate)]
  {
    assert forall i :: 0 <= i < |rows| ==> rows[i] == (rows + [r])[i];
  }

  /** Position of the first row that does not parse, or the row count when all parse. */
  function FirstBad(rows: seq<Row>, parseDate: DateParser): (k: nat)
    ensures k <= |rows|
    ensures AllParse(rows[..k], parseDate)
    ensures k < |rows| ==> !RowParses(rows[k], parseDate)
  {
    if rows == [] || !RowParses(rows[0], parseDate) then 0
    else
      var k := 1 + FirstBad(rows[1..], parseDate);
      assert forall i :: 1 <= i < k ==> rows[..k][i] == rows[1..][..k - 1][i - 1];
      k
  }

  /**
   * One row merged into the table. A new name creates exactly one product with
   * a fresh id and nothing else changes; a known name is overwritten when its
   * stored date is on or before the row's date, keeping its id, and otherwise
   * the table is left exactly as it was.
   */
  function MergeEntry(t: Table, e: Entry): (r: Table)
    ensures r.products.Keys == t.products.Keys + {e.name}
    ensures forall n :: n in t.products && n != e.name ==> r.products[n] == t.products[n]
    ensures e.name !in t.products ==>
      r.products[e.name] == Product(t.nextId, e.price, e.quantity, e.date) && r.nextId == t.nextId + 1
    ensures e.name in t.products && DateLe(t.products[e.name].updated, e.date) ==>
      r.products[e.name] == Product(t.products[e.name].id, e.price, e.quantity, e.date) && r.nextId == t.nextId
    ensures e.name in t.products && !DateLe(t.products[e.name].updated, e.date) ==> r == t
  {
    if e.name !in t.products then
      Table(t.products[e.name := Product(t.nextId, e.price, e.quantity, e.date)], t.nextId + 1)
    else if DateLe(t.products[e.name].updated, e.date) then
      Table(t.products[e.name := t.products[e.name].(price := e.price, quantity := e.quantity, updated := e.date)], t.nextId)
    else t
  }

  /** The names the entries mention. */
  function Names(es: seq<Entry>): set<string> {
    set i | 0 <= i < |es| :: es[i].name
  }

  lemma NamesLast(es: seq<Entry>)
    requires es != []
    ensures Names(es) == Names(es[..|es| - 1]) + {es[|es| - 1].name}
  {
    var init := es[..|es| - 1];
    forall n | n in Names(es) ensures n in Names(init) + {es[|es| - 1].name} {
      var i :| 0 <= i < |es| && es[i].name == n;
      if i < |es| - 1 { assert init[i] == es[i]; }
    }
    forall n | n in Names(init) ensures n in Names(es) {
      var i :| 0 <= i < |init| && init[i].name == n;
      assert es[i] == init[i];
    }
  }

  /**
   * The entries merged in order. No record is ever deleted: the names stored
   * afterwards are the old names plus the entries' names.
   */
  function Apply(t: Table, es: seq<Entry>): (r: Table)
    ensures r.products.Keys == t.products.Keys + Names(es)
  {
    if es == [] then t
    else
      var prev := Apply(t, es[..|es| - 1]);
      NamesLast(es);
      MergeEntry(prev, es[|es| - 1])
  }

  /** A merged row keeps every surrogate id distinct and below the counter. */
  lemma MergeEntryValid(t: Table, e: Entry)
    requires TableValid(t)
    ensures TableValid(MergeEntry(t, e))
  {
  }

  /** Existing records keep their ids. */
  lemma {:induction false} ApplyKeepsIds(t: Table, es: seq<Entry>)
    ensures forall n :: n in t.products ==> Apply(t, es).products[n].id == t.products[n].id
  {
    if es != [] {
      ApplyKeepsIds(t, es[..|es| - 1]);
    }
  }

  /** Ids stay distinct and below the counter. */
  lemma {:induction false} ApplyValid(t: Table, es: seq<Entry>)
    requires TableValid(t)
    ensures TableValid(Apply(t, es))
  {
    if es != [] {
      var init, e := es[..|es| - 1], es[|es| - 1];
      ApplyValid(t, init);
      MergeEntryValid(Apply(t, init), e);
    }
  }

  /** The id counter advances by exactly the number of records created. */
  lemma {:induction false} ApplyCount(t: Table, es: seq<Entry>)
    ensures |Apply(t, es).products| + t.nextId == |t.products| + Apply(t, es).nextId
  {
    if es != [] {
      ApplyCount(t, es[..|es| - 1]);
    }
  }

  lemma ApplyAppend(t: Table, es: seq<Entry>, e: Entry)
    ensures Apply(t, es + [e]) == MergeEntry(Apply(t, es), e)
  {
    assert (es + [e])[..|es|] == es;
  }

  /** For a name stored before and after one merged row, the stored date does not go back. */
  lemma MergeEntryDate(t: Table, e: Entry, n: string)
    requires n in MergeEntry(t, e).products
    ensures n in t.products ==> DateLe(t.products[n].updated, MergeEntry(t, e).products[n].updated)
    ensures e.name == n ==> DateLe(e.date, MergeEntry(t, e).products[n].updated)
    ensures || (n in t.products && MergeEntry(t, e).products[n] == t.products[n])
            || (e.name == n && MergeEntry(t, e).products[n].updated == e.date)
  {
  }

  /**
   * The stored date of a name, after the merge, is never before the date it
   * had and never before the date of any of its rows.
   */
  lemma {:induction false} ApplyDateBounds(t: Table, es: seq<Entry>, n: string)
    requires n in Apply(t, es).products
    ensures n in t.products ==> DateLe(t.products[n].updated, Apply(t, es).products[n].updated)
    ensures forall j :: 0 <= j < |es| && es[j].name == n ==> DateLe(es[j].date, Apply(t, es).products[n].updated)
  {
    if es != [] {
      var init, e := es[..|es| - 1], es[|es| - 1];
      var prev := Apply(t, init);
      var d := Apply(t, es).products[n].updated;
      MergeEntryDate(prev, e, n);
      if n in prev.products {
        ApplyDateBounds(t, init, n);
      }
      forall j | 0 <= j < |es| && es[j].name == n ensures DateLe(es[j].date, d) {
        if j < |es| - 1 {
          assert es[j] == init[j];
          assert n in Names(init);
        }
      }
    }
  }

  /** The stored date of a name, after the merge, is its old date or one of its rows' dates. */
  lemma {:induction false} ApplyDateAttained(t: Table, es: seq<Entry>, n: string)
    requires n in Apply(t, es).products
    ensures || (n in t.products && Apply(t, es).products[n].updated == t.products[n].updated)
            || (exists j :: 0 <= j < |es| && es[j].name == n && es[j].date == Apply(t, es).products[n].updated)
  {
    if es != [] {
      var init, e := es[..|es| - 1], es[|es| - 1];
      var prev := Apply(t, init);
      var d := Apply(t, es).products[n].updated;
      MergeEntryDate(prev, e, n);
      if !(e.name == n && d == e.date) {
        ApplyDateAttained(t, init, n);
        if !(n in t.products && d == t.products[n].updated) {
          var j :| 0 <= j < |init| && init[j].name == n && init[j].date == d;
          assert es[j] == init[j];
        }
      }
    }
  }

  /**
   * Row `k` is the last row, in input order, carrying the greatest date among
   * its name's rows, and that date is not before the date stored for its name.
   */
  ghost predicate IsLatest(t: Table, es: seq<Entry>, k: int) {
    && 0 <= k < |es|
    && (es[k].name in t.products ==> DateLe(t.products[es[k].name].updated, es[k].date))
    && forall j :: 0 <= j < |es| && es[j].name == es[k].name ==>
         DateLe(es[j].date, es[k].date) && (k < j ==> es[j].date != es[k].date)
  }

  lemma LatestOfInit(t: Table, es: seq<Entry>, k: int)
    requires es != [] && IsLatest(t, es, k) && k < |es| - 1
    ensures IsLatest(t, es[..|es| - 1], k)
  {
    var init := es[..|es| - 1];
    assert forall j :: 0 <= j < |init| ==> init[j] == es[j];
  }

  /**
   * The winning row decides the record: after the merge, a name's price,
   * quantity and date are those of its latest row, and its id is unchanged.
   */
  lemma {:induction false} ApplyLatest(t: Table, es: seq<Entry>, k: int)
    requires IsLatest(t, es, k)
    ensures es[k].name in Apply(t, es).products
    ensures Apply(t, es).products[es[k].name].price == es[k].price
    ensures Apply(t, es).products[es[k].name].quantity == es[k].quantity
    ensures Apply(t, es).products[es[k].name].updated == es[k].date
  {
    var init, e := es[..|es| - 1], es[|es| - 1];
    var n := es[k].name;
    var prev := Apply(t, init);
    assert Apply(t, es) == MergeEntry(prev, e);
    NamesLast(es);
    if k < |es| - 1 {
      LatestOfInit(t, es, k);
      ApplyLatest(t, init, k);
      if e.name == n {
        assert e.date != es[k].date && DateLe(e.date, es[k].date);
        assert !DateLe(prev.products[n].updated, e.date);
      }
    } else {
      LatestLastOverrides(t, es);
    }
  }

  /** When the latest row is the last one, the stored date of its name is not after it. */
  lemma LatestLastOverrides(t: Table, es: seq<Entry>)
    requires es != [] && IsLatest(t, es, |es| - 1)
    ensures var n := es[|es| - 1].name; var prev := Apply(t, es[..|es| - 1]);
      n in prev.products ==> DateLe(prev.products[n].updated, es[|es| - 1].date)
  {
    var init, n := es[..|es| - 1], es[|es| - 1].name;
    var prev := Apply(t, init);
    if n in prev.products {
      ApplyDateAttained(t, init, n);
      if !(n in t.products && prev.products[n].updated == t.products[n].updated) {
        var j :| 0 <= j < |init| && init[j].name == n && init[j].date == prev.products[n].updated;
        assert es[j] == init[j];
      }
    }
  }

  /** A latest row of the rows but the last stays latest unless the last row overrides it. */
  lemma LatestExtends(t: Table, es: seq<Entry>, k: int)
    requires es != [] && k < |es| - 1 && IsLatest(t, es[..|es| - 1], k)
    requires es[|es| - 1].name != es[k].name || !DateLe(es[k].date, es[|es| - 1].date)
    ensures IsLatest(t, es, k)
  {
    var init := es[..|es| - 1];
    assert forall j :: 0 <= j < |init| ==> es[j] == init[j];
  }

  /** When the last row updates its name, the last row is that name's latest row. */
  lemma LatestBeforeUpdate(t: Table, es: seq<Entry>, n: string)
    requires es != [] && es[|es| - 1].name == n
    requires n in Apply(t, es[..|es| - 1]).products
    requires DateLe(Apply(t, es[..|es| - 1]).products[n].updated, es[|es| - 1].date)
    ensures IsLatest(t, es, |es| - 1)
  {
    var init := es[..|es| - 1];
    ApplyDateBounds(t, init, n);
    forall j | 0 <= j < |es| && es[j].name == n ensures DateLe(es[j].date, es[|es| - 1].date) {
      if j < |es| - 1 { assert es[j] == init[j]; }
    }
  }

  /** A name that has a latest row among the rows but the last still has one among all rows. */
  lemma LatestPersists(t: Table, es: seq<Entry>, k: int)
    requires es != [] && k < |es| - 1 && IsLatest(t, es[..|es| - 1], k)
    ensures exists k' :: 0 <= k' < |es| && es[k'].name == es[k].name && IsLatest(t, es, k')
  {
    var init, e := es[..|es| - 1], es[|es| - 1];
    var n := es[k].name;
    assert init[k] == es[k];
    ApplyLatest(t, init, k);
    if e.name == n && DateLe(es[k].date, e.date) {
      LatestBeforeUpdate(t, es, n);
    } else {
      LatestExtends(t, es, k);
    }
  }

  /**
   * A stored name none of whose rows wins keeps its record exactly as it was:
   * the discarded rows change nothing.
   */
  lemma {:induction false} ApplyNoLatest(t: Table, es: seq<Entry>, n: string)
    requires n in t.products
    requires forall k :: 0 <= k < |es| && es[k].name == n ==> !IsLatest(t, es, k)
    ensures Apply(t, es).products[n] == t.products[n]
  {
    if es != [] {
      var init, e := es[..|es| - 1], es[|es| - 1];
      var prev := Apply(t, init);
      forall k | 0 <= k < |init| && init[k].name == n ensures !IsLatest(t, init, k) {
        if IsLatest(t, init, k) {
          assert es[k] == init[k];
          LatestPersists(t, es, k);
        }
      }
      ApplyNoLatest(t, init, n);
      if e.name == n && DateLe(prev.products[n].updated, e.date) {
        LatestBeforeUpdate(t, es, n);
      }
    }
  }

  /** A name that was not stored and occurs among the rows has a latest row. */
  lemma {:induction false} LatestExists(t: Table, es: seq<Entry>, n: string)
    requires n !in t.products && n in Names(es)
    ensures exists k :: 0 <= k < |es| && es[k].name == n && IsLatest(t, es, k)
  {
    var init, e := es[..|es| - 1], es[|es| - 1];
    var prev := Apply(t, init);
    NamesLast(es);
    if n in Names(init) {
      LatestExists(t, init, n);
      var k :| 0 <= k < |init| && init[k].name == n && IsLatest(t, init, k);
      assert es[k] == init[k];
      LatestPersists(t, es, k);
    } else {
      assert e.name == n;
      assert forall j :: 0 <= j < |init| ==> es[j] == init[j] && init[j].name != n;
      assert IsLatest(t, es, |es| - 1);
    }
  }

  /** A name with a latest row: the second merge picks the same row again. */
  lemma IdempotentLatest(t: Table, es: seq<Entry>, k: int)
    requires IsLatest(t, es, k)
    ensures Apply(Apply(t, es), es).products[es[k].name] == Apply(t, es).products[es[k].name]
  {
    var t1 := Apply(t, es);
    ApplyLatest(t, es, k);
    assert IsLatest(t1, es, k);
    ApplyLatest(t1, es, k);
    ApplyKeepsIds(t1, es);
  }

  /** A name without a latest row: neither merge touches it. */
  lemma IdempotentNoLatest(t: Table, es: seq<Entry>, n: string)
    requires n in Apply(t, es).products
    requires forall k :: 0 <= k < |es| && es[k].name == n ==> !IsLatest(t, es, k)
    ensures Apply(Apply(t, es), es).products[n] == Apply(t, es).products[n]
  {
    var t1 := Apply(t, es);
    if n !in t.products {
      LatestExists(t, es, n);
    }
    ApplyNoLatest(t, es, n);
    assert forall k :: 0 <= k < |es| && es[k].name == n ==> !IsLatest(t1, es, k);
    ApplyNoLatest(t1, es, n);
  }

  /** One name is unchanged by merging the same entries a second time. */
  lemma ApplyIdempotentAt(t: Table, es: seq<Entry>, n: string)
    requires n in Apply(t, es).products
    ensures Apply(Apply(t, es), es).products[n] == Apply(t, es).products[n]
  {
    if k :| 0 <= k < |es| && es[k].name == n && IsLatest(t, es, k) {
      IdempotentLatest(t, es, k);
    } else {
      IdempotentNoLatest(t, es, n);
    }
  }

  /**
   * Merging the same entries a second time changes nothing: the table is a
   * fixed point of the entries it has absorbed.
   */
  lemma ApplyIdempotent(t: Table, es: seq<Entry>)
    ensures Apply(Apply(t, es), es) == Apply(t, es)
  {
    var t1 := Apply(t, es);
    var t2 := Apply(t1, es);
    forall n | n in t1.products ensures t2.products[n] == t1.products[n] {
      ApplyIdempotentAt(t, es, n);
    }
    assert t2.products == t1.products;
    ApplyCount(t1, es);
  }

  /** What `populate` leaves behind: the table, and the error that stopped it. */
  datatype Outcome = Outcome(table: Table, fault: Option<ImportError>)

  /**
   * Every row the import reaches and merges (those before the first bad row)
   * keeps a digit in its price; rows from the first bad row on are never read
   * for their price.
   */
  predicate StoredPricesHaveDigits(rows: seq<Row>, parseDate: DateParser) {
    PricesHaveDigits(rows[..FirstBad(rows, parseDate)])
  }

  /**
   * A row that parses, at or before the first bad row, comes before it: the
   * import reaches the row, so its price keeps a digit.
   */
  lemma StoredPriceAt(rows: seq<Row>, parseDate: DateParser, i: nat)
    requires StoredPricesHaveDigits(rows, parseDate)
    requires i <= FirstBad(rows, parseDate) && i < |rows| && RowParses(rows[i], parseDate)
    ensures i < FirstBad(rows, parseDate)
    ensures PriceHasDigit(rows[i])
  {
    var k := FirstBad(rows, parseDate);
    assert i < k;
    assert rows[..k][i] == rows[i];
  }

  /** When every row parses, the import reaches them all. */
  lemma StoredPricesAll(rows: seq<Row>, parseDate: DateParser)
    requires AllParse(rows, parseDate)
    ensures StoredPricesHaveDigits(rows, parseDate) <==> PricesHaveDigits(rows)
  {
    FirstBadAt(rows, parseDate, |rows|);
    assert rows[..|rows|] == rows;
  }

  /**
   * The import of a row list: the rows before the first bad row are merged in
   * order, and the bad row's error is reported; nothing is rolled back.
   */
  function Populated(t: Table, rows: seq<Row>, parseDate: DateParser): (o: Outcome)
    requires StoredPricesHaveDigits(rows, parseDate)
  {
    var k := FirstBad(rows, parseDate);
    Outcome(Apply(t, Entries(rows[..k], parseDate)), if k < |rows| then RowError(rows[k], k, parseDate) else None)
  }

  /** The import reports no error exactly when every row parses, and then every row is merged. */
  lemma PopulatedComplete(t: Table, rows: seq<Row>, parseDate: DateParser)
    requires StoredPricesHaveDigits(rows, parseDate)
    ensures Populated(t, rows, parseDate).fault.None? <==> AllParse(rows, parseDate)
    ensures AllParse(rows, parseDate) ==>
      PricesHaveDigits(rows) && Populated(t, rows, parseDate).table == Apply(t, Entries(rows, parseDate))
  {
    var k := FirstBad(rows, parseDate);
    assert rows[..|rows|] == rows;
    if AllParse(rows, parseDate) {
      FirstBadAt(rows, parseDate, |rows|);
    } else {
      assert k < |rows| && !RowParses(rows[k], parseDate);
    }
  }

  /** The first bad row is the one every earlier row parses before. */
  lemma FirstBadAt(rows: seq<Row>, parseDate: DateParser, k: nat)
    requires k <= |rows| && AllParse(rows[..k], parseDate)
    requires k < |rows| ==> !RowParses(rows[k], parseDate)
    ensures FirstBad(rows, parseDate) == k
  {
    var f := FirstBad(rows, parseDate);
    assert forall i :: 0 <= i < k ==> rows[..k][i] == rows[i];
    assert forall i :: 0 <= i < f ==> rows[..f][i] == rows[i];
  }

  /**
   * An import stopped by a bad row reports that row's error and keeps every
   * row before it merged, exactly as an import of those rows alone would:
   * nothing is rolled back.
   */
  lemma PopulatedStops(t: Table, rows: seq<Row>, parseDate: DateParser, k: nat)
    requires StoredPricesHaveDigits(rows, parseDate)
    requires k < |rows| && AllParse(rows[..k], parseDate) && !RowParses(rows[k], parseDate)
    ensures FirstBad(rows, parseDate) == k
    ensures Populated(t, rows, parseDate).fault == RowError(rows[k], k, parseDate)
    ensures Populated(t, rows, parseDate).table == Apply(t, Entries(rows[..k], parseDate))
    ensures StoredPricesHaveDigits(rows[..k], parseDate)
    ensures Populated(t, rows, parseDate).table == Populated(t, rows[..k], parseDate).table
    ensures Populated(t, rows[..k], parseDate).fault.None?
  {
    FirstBadAt(rows, parseDate, k);
    StoredPricesAll(rows[..k], parseDate);
    PopulatedComplete(t, rows[..k], parseDate);
  }

  /**
   * Importing the same rows a second time changes nothing, error or not:
   * the import is idempotent.
   */
  lemma PopulatedIdempotent(t: Table, rows: seq<Row>, parseDate: DateParser)
    requires StoredPricesHaveDigits(rows, parseDate)
    ensures Populated(Populated(t, rows, parseDate).table, rows, parseDate) == Populated(t, rows, parseDate)
  {
    var k := FirstBad(rows, parseDate);
    ApplyIdempotent(t, Entries(rows[..k], parseDate));
  }

  /** The stored date of every name already stored never goes back across an import. */
  lemma PopulatedMonotone(t: Table, rows: seq<Row>, parseDate: DateParser, n: string)
    requires StoredPricesHaveDigits(rows, parseDate) && n in t.products
    ensures n in Populated(t, rows, parseDate).table.products
    ensures DateLe(t.products[n].updated, Populated(t, rows, parseDate).table.products[n].updated)
  {
    var k := FirstBad(rows, parseDate);
    ApplyDateBounds(t, Entries(rows[..k], parseDate), n);
  }

  /**
   * A small import into an empty table: the same name dated later overwrites
   * price and quantity, the same name dated earlier is ignored, a new name
   * takes the next id.
   */
  lemma ApplyScenario()
    ensures
      var d1, d2, d0 := Date(2021, 3, 1), Date(2021, 6, 1), Date(2020, 12, 31);
      var es := [Entry("A", 500, 3, d1), Entry("A", 600, 4, d2), Entry("B", 100, 7, d1), Entry("A", 400, 9, d0)];
      var r := Apply(Table(map[], 1), es);
      && r.products == map["A" := Product(1, 600, 4, d2), "B" := Product(2, 100, 7, d1)]
      && r.nextId == 3
  {
    var d1, d2, d0 := Date(2021, 3, 1), Date(2021, 6, 1), Date(2020, 12, 31);
    var es := [Entry("A", 500, 3, d1), Entry("A", 600, 4, d2), Entry("B", 100, 7, d1), Entry("A", 400, 9, d0)];
    var t0 := Table(map[], 1);
    assert es[..0] == [] && es[..1][..0] == [];
    assert es[..1] == [es[0]] && es[..2][..1] == es[..1];
    assert es[..3][..2] == es[..2] && es[..4][..3] == es[..3] && es[..4] == es;
    var t1 := Apply(t0, es[..1]);
    assert Apply(t0, es[..1][..0]) == t0;
    assert t1 == MergeEntry(t0, es[0]);
    assert t1 == Table(map["A" := Product(1, 500, 3, d1)], 2);
    var t2 := Apply(t0, es[..2]);
    assert t2 == MergeEntry(t1, es[1]);
    assert t2 == Table(map["A" := Product(1, 600, 4, d2)], 2);
    var t3 := Apply(t0, es[..3]);
    assert t3 == MergeEntry(t2, es[2]);
    assert t3 == Table(map["A" := Product(1, 600, 4, d2), "B" := Product(2, 100, 7, d1)], 3);
    assert Apply(t0, es) == MergeEntry(t3, es[3]);
  }
}
