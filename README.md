# Inventory import and merge, modelled in Dafny

This project models the core of a small console inventory program for a
store. Products live in a table keyed by unique product name. Each product
has a surrogate id, a price in cents, a quantity in stock and the date it was
last updated.

At startup the program reads an import file of rows
`(name, raw price, raw quantity, raw date)` into an in-memory row list
(`inv_list`). It then merges that list into the table (`populate`):

- the price is the raw text with every non-digit character deleted, so
  `"$12.99"` becomes 1299;
- the quantity is Python's `int()` of the raw text;
- the date is parsed as `MM/DD/YYYY`;
- a new name creates a product with a fresh id;
- a known name is overwritten when its stored date is on or before the row's
  date;
- otherwise the row is discarded.

The add form checks a quantity and a price with `int()` and appends a row
dated today to the row list. It then merges the whole list again. The main
menu lower-cases and strips each answer and runs the action whose key is in
its table (`v`, `e`, `a`, `b`, `q`). Any other answer gets an error message
and the menu asks again.

The modules:

- `Text` (text.dfy): the digit filter behind the price, the decimal value of
  a digit string, and the ASCII parts of `strip()` and `lower()`.
- `PyInt` (pyint.dfy): `int()` on a string. It skips surrounding space,
  tab, line feed, vertical tab, form feed and carriage return, takes one
  optional sign, and reads digits in which single underscores may separate
  digits. Its whitespace is narrower than that of `str.strip()`, which also
  skips the separator controls 28 to 31, so the two strips share one
  definition with the whitespace set as a parameter.
- `Merge` (merge.dfy): `populate` stated on values.
  - `MergeEntry` is one row's write; `Apply` folds it over the parsed rows.
  - `Populated` adds the stop at the first row that does not parse.
  - The lemmas prove the merge rules, the winning row per name, date
    monotonicity, id preservation and idempotence.
- `Inventory` (inventory.dfy): the imperative program.
  - The table is a `Database` object updated in place. `Populate` loops over
    the rows and is proved equal to `Populated`.
  - `ProcessData` reads the file's records.
  - A `Session` holds the table and `inv_list`. `Load` is startup and
    `AddProduct` is one pass of the add form.
- `Menu` (menu.dfy): the key table and the menu loop.

The date parser (`strptime`) is a parameter of type `string -> Option<Date>`.
Dates compare as (year, month, day). "Today" is a string parameter of the add
form.

Three points where the program's behaviour differs from its stated design.
The model follows the code.

- Quantities can be negative. `int()` accepts a sign, and neither the import
  nor the add form rejects a negative result (`PyInt.IntNegativeExample`).
- The price check in the add form accepts a signed number. The stored price
  is then the digit filter of the text, which drops the sign
  (`PyInt.IntDigitFilter`).
- The add form re-merges the whole row list, including every row loaded at
  startup. It does not merge only the new row. `Merge.ApplyIdempotent` proves
  that the effect is the same as merging the new row alone, and
  `Inventory.Session.AddProduct` states exactly that.

## Model

| member | source | states |
|---|---|---|
| Text.DigitFilter | app.py:11 | the filtered price text consists of digits only and is no longer than the raw text |
| Text.DigitFilterAppend | app.py:11 | the filter works character by character: filtering a concatenation concatenates the filtered parts |
| Text.DigitFilterKeepsDigits | app.py:11 | a text of digits only passes through the filter unchanged |
| Text.DigitFilterEmpty | app.py:11 | the filter yields the empty text exactly when the raw text holds no digit |
| Text.DigitFilterIdempotent | app.py:11 | filtering twice is filtering once |
| Text.DigitFilterDollarExample | app.py:55 | "$12.99" filters to "1299", whose value is 1299 cents |
| Text.DigitFilterNoDigitExample | app.py:55 | a price without digits filters to the empty text |
| Text.StripLeftSpec | app.py:87 | a leading strip removes only whitespace, and what remains does not start with whitespace; this holds for any whitespace set |
| Text.StripRightSpec | app.py:87 | a trailing strip removes only whitespace, and what remains does not end with whitespace; this holds for any whitespace set |
| Text.DigitFilterStrip | app.py:150 | stripping whitespace that holds no digit does not change the filtered digits |
| Text.Lower | app.py:87 | lower-casing keeps the length, turns each of A to Z into its lower-case letter, keeps every other character, and leaves no upper-case letter |
| PyInt.LiteralValueDigits | app.py:56 | the value `int()` reads from a literal is the value of its digits alone, underscores skipped |
| PyInt.IntDigitFilter | app.py:144-156 | a text `int()` accepts keeps a digit after the price filter, and the filtered digits spell the magnitude of the number: sign, separators and whitespace are dropped |
| PyInt.DigitsValueIsInt | app.py:23 | `int()` reads a non-empty text of digits as the number the digits spell |
| PyInt.IntNegativeExample | app.py:144 | `int("-3")` is -3: a negative quantity passes the check |
| PyInt.IntPaddedExample | app.py:56 | `int(" 42\n")` is 42: surrounding whitespace is ignored |
| PyInt.IntRejectsPointExample | app.py:143-147 | "12.5" is not an integer and is rejected |
| PyInt.IntRejectsEmptyExample | app.py:143-147 | an empty answer is not an integer and is rejected |
| PyInt.IntRejectsSeparatorExample | app.py:56 | a quantity led by the separator control 28 is not an integer: `int()` does not skip it |
| Merge.DateLeTotalOrder | app.py:61 | the date comparison is a total order on calendar dates |
| Merge.PriceIsInt | app.py:55 | the stored price is the integer `int()` reads from the filtered price text |
| Merge.Entries | app.py:53-57 | the parsed rows keep their order, one entry per row, each carrying the name, filtered price, `int` quantity and parsed date |
| Merge.FirstBad | app.py:49-56 | the import reaches the first row that does not parse, and every row before it parses |
| Merge.MergeEntry | app.py:52-66 | a new name creates exactly one product with the next id and nothing else changes; a known name is overwritten, keeping its id, exactly when its stored date is on or before the row's date; otherwise the table is unchanged |
| Merge.Apply | app.py:49-66 | after the merge the stored names are the old names together with the rows' names |
| Merge.ApplyAppend | app.py:49 | the rows are merged one after another in list order |
| Merge.MergeEntryValid | app.py:20-21 | one merged row keeps ids distinct and below the next id |
| Merge.ApplyKeepsIds | app.py:59-65 | an existing product keeps its id across the merge |
| Merge.ApplyValid | app.py:20-21 | the merge keeps ids distinct and below the next id |
| Merge.ApplyCount | app.py:20-21 | the id counter advances by exactly the number of products created; no product is deleted |
| Merge.MergeEntryDate | app.py:61-64 | one merged row never moves a stored date back, and a row's own name ends up dated no earlier than the row |
| Merge.ApplyDateBounds | app.py:61-64 | after the merge a name's date is no earlier than its old date and no earlier than the date of any of its rows |
| Merge.ApplyDateAttained | app.py:61-64 | after the merge a name's date is its old date or the date of one of its rows, so it is the maximum of these |
| Merge.ApplyLatest | app.py:49-64 | the price, quantity and date stored for a name are those of its last row in input order with the greatest date, when that date is not before the stored one |
| Merge.LatestExists | app.py:52-58 | a name that was not stored and occurs among the rows has such a winning row |
| Merge.ApplyNoLatest | app.py:61-66 | a stored name none of whose rows wins keeps its record exactly as it was |
| Merge.ApplyIdempotent | app.py:155-156 | merging the same rows a second time leaves the table unchanged |
| Merge.ApplyScenario | app.py:52-66 | worked example: a later row for a name overwrites it, an earlier one is ignored, a new name takes the next id |
| Merge.PopulatedComplete | app.py:48-66 | the value-level import `Populated` reports no error exactly when every row parses, and then every row is merged |
| Merge.PopulatedStops | app.py:51-56 | an import stopped by a bad row reports that row's error and keeps the rows before it merged, with no rollback |
| Merge.PopulatedIdempotent | app.py:155-156 | importing the same rows twice gives the same table and error as importing them once |
| Merge.PopulatedMonotone | app.py:61 | no stored date goes back across an import |
| Inventory.Database.constructor | app.py:30-33 | the table opens holding what it already held |
| Inventory.Database.Create | app.py:53-58 | creation under a taken name is refused and changes nothing; otherwise exactly one product is added under the next id |
| Inventory.Database.FindByName | app.py:60 | the lookup by name returns the stored record |
| Inventory.Database.Save | app.py:62-65 | saving writes back exactly that record and nothing else |
| Inventory.Database.CreateOrUpdate | app.py:52-66 | one row's create-or-overwrite leaves the table `MergeEntry` describes |
| Inventory.Database.Populate | app.py:48-66 | the loop leaves the table and the error the value-level import `Populated` gives, and keeps ids valid |
| Inventory.FinishValid | app.py:20-21 | an import keeps ids valid whether it stops early or not |
| Inventory.RecordError | app.py:43-44 | a data record passes the read exactly when it has the four fields the import reads and its date parses; a record that passes can then fail the import only on its quantity |
| Inventory.ProcessData | app.py:36-46 | the header record is skipped; the read succeeds exactly when every later record has a fourth field whose date parses; the rows are the records in order; a failure names the first bad record |
| Inventory.Session.constructor | app.py:225-226 | a session starts with an empty row list that the table has absorbed |
| Inventory.Session.Load | app.py:225-227 | the read fails exactly when the file has no header or some record is short or badly dated, and then nothing changes and the first bad record is reported; otherwise the row list is the records after the header, and the table and error are exactly those of importing it, so startup succeeds exactly when every quantity parses and leaves the table merged and absorbed |
| Inventory.Session.AddProduct | app.py:140-156 | a bad quantity or price is reported in that order and changes nothing; otherwise the row dated today is appended and the table becomes that of merging the new row alone, with the magnitude of the price entered |
| Menu.Lookup | app.py:89-96 | a key selects an action exactly when the table has it, and the action is the one filed under it |
| Menu.Normalize | app.py:87 | the normalised answer holds no upper-case letter and neither starts nor ends with whitespace |
| Menu.Dispatch | app.py:87-89 | an answer selects an action exactly when, normalised, it is one of the five keys |
| Menu.NormalizeIsLowerStripped | app.py:87 | the normalised answer is a stretch of the lower-cased answer, and everything cut away before and after it is whitespace |
| Menu.DispatchSelects | app.py:87-96 | an answer selects an action exactly when the menu table files that action under the normalised answer |
| Menu.DispatchIgnoresCase | app.py:87 | two answers that agree letter for letter once lower-cased select the same action |
| Menu.MenuKeys | app.py:210-216 | exactly v, e, a, b and q select an action: view one, view all, add, backup and quit |
| Menu.DispatchPaddedExample | app.py:87 | " Q" followed by a newline selects quit |
| Menu.DispatchUpperExample | app.py:87 | "V" selects view one |
| Menu.DispatchWordExample | app.py:89-92 | "view" is not a key and selects nothing |
| Menu.MainMenu | app.py:70-97 | the loop stops at the first answer that selects an action and returns it; every earlier answer selected nothing and drew one error message; running out of answers returns no action |

## Left out

- The SQLite store and its ORM are modelled as a map from name to record plus
  an id counter. The uniqueness error becomes a membership test.
- The store coerces the filtered price text to an integer with `int()`. The
  model stores the value of the digits, which `Merge.PriceIsInt` proves is
  the same integer. What the store does with an empty filtered price
  is not visible in the program. So every operation that merges rows
  requires a digit in the price of each row the merge reaches, which means
  the rows before the first bad row (`Merge.StoredPricesHaveDigits`).
  Startup asks this only of a file that reads without error.
- The stored date column can hold NULL. The model's stored dates are always
  dates, since the program only ever writes parsed dates.
- `strptime` with `%m/%d/%Y` is a parameter of the model, a partial function
  onto dates. `datetime.now()` is the add form's `todayText` parameter.
- Reading the CSV file is left out. `ProcessData` takes its records as a
  sequence of field sequences. Fields after the fourth are kept by the
  program but never read by the merge, and the model drops them.
- The backup action writes the fixed header and then the row list as it is.
  It is left out as file output. The view-one and view-all actions are left
  out as display-only reads of the store.
- Console input and output, clearing the screen, and `exit()` are left out.
  The menu reads its answers from a finite sequence, and an exhausted
  sequence stands for end of input.
- The handlers call the menu again when they finish. The menu is modelled as
  one run of its loop up to the first selected action.
- Inventory.Session.AddProduct: models one pass of the add form. The
  re-prompt after a bad quantity or price, and the "add another?" loop, are
  repeated passes of it.
- Merge.Populated: does not model the 64-bit bound of the store's integer
  columns. Writing a price or quantity outside -2^63 to 2^63-1 raises an
  overflow error at that row. That is not a uniqueness error, so it escapes
  the import. The model's prices and quantities are unbounded, so it merges
  such a row where the program stops.
- Inventory.Database.Populate: does not model that 64-bit bound, for the
  same reason.
- Inventory.Session.AddProduct: does not model that 64-bit bound either. For
  a number outside that range that `int()` accepts, the program appends the
  row and then stops in the merge.
- PyInt.Int: does not model the limit on the number of digits `int()`
  converts, 4300 by default from Python 3.11 on. Over it `int()` raises
  ValueError, so the import stops at that row's quantity and the add form
  asks again, while the model reads literals of any length.
- `str.strip()`, `int()` and the digit class `\d` are modelled on ASCII.
  Other Unicode digits and whitespace that Python would accept are left out.
  For example, `str.strip()` also removes the no-break space U+00A0, so the
  answer "\xa0q" selects quit in the program but nothing in the model.
  Upper-case letters outside A to Z in `lower()` are left out as well.
- The error message the menu prints lists v/b/a/q but not e. This is display
  text and is left out.
