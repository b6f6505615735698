# PriceMachine in Dafny

A verified model of the `PriceMachine` class of `project.py`. The class
collects grocery price lists, stored as CSV files, from one catalogue
directory. It works out which columns hold the product name, the price and
the weight from each file's header row, and it normalises every data row
into a record. Each record has a price per kilogram. The class can search
the records by product name and export all of them as a numbered table.

Layout, one module per component:

- `wrappers.dfy` (`Wrappers`): `Option` and `Result`.
- `text.dfy` (`Text`): the string operations the class uses.
  - `str.lower` is modelled character by character: ASCII `A`–`Z` and the Cyrillic capitals U+0400–U+042F, the capitals at the start of the Cyrillic block.
  - The substring test `a in b` and `str.endswith` are modelled too.
- `records.dfy` (`Records`): the record and its price per kilogram.
- `columns.dfy` (`Columns`): the header synonym lists and the "last header of each role wins" resolution, as functions.
- `loading.dfy` (`Loading`): what loading a directory produces, as functions of an abstract directory listing.
  - Which files are read.
  - How each row becomes a record.
  - Where an error stops the scan.
- `sorting.dfy` (`Sorting`): Python's stable `sorted(..., key=price_per_kg)`.
  - It is an insertion sort over sequences.
  - Its specification: sorted, a permutation, and, for every price per kilogram, the tied records keep their input order.
  - A lemma: such a result is unique.
- `search.dfy` (`Search`): the case-insensitive product filter and its lemmas.
- `sequences.dfy` (`Sequences`): small sequence facts that the loops use.
- `price_machine.dfy` (`PriceMachines`): the class `PriceMachine`.
  - Fields `catalogPath`, `outputHtml`, `data` (the record list, a `seq<Record>`) and `result`.
  - Methods `LoadPrices`, `SearchProductPriceWeight`, `FindText` and `ExportToHtml`, each with the loops the source has.

Inputs the model takes in place of the operating system and libraries:

- `LoadPrices(isDirectory, directory, parse)`.
  - `isDirectory` is what `os.path.isdir(catalog_path)` answers.
  - `directory` is `os.listdir(catalog_path)` in listing order, or `None` when that call raises (an unreadable directory raises `PermissionError`, caught by `except Exception`). Each entry says what opening the file and running `csv.reader` over it would give:
    - `NotFound`: `open` raises `FileNotFoundError`, the one failure the first handler catches;
    - `OpenFailed`: `open` raises anything else, such as `IsADirectoryError` for a sub-directory named `price.csv` or `PermissionError`, which reaches `except Exception`;
    - `Readable`: the rows the reader yields (the first is the header), plus the reader error it raises afterwards, if any.
  - `parse` stands for `float(cell)`: the value of a cell, or `None` where `float` raises.
- Prices, weights and prices per kilogram are `real`, so `price / weight` is exact.

The model follows the code as written. Four of its behaviours are easy to
misread from the method names and messages:

- **Missing header.** A file with no product header or no price header is not skipped. The resolver catches its own `ValueError` (project.py:69-72) and returns the partial indices. The file's rows then load with product `""` or price `0.0`. See `Loading.MissingProductColumnStillLoads`.
- **Unparsable cell.** A non-empty price or weight cell that does not parse gets no default. `float` raises (project.py:34-35). See `Loading.UnparsableCellStopsTheScan`.
- **One exception stops everything.** The whole directory loop sits inside one `try` (project.py:21-51). So any exception ends the scan of all remaining files: a directory that cannot be listed, a file that cannot be opened, an empty file, a short row, a bad number, or a CSV or decoding error. Records appended before it stay.
- **When the resolver warns.** The resolver complains when the product column or the price column is missing (`or`, project.py:69). It does not wait until both are missing.

## Model

| member | source | states |
|---|---|---|
| `PriceMachines.PriceMachine.constructor` | project.py:9-13 | catalogue path and output name are stored (default `output.html`); the record list starts empty and `result` is `""` |
| `PriceMachines.PriceMachine.LoadPrices` | project.py:15-51 | if the path is not a directory, nothing changes and `NotADirectory` is reported; if the directory cannot be listed, nothing changes and the generic handler's `CannotList` is reported; otherwise the store becomes the old store followed by the records of the listing (listing order, then row order), up to the first error, which is reported; records appended before that error stay |
| `PriceMachines.PriceMachine.ReadEntry` | project.py:23-44 | one listing entry appends exactly the records `LoadFile` gives for it and reports its error |
| `PriceMachines.PriceMachine.ReadRows` | project.py:32-44 | the loop over a file's data rows appends exactly the records `LoadRows` gives and reports the error of the first failing row |
| `PriceMachines.PriceMachine.SearchProductPriceWeight` | project.py:53-73 | the returned indices are the resolver's last-match columns; the diagnostic is raised exactly when the product or the price column is missing, and the partial result is still returned (so two calls on the same headers agree) |
| `PriceMachines.PriceMachine.FindText` | project.py:115-122 | the results are exactly the stored records whose lowercased product contains the lowercased text: a permutation of that filtered sub-sequence, sorted by price per kilogram, with tied records in store order; the store is not modified |
| `PriceMachines.PriceMachine.ExportToHtml` | project.py:75-105 | the target file is `outputHtml` when no name is given; the table has one row per stored record, numbered 1..n, holding the whole store sorted stably by price per kilogram |
| `Records.UnitPrice` | project.py:36 | for a positive weight, unit price times weight is the price; for a zero or negative weight the unit price is 0, so no division by zero or by a negative weight happens |
| `Text.LowerChar` | project.py:61 | the result is never an upper-case letter, lower-case and other characters are unchanged, upper-case ones are changed |
| `Text.Lower` | project.py:61 | lowercasing keeps the length and lowercases each character at its position |
| `Text.LowerIdempotent` | project.py:119 | lowercasing twice equals lowercasing once |
| `Text.IsSubstring` | project.py:23 | the substring test `t in s`: it fails when `t` is longer than `s` and holds for the empty `t`; `Text.IsSubstringAt` characterises it fully |
| `Text.EndsWith` | project.py:23 | `s.endswith(suffix)` holds exactly when `s` is at least as long and its last characters are `suffix`'s, position by position and without case folding |
| `Text.IsSubstringAt` | project.py:119 | the substring test holds exactly when the text occurs at some index |
| `Columns.Classify` | project.py:61-67 | the role of one header, by the `if/elif` chain over its lowercase form; its meaning is stated by `Columns.ClassifyIff` |
| `Columns.ClassifyIff` | project.py:61-67 | a header takes a role exactly when its lowercase form is in that role's list, so the `if/elif` order does not matter and a header takes at most one role |
| `Columns.SynonymsAreLowercase` | project.py:62-66 | every synonym is its own lowercase form, so it matches a header written in any case |
| `Columns.LastIndex` | project.py:60-67 | a found index is inside the header row and its header has the role |
| `Columns.LastIndexIsLast` | project.py:59-67 | the found index is the largest position with the role; nothing is found exactly when no header has it |
| `Columns.Resolve` | project.py:55-67 | the indices are in range and pairwise distinct |
| `Columns.IncompleteIff` | project.py:69-70 | the resolver complains exactly when no header names the product or no header names the price |
| `Columns.ResolveIgnoresCase` | project.py:61 | header rows that agree up to case give the same columns |
| `Columns.ResolveExample` | project.py:59-67 | `Название,Цена,Вес` gives product 0, price 1, weight 2 |
| `Columns.ResolveLastPriceWins` | project.py:59-67 | with two price headers the later one wins; without a name header the product column is absent |
| `Loading.Wanted` | project.py:23 | a file name is read exactly when a lowercase `price` occurs at some position of its lowercase form and the name itself ends in `.csv`; such a name has at least 9 characters, because the two parts cannot overlap |
| `Loading.PriceAndCsvApart` | project.py:23 | a name containing `price` (ignoring case) and ending in `.csv` has at least 9 characters: the `.` of the extension is no letter of `price` |
| `Loading.WantedExample` | project.py:23 | `Big-PRICE.csv` passes the filter: the "price" test ignores case |
| `Loading.UnwantedExamples` | project.py:23 | `PRICE.CSV` and `price.csv.bak` are rejected: the extension test is case-sensitive and must be at the end of the name |
| `Loading.WantedPrefixed` | project.py:23 | a name starting `price` and ending `.csv` passes the filter |
| `Loading.NumberCell` | project.py:34-35 | absent column or empty cell gives the default; a row too short for the column is `RowTooShort`, and an unparsable non-empty cell is exactly the `NotANumber` case; otherwise the parsed value |
| `Loading.ConvertRow` | project.py:33-36 | a row fails exactly when a needed column is past its end or a price/weight cell does not parse; the cause is `RowTooShort` or `NotANumber`, and it is `NotANumber` when every column fits, or when the product column fits and the price cell (read before the weight) does not parse; otherwise the record has the file name, product (or `""`), the price (default 0), the weight (default 1) and the guarded unit price |
| `Loading.LoadRows` | project.py:32-44 | the data rows of one file as a scan; its meaning is stated by `Loading.LoadRowsSpec`, `Loading.LoadRowsConcat` and `Loading.LoadRowsNameTheirFile` |
| `Loading.LoadRowsNameTheirFile` | project.py:32-44 | every record of a file's rows has that file's name, and the error that stops them is a generic one naming that file |
| `Loading.LoadFile` | project.py:23-44 | one directory entry as a scan; its meaning is stated by `Loading.LoadFileOpening`, `Loading.LoadFileNamesItsFile` and `Loading.LoadReadableFile` |
| `Loading.LoadFileOpening` | project.py:23-51 | a name the filter rejects gives nothing; `FileNotFound` is reported exactly for a wanted file that is missing; a wanted file that cannot be opened for another reason gives the generic error and no records |
| `Loading.LoadFileNamesItsFile` | project.py:23-51 | every record and every error of one entry names that entry's file |
| `Loading.LoadListing` | project.py:21-51 | the whole listing as a scan; its meaning is stated by `Loading.LoadListingConcat`, `Loading.OnlyWantedEntriesMatter` and `Loading.RecordsComeFromWantedFiles` |
| `Loading.LoadRowsConcat` | project.py:32-44 | loading rows `a + b` is loading `a`, then `b` if nothing failed |
| `Loading.LoadRowsSpec` | project.py:32-44 | one record per row in row order, each the conversion of its row; the scan stops exactly at the first failing row, with that row's error |
| `Loading.LoadListingConcat` | project.py:21-51 | loading the listing `a + b` is loading `a`, then `b` only if nothing in `a` failed |
| `Loading.OnlyWantedEntriesMatter` | project.py:23 | removing the entries the filter rejects changes nothing: they are never opened |
| `Loading.RecordsComeFromWantedFiles` | project.py:22-44 | every loaded record names a file of the listing that passes the filter |
| `Loading.LoadSingleEntry` | project.py:22 | a listing of one entry loads as that entry |
| `Loading.LoadReadableFile` | project.py:24-32 | a wanted readable file loads as its data rows under the columns of its header row |
| `Loading.LoadSingleRow` | project.py:32-44 | a single data row loads as its own conversion step |
| `Loading.LoadExample` | project.py:22-44 | `price1.csv` with `Название,Цена,Вес` / `Молоко,80,2` gives one record: milk, 80, 2, 40 per kilogram |
| `Loading.ConvertExample` | project.py:33-36 | the row `Молоко,80,2` under columns 0, 1, 2 converts to milk at 40 per kilogram |
| `Loading.ResolvePriceWeight` | project.py:59-67 | `Цена,Вес` has no product column, price 0 and weight 1 |
| `Loading.ConvertWithoutProduct` | project.py:33-36 | the row `50,` under no product column, price 0 and weight 1 converts to an unnamed record priced 50 with weight 1 |
| `Loading.MissingProductColumnStillLoads` | project.py:69-73 | a file whose header names no product still loads its rows, with product `""` and the default weight 1 |
| `Loading.UnparsableCellStopsTheScan` | project.py:34 | a non-empty price cell that does not parse is not defaulted: the rows before it are loaded and the scan stops with an error, which is `Failed(file, NotANumber)` when the row is long enough for its product column |
| `Sorting.StableSort` | project.py:122 | the result is sorted by price per kilogram, is a permutation of the input, and keeps the input order of tied records |
| `Sorting.InsertionPoint` | project.py:122 | insertion sort's position: after every record that is not dearer, before every dearer one |
| `Sorting.InsertSorted` | project.py:122 | a record placed after every record that is not dearer and before every dearer one keeps a sorted sequence sorted |
| `Sorting.SortedTiesUnique` | project.py:122 | a stable sort has one possible result: two sorted sequences with the same tie groups are equal |
| `Search.Matches` | project.py:119 | a record matches exactly when the lowercased text occurs at some position of the lowercased product name; a match is never longer than the name |
| `Search.Matching` | project.py:117-120 | the filter keeps exactly the records that match and never grows the sequence |
| `Search.EmptyTextMatchesAll` | project.py:119 | the empty text keeps every record |
| `Search.SearchIgnoresCase` | project.py:119 | searching for a text or for its lowercase form gives the same records |
| `Search.MatchesExample` | project.py:119 | "мол" finds "Молоко 1л" |
| `Search.MatchingKeepsSorted` | project.py:117-122 | filtering a sorted sequence leaves it sorted |
| `Search.SearchAgreesWithTable` | project.py:115-122 | a search result equals the matching rows of the export table, in the same order |

## Left out

- File system I/O is replaced by the `isDirectory` and `directory` inputs: `os.path.isdir`, `os.listdir`, `open` and `os.path.join` (project.py:17, 22, 24).
- The CSV tokeniser (project.py:25-26) is a library call. Its output is given as rows, plus the error it raises after them.
- `float()` is the `parse` oracle. Infinities and NaN (which `float` accepts) have no `real` counterpart.
- Prices, weights and prices per kilogram are exact `real` numbers, not correctly rounded doubles. Python rounds the parsed price and weight and then the quotient (project.py:34-36), and `sorted` (project.py:96, 122) orders those rounded keys. So records whose exact unit prices are equal or close can be tied, split or reversed differently:
  - split tie: price `0.3` with weight `0.1` and price `3` with weight `1` both cost exactly 3 per kilogram, so the model keeps store order; Python's keys are 2.9999999999999996 and 3.0, so the first always comes first;
  - reversed: price `2.9999999999999999` with weight `1` is exactly cheaper than the `0.3`/`0.1` record, so the model puts it first; Python parses it as 3.0 and puts it after;
  - merged tie: unit prices closer than double precision are strictly ordered by the model and are equal keys, kept in store order, for Python.
- An `os.listdir` that raises `FileNotFoundError` (the directory removed after the `isdir` test) would reach the first handler before `filename` is bound. The resulting `UnboundLocalError` escapes `load_prices`. The model reports every listing failure as `CannotList`.
- `:.2f` formatting, the HTML template and the file write of `export_to_html` (project.py:80-113) are not modelled. The model returns the target name and the table rows. A write failure is a diagnostic with no effect on the store.
- `print` diagnostics are not modelled as text.
  - `LoadPrices` reports which handler caught the error, as a `LoadOutcome`.
  - The resolver reports its diagnostic as `warned`.
- The interactive `main` loop (project.py:125-160) is user-interface glue: input, the `exit` test and the Y/N prompt.
- Lowercasing covers only ASCII and Cyrillic U+0400–U+042F. Other characters are unchanged, where Python's full Unicode `str.lower` would change some of them.
- `self.result` is kept as a field. The source never reads it.
