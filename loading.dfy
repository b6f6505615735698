/**
 * What loading a catalogue directory produces, as functions of the
 * directory's contents: which files are read, how each data row becomes a
 * record, and where an error stops the scan.
 *
 * The file system and the CSV tokeniser are inputs here: a directory
 * entry carries its name and what opening it and reading it as CSV
 * yields. Decimal parsing (`float(cell)`) is an oracle `parse` that gives
 * the number a cell denotes, or None when `float` would raise.
 */
module Loading {
  import opened Wrappers
  import opened Text
  import opened Records
  import opened Columns

  /** An error the CSV reader raises after yielding the rows before it. */
  datatype ReaderFault = MalformedCsv | Undecodable

  /**
   * What opening and reading a file gives. `open` can fail because the file
   * is gone (`FileNotFoundError`) or for any other reason, such as a
   * directory or a file without read permission (`IsADirectoryError`,
   * `PermissionError`). Otherwise the reader yields rows (the first is the
   * header) and may raise an error after them.
   */
  datatype FileContent =
    | NotFound
    | OpenFailed
    | Readable(rows: seq<seq<string>>, fault: Option<ReaderFault>)

  /** One name of the directory listing with its contents. */
  datatype Entry = Entry(name: string, content: FileContent)

  /** The reason a generic exception ended the scan. */
  datatype Cause = CannotOpen | NoHeaderRow | RowTooShort | NotANumber | BadEncoding

  /** The error that ended the scan, by the handler that catches it. */
  datatype LoadError =
    | FileNotFound(file: string)           // `except FileNotFoundError`
    | CsvError(file: string)               // `except csv.Error`
    | Failed(file: string, cause: Cause)   // `except Exception`
    | CannotList                           // `except Exception`, raised by `os.listdir`

  /** The records a scan appends, in order, and the error that stopped it, if any. */
  datatype Scan = Scan(records: seq<Record>, error: Option<LoadError>)

  /** A number parser: the value of a cell, or None if `float` rejects it. */
  type Parser = string -> Option<real>

  /** The file-name filter: the lowercased name contains "price" and the name itself ends in ".csv". */
  predicate Wanted(name: string): (r: bool)
    ensures r <==> (exists i: nat :: OccursAt("price", Lower(name), i)) && EndsWith(name, ".csv")
    ensures r ==> |name| >= 9
  {
    IsSubstringAt("price", Lower(name));
    PriceAndCsvApart(name);
    IsSubstring("price", Lower(name)) && EndsWith(name, ".csv")
  }

  /** "price" and ".csv" share no position of a name: the '.' of the extension is no letter of "price". */
  lemma PriceAndCsvApart(name: string)
    ensures (exists i: nat :: OccursAt("price", Lower(name), i)) && EndsWith(name, ".csv") ==> |name| >= 9
  {
    if (exists i: nat :: OccursAt("price", Lower(name), i)) && EndsWith(name, ".csv") && |name| < 9 {
      var i: nat :| OccursAt("price", Lower(name), i);
      var k := |name| - 4;
      assert name[k] == name[k..][0];
      NoDotInPrice(Lower(name), i, k);
      assert false;
    }
  }

  /** Inside an occurrence of "price" there is no '.'. */
  lemma NoDotInPrice(l: string, i: nat, k: nat)
    requires OccursAt("price", l, i) && i <= k < i + 5
    ensures l[k] != '.'
  {
    assert l[k] == l[i..i + 5][k - i];
  }

  /** A lowercase "price" anywhere in the name and a lowercase ".csv" at its end pass. */
  lemma WantedExample(name: string)
    requires name == "Big-PRICE.csv"
    ensures Wanted(name)
  {
    var l := Lower(name);
    assert l[4..9] == [LowerChar(name[4]), LowerChar(name[5]), LowerChar(name[6]), LowerChar(name[7]), LowerChar(name[8])];
    OccursIsSubstring("price", l, 4);
  }

  /** The extension test is case-sensitive, and the name must end at ".csv". */
  lemma UnwantedExamples()
    ensures !Wanted("PRICE.CSV") && !Wanted("price.csv.bak")
  {
  }

  /** The column at `col` exists in `row` (or no column is asked for). */
  predicate Fits(row: seq<string>, col: Option<nat>) {
    col.None? || col.value < |row|
  }

  /** A present, non-empty cell that `float` rejects. */
  predicate Unparsable(row: seq<string>, col: Option<nat>, parse: Parser) {
    col.Some? && col.value < |row| && row[col.value] != "" && parse(row[col.value]).None?
  }

  /**
   * A numeric field: `default` when the column is absent or its cell is
   * empty, otherwise the parsed cell. A row too short for the column and a
   * cell that does not parse are errors, not defaults.
   */
  function NumberCell(row: seq<string>, col: Option<nat>, parse: Parser, default: real): (r: Result<real, Cause>)
    ensures r.Err? <==> !Fits(row, col) || Unparsable(row, col, parse)
    ensures r == Err(RowTooShort) <==> !Fits(row, col)
    ensures r == Err(NotANumber) <==> Unparsable(row, col, parse)
    ensures col.None? ==> r == Ok(default)
    ensures col.Some? && col.value < |row| && row[col.value] == "" ==> r == Ok(default)
    ensures r.Ok? && col.Some? && row[col.value] != "" ==> parse(row[col.value]) == Some(r.value)
  {
    match col
    case None => Ok(default)
    case Some(c) =>
      if c >= |row| then Err(RowTooShort)
      else if row[c] == "" then Ok(default)
      else match parse(row[c])
        case None => Err(NotANumber)
        case Some(v) => Ok(v)
  }

  /**
   * One data row as a record. The product falls back to "", the price to
   * 0 and the weight to 1; the fields are read product, price, weight, so
   * the first failing one gives the error.
   */
  function ConvertRow(file: string, cols: ColumnMap, row: seq<string>, parse: Parser): (r: Result<Record, Cause>)
    ensures r.Err? <==>
      !Fits(row, cols.product) || !Fits(row, cols.price) || !Fits(row, cols.weight) ||
      Unparsable(row, cols.price, parse) || Unparsable(row, cols.weight, parse)
    ensures r.Err? ==> r.error == RowTooShort || r.error == NotANumber
    ensures Fits(row, cols.product) && Fits(row, cols.price) && Fits(row, cols.weight) && r.Err? ==> r == Err(NotANumber)
    ensures Fits(row, cols.product) && Unparsable(row, cols.price, parse) ==> r == Err(NotANumber)
    ensures r.Ok? ==> r.value.file == file
    ensures r.Ok? ==> r.value.product == (if cols.product.None? then "" else row[cols.product.value])
    ensures r.Ok? ==> NumberCell(row, cols.price, parse, 0.0) == Ok(r.value.price)
    ensures r.Ok? ==> NumberCell(row, cols.weight, parse, 1.0) == Ok(r.value.weight)
    ensures r.Ok? ==> r.value.pricePerKg == UnitPrice(r.value.price, r.value.weight)
  {
    if !Fits(row, cols.product) then Err(RowTooShort)
    else
      var product := if cols.product.None? then "" else row[cols.product.value];
      match NumberCell(row, cols.price, parse, 0.0)
      case Err(c) => Err(c)
      case Ok(price) =>
        match NumberCell(row, cols.weight, parse, 1.0)
        case Err(c) => Err(c)
        case Ok(weight) => Ok(Record(product, price, weight, file, UnitPrice(price, weight)))
  }

  /** Sequencing: `b` runs only if `a` ended without an error. */
  function Then(a: Scan, b: Scan): Scan {
    if a.error.Some? then a else Scan(a.records + b.records, b.error)
  }

  lemma ThenAssociative(a: Scan, b: Scan, c: Scan)
    ensures Then(Then(a, b), c) == Then(a, Then(b, c))
  {
  }

  /** One data row: its record, or the error that aborts the scan. */
  function RowStep(file: string, cols: ColumnMap, row: seq<string>, parse: Parser): Scan {
    match ConvertRow(file, cols, row, parse)
    case Ok(rec) => Scan([rec], None)
    case Err(c) => Scan([], Some(Failed(file, c)))
  }

  /** The data rows of one file, in order, up to the first row that fails. */
  function LoadRows(file: string, cols: ColumnMap, rows: seq<seq<string>>, parse: Parser): Scan {
    if rows == [] then Scan([], None)
    else Then(RowStep(file, cols, rows[0], parse), LoadRows(file, cols, rows[1..], parse))
  }

  /** The error a reader fault is caught as. */
  function FaultError(file: string, fault: ReaderFault): LoadError {
    match fault
    case MalformedCsv => CsvError(file)
    case Undecodable => Failed(file, BadEncoding)
  }

  /** What the reader raises once its rows are exhausted. */
  function AfterRows(file: string, fault: Option<ReaderFault>): Scan {
    match fault
    case None => Scan([], None)
    case Some(f) => Scan([], Some(FaultError(file, f)))
  }

  /**
   * One directory entry: skipped unless its name passes the filter; an
   * empty file fails on reading its header; otherwise the header row is
   * resolved and the data rows loaded.
   */
  function LoadFile(e: Entry, parse: Parser): Scan {
    if !Wanted(e.name) then Scan([], None)
    else match e.content
      case NotFound => Scan([], Some(FileNotFound(e.name)))
      case OpenFailed => Scan([], Some(Failed(e.name, CannotOpen)))
      case Readable(rows, fault) =>
        if rows == [] then
          Scan([], Some(if fault.Some? then FaultError(e.name, fault.value) else Failed(e.name, NoHeaderRow)))
        else
          Then(LoadRows(e.name, Resolve(rows[0]), rows[1..], parse), AfterRows(e.name, fault))
  }

  /** The whole listing, file by file, up to the first error. */
  function LoadListing(entries: seq<Entry>, parse: Parser): Scan {
    if entries == [] then Scan([], None)
    else Then(LoadFile(entries[0], parse), LoadListing(entries[1..], parse))
  }

  /**
   * What one directory entry can give besides its rows: nothing unless its
   * name passes the filter; a missing file is the one case reported as
   * `FileNotFound`; any other failure to open it is a generic error.
   */
  lemma LoadFileOpening(e: Entry, parse: Parser)
    ensures !Wanted(e.name) ==> LoadFile(e, parse) == Scan([], None)
    ensures Wanted(e.name) && e.content.NotFound? <==> LoadFile(e, parse).error == Some(FileNotFound(e.name))
    ensures Wanted(e.name) && e.content.OpenFailed? ==> LoadFile(e, parse) == Scan([], Some(Failed(e.name, CannotOpen)))
  {
    if Wanted(e.name) && e.content.Readable? && e.content.rows != [] {
      var rows := e.content.rows;
      LoadRowsSpec(e.name, Resolve(rows[0]), rows[1..], parse);
    }
  }

  /** Every record and every error that one directory entry gives names that entry's file. */
  lemma LoadFileNamesItsFile(e: Entry, parse: Parser)
    ensures forall rec :: rec in LoadFile(e, parse).records ==> rec.file == e.name
    ensures LoadFile(e, parse).error.Some? ==>
      !LoadFile(e, parse).error.value.CannotList? && LoadFile(e, parse).error.value.file == e.name
  {
    if Wanted(e.name) && e.content.Readable? && e.content.rows != [] {
      var rows := e.content.rows;
      LoadRowsNameTheirFile(e.name, Resolve(rows[0]), rows[1..], parse);
    }
  }

  /** Every record and every error of a file's rows names that file; the error is a generic one. */
  lemma {:induction false} LoadRowsNameTheirFile(file: string, cols: ColumnMap, rows: seq<seq<string>>, parse: Parser)
    ensures forall rec :: rec in LoadRows(file, cols, rows, parse).records ==> rec.file == file
    ensures LoadRows(file, cols, rows, parse).error.Some? ==>
      LoadRows(file, cols, rows, parse).error.value.Failed? && LoadRows(file, cols, rows, parse).error.value.file == file
  {
    if rows != [] {
      LoadRowsNameTheirFile(file, cols, rows[1..], parse);
    }
  }

  /** Loading rows `a + b` is loading `a` and then, if nothing failed, `b`. */
  lemma {:induction false} LoadRowsConcat(file: string, cols: ColumnMap, a: seq<seq<string>>, b: seq<seq<string>>, parse: Parser)
    ensures LoadRows(file, cols, a + b, parse) == Then(LoadRows(file, cols, a, parse), LoadRows(file, cols, b, parse))
  {
    if a == [] {
      assert a + b == b;
    } else {
      assert (a + b)[1..] == a[1..] + b;
      LoadRowsConcat(file, cols, a[1..], b, parse);
    }
  }

  /** Appending one row appends that row's step. */
  lemma LoadRowsSnoc(file: string, cols: ColumnMap, rows: seq<seq<string>>, row: seq<string>, parse: Parser)
    ensures LoadRows(file, cols, rows + [row], parse) == Then(LoadRows(file, cols, rows, parse), RowStep(file, cols, row, parse))
  {
    LoadRowsConcat(file, cols, rows, [row], parse);
    assert [row][1..] == [];
  }

  /**
   * One record per row, in row order, each the conversion of its row; the
   * scan stops exactly at the first row that fails, with that row's error.
   */
  lemma {:induction false} LoadRowsSpec(file: string, cols: ColumnMap, rows: seq<seq<string>>, parse: Parser)
    ensures var s := LoadRows(file, cols, rows, parse);
      && |s.records| <= |rows|
      && (forall i :: 0 <= i < |s.records| ==> ConvertRow(file, cols, rows[i], parse) == Ok(s.records[i]))
      && (s.error.None? <==> |s.records| == |rows|)
      && (s.error.Some? ==>
            ConvertRow(file, cols, rows[|s.records|], parse).Err? &&
            s.error == Some(Failed(file, ConvertRow(file, cols, rows[|s.records|], parse).error)))
  {
    if rows != [] {
      LoadRowsSpec(file, cols, rows[1..], parse);
    }
  }

  /** Loading the listing `a + b` is loading `a` and then, if nothing failed, `b`. */
  lemma {:induction false} LoadListingConcat(a: seq<Entry>, b: seq<Entry>, parse: Parser)
    ensures LoadListing(a + b, parse) == Then(LoadListing(a, parse), LoadListing(b, parse))
  {
    if a == [] {
      assert a + b == b;
    } else {
      assert (a + b)[0] == a[0];
      assert (a + b)[1..] == a[1..] + b;
      LoadListingConcat(a[1..], b, parse);
      var f := LoadFile(a[0], parse);
      calc {
        LoadListing(a + b, parse);
        Then(f, LoadListing(a[1..] + b, parse));
        Then(f, Then(LoadListing(a[1..], parse), LoadListing(b, parse)));
        { ThenAssociative(f, LoadListing(a[1..], parse), LoadListing(b, parse)); }
        Then(Then(f, LoadListing(a[1..], parse)), LoadListing(b, parse));
      }
    }
  }

  /** Appending one entry to the listing appends what loading that one file gives. */
  lemma LoadListingSnoc(entries: seq<Entry>, e: Entry, parse: Parser)
    ensures LoadListing(entries + [e], parse) == Then(LoadListing(entries, parse), LoadFile(e, parse))
  {
    LoadListingConcat(entries, [e], parse);
    assert [e][1..] == [];
  }

  /** Entries whose names fail the filter contribute nothing and cannot fail. */
  function WantedOnly(entries: seq<Entry>): (r: seq<Entry>)
    ensures forall e :: e in r <==> e in entries && Wanted(e.name)
  {
    if entries == [] then []
    else (if Wanted(entries[0].name) then [entries[0]] else []) + WantedOnly(entries[1..])
  }

  lemma {:induction false} OnlyWantedEntriesMatter(entries: seq<Entry>, parse: Parser)
    ensures LoadListing(WantedOnly(entries), parse) == LoadListing(entries, parse)
  {
    if entries != [] {
      OnlyWantedEntriesMatter(entries[1..], parse);
      var head := if Wanted(entries[0].name) then [entries[0]] else [];
      LoadListingConcat(head, WantedOnly(entries[1..]), parse);
      if Wanted(entries[0].name) {
        assert head[1..] == [];
      }
    }
  }

  /** Every loaded record names a file of the listing that passes the filter. */
  lemma {:induction false} RecordsComeFromWantedFiles(entries: seq<Entry>, parse: Parser)
    ensures forall r :: r in LoadListing(entries, parse).records ==>
      Wanted(r.file) && exists i :: 0 <= i < |entries| && entries[i].name == r.file
  {
    if entries != [] {
      RecordsComeFromWantedFiles(entries[1..], parse);
      var e := entries[0];
      forall r | r in LoadFile(e, parse).records
        ensures Wanted(r.file) && r.file == e.name
      {
        assert Wanted(e.name) && e.content.Readable? && e.content.rows != [];
        var rows := e.content.rows;
        var s := LoadRows(e.name, Resolve(rows[0]), rows[1..], parse);
        LoadRowsSpec(e.name, Resolve(rows[0]), rows[1..], parse);
        var i :| 0 <= i < |s.records| && s.records[i] == r;
      }
      forall r | r in LoadListing(entries[1..], parse).records
        ensures exists i :: 0 <= i < |entries| && entries[i].name == r.file
      {
        var i :| 0 <= i < |entries[1..]| && entries[1..][i].name == r.file;
        assert entries[i + 1].name == r.file;
      }
    }
  }

  /** A name that starts with a lowercase "price" and ends in ".csv" passes the filter. */
  lemma WantedPrefixed(name: string)
    requires |name| >= 9 && name[..5] == "price" && name[|name| - 4..] == ".csv"
    ensures Wanted(name)
  {
    var l := Lower(name);
    assert l[..5] == [LowerChar(name[0]), LowerChar(name[1]), LowerChar(name[2]), LowerChar(name[3]), LowerChar(name[4])];
    OccursIsSubstring("price", l, 0);
  }

  /** A listing of one entry loads as that entry. */
  lemma LoadSingleEntry(e: Entry, parse: Parser)
    ensures LoadListing([e], parse) == LoadFile(e, parse)
  {
    assert [e][1..] == [];
  }

  /** A wanted, readable file with a header and no reader error loads as its data rows under its header's columns. */
  lemma LoadReadableFile(e: Entry, parse: Parser)
    requires Wanted(e.name) && e.content.Readable? && e.content.rows != [] && e.content.fault.None?
    ensures LoadFile(e, parse) == LoadRows(e.name, Resolve(e.content.rows[0]), e.content.rows[1..], parse)
  {
  }

  /** A single data row loads as its own step. */
  lemma LoadSingleRow(file: string, cols: ColumnMap, row: seq<string>, parse: Parser)
    ensures LoadRows(file, cols, [row], parse) == RowStep(file, cols, row, parse)
  {
    assert [row][1..] == [];
  }

  /**
   * Example: `price1.csv` with header `Название,Цена,Вес` and the row
   * `Молоко,80,2` gives one record, milk at 80 for 2 kg, 40 per kilogram.
   */
  lemma LoadExample(e: Entry, parse: Parser)
    requires e == Entry("price1.csv", Readable([["Название", "Цена", "Вес"], ["Молоко", "80", "2"]], None))
    requires parse("80") == Some(80.0) && parse("2") == Some(2.0)
    ensures LoadListing([e], parse) == Scan([Record("Молоко", 80.0, 2.0, "price1.csv", 40.0)], None)
  {
    var rows := e.content.rows;
    WantedPrefixed(e.name);
    LoadSingleEntry(e, parse);
    LoadReadableFile(e, parse);
    ResolveExample(rows[0]);
    assert rows[1..] == [rows[1]];
    LoadSingleRow(e.name, Resolve(rows[0]), rows[1], parse);
    ConvertExample(e.name, rows[1], parse);
  }

  /** The row `Молоко,80,2` under columns 0, 1, 2 converts to milk at 40 per kilogram. */
  lemma ConvertExample(file: string, row: seq<string>, parse: Parser)
    requires row == ["Молоко", "80", "2"]
    requires parse("80") == Some(80.0) && parse("2") == Some(2.0)
    ensures ConvertRow(file, ColumnMap(Some(0), Some(1), Some(2)), row, parse) == Ok(Record("Молоко", 80.0, 2.0, file, 40.0))
  {
    assert NumberCell(row, Some(1), parse, 0.0) == Ok(80.0);
    assert NumberCell(row, Some(2), parse, 1.0) == Ok(2.0);
  }

  /** The header row `Цена,Вес` has no product column. */
  lemma ResolvePriceWeight(h: seq<string>)
    requires h == ["Цена", "Вес"]
    ensures Resolve(h) == ColumnMap(None, Some(0), Some(1))
  {
    assert Lower(h[0]) == "цена";
    assert Lower(h[1]) == "вес";
    ClassifyIff(h[0], Product);
    ClassifyIff(h[0], Price);
    ClassifyIff(h[1], Product);
    ClassifyIff(h[1], Price);
    ClassifyIff(h[1], Weight);
    assert h[..1][..0] == [];
    assert LastIndex(h[..1], Product) == None;
    assert LastIndex(h, Product) == None;
    assert LastIndex(h, Price) == Some(0);
  }

  /**
   * Example: a file whose header names no product still loads its rows,
   * each with the empty product name: `price2.csv` with header `Цена,Вес`
   * and the row `50,` gives a record priced 50 with the default weight 1.
   */
  lemma MissingProductColumnStillLoads(e: Entry, parse: Parser)
    requires e == Entry("price2.csv", Readable([["Цена", "Вес"], ["50", ""]], None))
    requires parse("50") == Some(50.0)
    ensures LoadListing([e], parse) == Scan([Record("", 50.0, 1.0, "price2.csv", 50.0)], None)
  {
    var rows := e.content.rows;
    WantedPrefixed(e.name);
    LoadSingleEntry(e, parse);
    LoadReadableFile(e, parse);
    ResolvePriceWeight(rows[0]);
    assert rows[1..] == [rows[1]];
    LoadSingleRow(e.name, Resolve(rows[0]), rows[1], parse);
    ConvertWithoutProduct(e.name, rows[1], parse);
  }

  /** The row `50,` under columns none, 0, 1 converts to an unnamed record priced 50 with weight 1. */
  lemma ConvertWithoutProduct(file: string, row: seq<string>, parse: Parser)
    requires row == ["50", ""]
    requires parse("50") == Some(50.0)
    ensures ConvertRow(file, ColumnMap(None, Some(0), Some(1)), row, parse) == Ok(Record("", 50.0, 1.0, file, 50.0))
  {
    assert NumberCell(row, Some(0), parse, 0.0) == Ok(50.0);
    assert NumberCell(row, Some(1), parse, 1.0) == Ok(1.0);
  }

  /**
   * A non-empty cell that does not parse is not defaulted: the row fails
   * and the scan stops there, before any later row or file.
   */
  lemma UnparsableCellStopsTheScan(file: string, cols: ColumnMap, rows: seq<seq<string>>, parse: Parser, i: nat)
    requires i < |rows|
    requires forall j :: 0 <= j < i ==> ConvertRow(file, cols, rows[j], parse).Ok?
    requires Unparsable(rows[i], cols.price, parse)
    ensures |LoadRows(file, cols, rows, parse).records| == i
    ensures LoadRows(file, cols, rows, parse).error.Some?
    ensures Fits(rows[i], cols.product) ==> LoadRows(file, cols, rows, parse).error == Some(Failed(file, NotANumber))
  {
    LoadRowsSpec(file, cols, rows, parse);
  }
}
