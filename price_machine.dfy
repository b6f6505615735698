/**
 * The price machine itself: a catalogue path, an output file name and the
 * record store that loading grows, with the loader, the column resolver,
 * the search and the export table as its methods.
 */
module PriceMachines {
  import opened Wrappers
  import opened Text
  import opened Records
  import opened Columns
  import opened Loading
  import opened Sorting
  import opened Search
  import opened Sequences

  /** How a call of `LoadPrices` ended, standing for the diagnostic it prints. */
  datatype LoadOutcome =
    | NotADirectory          // the catalogue path is not a directory; nothing is read
    | Finished               // every entry of the listing was handled
    | Aborted(error: LoadError)  // an exception ended the scan; later entries are not read

  /** One line of the exported table: its 1-based number and its record. */
  datatype TableRow = TableRow(number: nat, item: Record)

  /** The records of a table, in table order. */
  function Items(table: seq<TableRow>): (r: seq<Record>)
    ensures |r| == |table|
    ensures forall i :: 0 <= i < |table| ==> r[i] == table[i].item
  {
    if table == [] then [] else [table[0].item] + Items(table[1..])
  }

  /** The outcome a completed or aborted scan is reported as. */
  function OutcomeOf(s: Scan): LoadOutcome {
    match s.error
    case None => Finished
    case Some(e) => Aborted(e)
  }

  class PriceMachine {
    var catalogPath: string
    var outputHtml: string
    var data: seq<Record>
    var result: string

    constructor (catalogPath: string := "", outputHtml: string := "output.html")
      ensures this.catalogPath == catalogPath && this.outputHtml == outputHtml
      ensures data == [] && result == ""
    {
      this.catalogPath := catalogPath;
      this.outputHtml := outputHtml;
      data := [];
      result := "";
    }

    /**
     * Load the catalogue. `isDirectory` and `directory` are what the file
     * system reports for `catalogPath`: `directory` is the listing, or None
     * when listing the directory raises. Records are only ever appended:
     * the store grows by the records of the listing, file by file and row
     * by row, up to the first error, and keeps what was appended before it.
     */
    method LoadPrices(isDirectory: bool, directory: Option<seq<Entry>>, parse: Parser) returns (outcome: LoadOutcome)
      modifies this`data
      ensures !isDirectory ==> outcome == NotADirectory && data == old(data)
      ensures isDirectory && directory.None? ==> outcome == Aborted(CannotList) && data == old(data)
      ensures isDirectory && directory.Some? ==> data == old(data) + LoadListing(directory.value, parse).records
      ensures isDirectory && directory.Some? ==> outcome == OutcomeOf(LoadListing(directory.value, parse))
    {
      if !isDirectory {
        return NotADirectory;
      }
      if directory.None? {
        return Aborted(CannotList);
      }
      var listing := directory.value;
      outcome := Finished;
      var i := 0;
      while i < |listing|
        invariant 0 <= i <= |listing|
        invariant LoadListing(listing[..i], parse).error.None?
        invariant data == old(data) + LoadListing(listing[..i], parse).records
      {
        ghost var done := LoadListing(listing[..i], parse);
        ghost var file := LoadFile(listing[i], parse);
        TakeOneMore(listing, i);
        LoadListingSnoc(listing[..i], listing[i], parse);
        var err := ReadEntry(listing[i], parse);
        AppendAssociative(old(data), done.records, file.records);
        if err.Some? {
          TakeDrop(listing, i + 1);
          LoadListingConcat(listing[..i + 1], listing[i + 1..], parse);
          return Aborted(err.value);
        }
        i := i + 1;
      }
      TakeAll(listing);
    }

    /** One entry of the listing: the body of the loop over file names. */
    method ReadEntry(e: Entry, parse: Parser) returns (err: Option<LoadError>)
      modifies this`data
      ensures data == old(data) + LoadFile(e, parse).records
      ensures err == LoadFile(e, parse).error
    {
      if !Wanted(e.name) {
        return None;
      }
      match e.content
      case NotFound =>
        return Some(FileNotFound(e.name));
      case OpenFailed =>
        return Some(Failed(e.name, CannotOpen));
      case Readable(rows, fault) =>
        if rows == [] {
          return Some(if fault.Some? then FaultError(e.name, fault.value) else Failed(e.name, NoHeaderRow));
        }
        var cols, warned := SearchProductPriceWeight(rows[0]);
        err := ReadRows(e.name, cols, rows[1..], parse);
        if err.None? && fault.Some? {
          err := Some(FaultError(e.name, fault.value));
        }
    }

    /** The data rows of one file: the loop over the remaining rows of the reader. */
    method ReadRows(file: string, cols: ColumnMap, body: seq<seq<string>>, parse: Parser) returns (err: Option<LoadError>)
      modifies this`data
      ensures data == old(data) + LoadRows(file, cols, body, parse).records
      ensures err == LoadRows(file, cols, body, parse).error
    {
      var j := 0;
      while j < |body|
        invariant 0 <= j <= |body|
        invariant LoadRows(file, cols, body[..j], parse).error.None?
        invariant data == old(data) + LoadRows(file, cols, body[..j], parse).records
      {
        ghost var done := LoadRows(file, cols, body[..j], parse);
        TakeOneMore(body, j);
        LoadRowsSnoc(file, cols, body[..j], body[j], parse);
        match ConvertRow(file, cols, body[j], parse) {
          case Err(c) =>
            TakeDrop(body, j + 1);
            LoadRowsConcat(file, cols, body[..j + 1], body[j + 1..], parse);
            return Some(Failed(file, c));
          case Ok(rec) =>
            AppendAssociative(old(data), done.records, [rec]);
            data := data + [rec];
        }
        j := j + 1;
      }
      TakeAll(body);
      return None;
    }

    /**
     * The column resolver. Each index is that of the last header with the
     * role, and `warned` (the diagnostic) is set exactly when the product
     * or the price column is missing; the partial result is still returned.
     */
    static method SearchProductPriceWeight(headers: seq<string>) returns (cols: ColumnMap, warned: bool)
      ensures cols == Resolve(headers)
      ensures warned <==> cols.Incomplete()
    {
      var productCol: Option<nat> := None;
      var priceCol: Option<nat> := None;
      var weightCol: Option<nat> := None;
      for index := 0 to |headers|
        invariant productCol == LastIndex(headers[..index], Product)
        invariant priceCol == LastIndex(headers[..index], Price)
        invariant weightCol == LastIndex(headers[..index], Weight)
      {
        assert headers[..index + 1][..index] == headers[..index];
        var header := Lower(headers[index]);
        if header in ProductNames {
          productCol := Some(index);
        } else if header in PriceNames {
          priceCol := Some(index);
        } else if header in WeightNames {
          weightCol := Some(index);
        }
      }
      assert headers[..|headers|] == headers;
      cols := ColumnMap(productCol, priceCol, weightCol);
      warned := productCol.None? || priceCol.None?;
    }

    /**
     * Search the store: the records whose product contains `text`,
     * ignoring case, sorted stably by price per kilogram. The store is not
     * changed.
     */
    method FindText(text: string) returns (results: seq<Record>)
      ensures forall x :: x in results <==> x in data && Matches(x, text)
      ensures multiset(results) == multiset(Matching(data, text))
      ensures SortedByUnitPrice(results)
      ensures KeepsTies(Matching(data, text), results)
    {
      var found: seq<Record> := [];
      for i := 0 to |data|
        invariant found == Matching(data[..i], text)
      {
        TakeOneMore(data, i);
        MatchingSnoc(data[..i], data[i], text);
        if IsSubstring(Lower(text), Lower(data[i].product)) {
          found := found + [data[i]];
        }
      }
      TakeAll(data);
      results := StableSort(found);
      SameElements(results, found);
    }

    /**
     * The rows of the exported table: every record of the store, sorted
     * stably by price per kilogram and numbered from 1, and the file it is
     * written to, `outputHtml` unless a name is given.
     */
    method ExportToHtml(fname: Option<string> := None) returns (target: string, table: seq<TableRow>)
      ensures fname.None? ==> target == outputHtml
      ensures fname.Some? ==> target == fname.value
      ensures |table| == |data|
      ensures forall i :: 0 <= i < |table| ==> table[i].number == i + 1
      ensures multiset(Items(table)) == multiset(data)
      ensures SortedByUnitPrice(Items(table))
      ensures KeepsTies(data, Items(table))
    {
      target := if fname.None? then outputHtml else fname.value;
      var sorted := StableSort(data);
      table := [];
      for index := 0 to |sorted|
        invariant |table| == index
        invariant forall i :: 0 <= i < index ==> table[i] == TableRow(i + 1, sorted[i])
      {
        table := table + [TableRow(index + 1, sorted[index])];
      }
      assert Items(table) == sorted;
    }
  }
}
